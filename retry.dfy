/**
 * The exponential-backoff retry decorator of tripadvisor-scrapper.py
 * (`retry` / `deco_retry` / `f_retry`).
 *
 * The decorated function is an oracle `op`: `op(i)` is what its i-th call
 * (counting from 0) does.  Warnings and sleeps are not performed; they are
 * recorded, together with every call, in one ordered event log.
 */
module Backoff {

  /** An exception raised by the wrapped function: `text` is `str(err)`,
      `matches` says whether it is an instance of `ExceptionToCheck`. */
  datatype Exc = Exc(text: string, matches: bool)

  /** What one call of the wrapped function does. */
  datatype Outcome<+T> = Return(value: T) | Raise(exc: Exc)

  /** How one call of the decorated function ends. */
  datatype Exit<+T> =
    | Returned(value: T)
    /** an exception of the wrapped function reached the caller */
    | Propagated(exc: Exc)
    /** `time.sleep` raised ValueError because the delay was negative */
    | SleepRejected(delay: int)

  /** The observable steps: a call of the wrapped function, the warning
      "<err>, Retrying in <delay> seconds...", and a sleep. */
  datatype Event = Call | Warn(reason: string, delay: int) | Sleep(seconds: int)

  datatype Run<+T> = Run(exit: Exit<T>, events: seq<Event>)

  /** An outcome the `except ExceptionToCheck` clause catches. */
  predicate Retryable<T>(o: Outcome<T>)
  {
    o.Raise? && o.exc.matches
  }

  /** How the final, unguarded call `return f(*args, **kwargs)` ends. */
  function ExitOf<T>(o: Outcome<T>): Exit<T>
  {
    match o
    case Return(v) => Returned(v)
    case Raise(e) => Propagated(e)
  }

  function Power(b: int, n: nat): int
  {
    if n == 0 then 1 else b * Power(b, n - 1)
  }

  /** The first n delays of the policy: delay, delay*backoff, delay*backoff^2, ... */
  function Delays(delay: int, backoff: int, n: nat): seq<int>
  {
    DelaysFrom(delay, backoff, 0, n)
  }

  /** The n delays delay*backoff^lo, ..., delay*backoff^(lo+n-1). */
  function DelaysFrom(delay: int, backoff: int, lo: nat, n: nat): seq<int>
  {
    seq(n, i requires 0 <= i < n => delay * Power(backoff, lo + i))
  }

  function Max1(t: int): nat
  {
    if t > 1 then t else 1
  }

  function Prepend<T>(prefix: seq<Event>, run: Run<T>): Run<T>
  {
    Run(run.exit, prefix + run.events)
  }

  function CallCount(events: seq<Event>): nat
  {
    if events == [] then 0 else (if events[0].Call? then 1 else 0) + CallCount(events[1..])
  }

  /** The sleep durations of a log, in order. */
  function SleepsOf(events: seq<Event>): seq<int>
  {
    if events == [] then [] else (if events[0].Sleep? then [events[0].seconds] else []) + SleepsOf(events[1..])
  }

  function Sum(s: seq<int>): int
  {
    if s == [] then 0 else Sum(s[..|s| - 1]) + s[|s| - 1]
  }

  /**
   * The while loop of `f_retry` from the state where `k` calls have been made
   * and the counters are `mtries` and `mdelay`.
   */
  function Loop<T>(op: nat -> Outcome<T>, k: nat, mtries: int, mdelay: int, backoff: int): Run<T>
    decreases if mtries > 1 then mtries else 0
  {
    if mtries <= 1 then Run(ExitOf(op(k)), [Call])
    else
      match op(k)
      case Return(v) => Run(Returned(v), [Call])
      case Raise(e) =>
        if !e.matches then Run(Propagated(e), [Call])
        else if mdelay < 0 then Run(SleepRejected(mdelay), [Call, Warn(e.text, mdelay)])
        else Prepend([Call, Warn(e.text, mdelay), Sleep(mdelay)],
                     Loop(op, k + 1, mtries - 1, mdelay * backoff, backoff))
  }

  /** One call of a function decorated with `retry(ExceptionToCheck, tries, delay, backoff)`. */
  function RetryRun<T>(op: nat -> Outcome<T>, tries: int, delay: int, backoff: int): Run<T>
  {
    Loop(op, 0, tries, delay, backoff)
  }

  /** `f_retry`: the loop over the counters `mtries` and `mdelay`. */
  method Retry<T>(op: nat -> Outcome<T>, tries: int, delay: int, backoff: int) returns (run: Run<T>)
    ensures run == RetryRun(op, tries, delay, backoff)
  {
    var mtries, mdelay := tries, delay;
    var calls: nat := 0;
    var events: seq<Event> := [];
    while mtries > 1
      invariant Prepend(events, Loop(op, calls, mtries, mdelay, backoff)) == RetryRun(op, tries, delay, backoff)
      decreases mtries
    {
      var outcome := op(calls);
      events, calls := events + [Call], calls + 1;
      match outcome {
        case Return(v) =>
          return Run(Returned(v), events);
        case Raise(err) =>
          if !err.matches {
            return Run(Propagated(err), events);
          }
          events := events + [Warn(err.text, mdelay)];
          if mdelay < 0 {
            return Run(SleepRejected(mdelay), events);
          }
          events := events + [Sleep(mdelay)];
          mtries := mtries - 1;
          mdelay := mdelay * backoff;
      }
    }
    var outcome := op(calls);
    run := Run(ExitOf(outcome), events + [Call]);
  }

  // ---------------------------------------------------------------------
  // Counting events

  lemma {:induction false} EventCountsAppend(a: seq<Event>, b: seq<Event>)
    ensures CallCount(a + b) == CallCount(a) + CallCount(b)
    ensures SleepsOf(a + b) == SleepsOf(a) + SleepsOf(b)
  {
    if a == [] {
      assert a + b == b;
    } else {
      assert (a + b)[0] == a[0];
      assert (a + b)[1..] == a[1..] + b;
      EventCountsAppend(a[1..], b);
    }
  }

  /** The events of one caught call: one call and one sleep. */
  lemma RoundCounts(reason: string, d: int)
    ensures CallCount([Call, Warn(reason, d), Sleep(d)]) == 1
    ensures SleepsOf([Call, Warn(reason, d), Sleep(d)]) == [d]
  {
    var evs := [Call, Warn(reason, d), Sleep(d)];
    var last := [Sleep(d)];
    assert last[1..] == [];
    assert CallCount(last) == 0 && SleepsOf(last) == [d];
    assert evs[1..] == [Warn(reason, d)] + last;
    assert evs[1..][1..] == last;
    assert CallCount(evs[1..]) == 0 && SleepsOf(evs[1..]) == [d];
  }

  /** The events of a call whose sleep was rejected: one call, no sleep. */
  lemma RejectedRoundCounts(reason: string, d: int)
    ensures CallCount([Call, Warn(reason, d)]) == 1
    ensures SleepsOf([Call, Warn(reason, d)]) == []
  {
    var evs := [Call, Warn(reason, d)];
    var last := [Warn(reason, d)];
    assert last[1..] == [];
    assert CallCount(last) == 0 && SleepsOf(last) == [];
    assert evs[1..] == last;
  }

  /** The events of the final call alone. */
  lemma LastCallCounts()
    ensures CallCount([Call]) == 1 && SleepsOf([Call]) == []
  {
    assert [Call][1..] == [];
  }

  /** Whatever the wrapped function does: at least one call, at most
      max(mtries, 1) calls, and exactly one sleep fewer than calls. */
  lemma {:induction false} LoopBounds<T>(op: nat -> Outcome<T>, k: nat, mtries: int, mdelay: int, backoff: int)
    ensures var r := Loop(op, k, mtries, mdelay, backoff);
      1 <= CallCount(r.events) <= Max1(mtries) && |SleepsOf(r.events)| + 1 == CallCount(r.events)
    decreases if mtries > 1 then mtries else 0
  {
    if mtries > 1 && Retryable(op(k)) {
      var reason := op(k).exc.text;
      if mdelay >= 0 {
        var rest := Loop(op, k + 1, mtries - 1, mdelay * backoff, backoff);
        assert Loop(op, k, mtries, mdelay, backoff).events == [Call, Warn(reason, mdelay), Sleep(mdelay)] + rest.events;
        LoopBounds(op, k + 1, mtries - 1, mdelay * backoff, backoff);
        RoundCounts(reason, mdelay);
        EventCountsAppend([Call, Warn(reason, mdelay), Sleep(mdelay)], rest.events);
      } else {
        assert Loop(op, k, mtries, mdelay, backoff).events == [Call, Warn(reason, mdelay)];
        RejectedRoundCounts(reason, mdelay);
      }
    } else {
      assert Loop(op, k, mtries, mdelay, backoff).events == [Call];
      LastCallCounts();
    }
  }

  lemma RetryBounds<T>(op: nat -> Outcome<T>, tries: int, delay: int, backoff: int)
    ensures var r := RetryRun(op, tries, delay, backoff);
      1 <= CallCount(r.events) <= Max1(tries) && |SleepsOf(r.events)| == CallCount(r.events) - 1
  {
    LoopBounds(op, 0, tries, delay, backoff);
  }

  /** With `tries <= 1` the loop body never runs: one call, no sleep, no warning. */
  lemma SingleTry<T>(op: nat -> Outcome<T>, tries: int, delay: int, backoff: int)
    requires tries <= 1
    ensures RetryRun(op, tries, delay, backoff) == Run(ExitOf(op(0)), [Call])
  {
  }

  // ---------------------------------------------------------------------
  // Warnings and sleeps

  /** Every sleep comes right after a warning naming its delay; every warning
      comes right after a call and is followed by the sleep it announces,
      unless `time.sleep` rejected that delay and ended the run. */
  ghost predicate Announced<T>(r: Run<T>)
  {
    var evs := r.events;
    && (forall i :: 0 <= i < |evs| && evs[i].Sleep? ==>
          0 < i && evs[i - 1].Warn? && evs[i - 1].delay == evs[i].seconds)
    && (forall i :: 0 <= i < |evs| && evs[i].Warn? ==>
          && 0 < i && evs[i - 1].Call?
          && (i + 1 < |evs| ==> evs[i + 1] == Sleep(evs[i].delay))
          && (i + 1 == |evs| ==> r.exit == SleepRejected(evs[i].delay)))
  }

  lemma {:induction false} LoopAnnounced<T>(op: nat -> Outcome<T>, k: nat, mtries: int, mdelay: int, backoff: int)
    ensures var r := Loop(op, k, mtries, mdelay, backoff);
      Announced(r) && |r.events| > 0 && r.events[0] == Call
    decreases if mtries > 1 then mtries else 0
  {
    if mtries > 1 && Retryable(op(k)) && mdelay >= 0 {
      var r := Loop(op, k, mtries, mdelay, backoff);
      var rest := Loop(op, k + 1, mtries - 1, mdelay * backoff, backoff);
      var head := [Call, Warn(op(k).exc.text, mdelay), Sleep(mdelay)];
      var evs := head + rest.events;
      assert r == Run(rest.exit, evs);
      LoopAnnounced(op, k + 1, mtries - 1, mdelay * backoff, backoff);
      var tail := rest.events;
      assert forall i :: 3 <= i < |evs| ==> evs[i] == tail[i - 3];
      forall i | 0 <= i < |evs| && evs[i].Sleep?
        ensures 0 < i && evs[i - 1].Warn? && evs[i - 1].delay == evs[i].seconds
      {
        if i >= 3 {
          assert tail[i - 3].Sleep?;
          assert evs[i - 1] == tail[i - 4];
        }
      }
      forall i | 0 <= i < |evs| && evs[i].Warn?
        ensures 0 < i && evs[i - 1].Call?
        ensures i + 1 < |evs| ==> evs[i + 1] == Sleep(evs[i].delay)
        ensures i + 1 == |evs| ==> r.exit == SleepRejected(evs[i].delay)
      {
        if i >= 3 {
          assert tail[i - 3].Warn?;
          assert evs[i - 1] == tail[i - 4];
          if i + 1 < |evs| {
            assert evs[i + 1] == tail[i - 2];
          } else {
            assert i - 3 + 1 == |tail|;
          }
        }
      }
    } else if mtries > 1 && Retryable(op(k)) {
      var r := Loop(op, k, mtries, mdelay, backoff);
      assert r == Run(SleepRejected(mdelay), [Call, Warn(op(k).exc.text, mdelay)]);
    } else {
      var r := Loop(op, k, mtries, mdelay, backoff);
      assert r.events == [Call];
    }
  }

  lemma RetryAnnounced<T>(op: nat -> Outcome<T>, tries: int, delay: int, backoff: int)
    ensures Announced(RetryRun(op, tries, delay, backoff))
  {
    LoopAnnounced(op, 0, tries, delay, backoff);
  }

  /** A sleep is rejected only for a negative delay, right after the warning
      naming it; with a non-negative policy it never happens. */
  lemma {:induction false} LoopSleepRejected<T>(op: nat -> Outcome<T>, k: nat, mtries: int, mdelay: int, backoff: int)
    ensures var r := Loop(op, k, mtries, mdelay, backoff);
      r.exit.SleepRejected? ==>
        r.exit.delay < 0 && |r.events| >= 2 && r.events[|r.events| - 1].Warn? && r.events[|r.events| - 1].delay == r.exit.delay
    ensures mdelay >= 0 && backoff >= 0 ==> !Loop(op, k, mtries, mdelay, backoff).exit.SleepRejected?
    decreases if mtries > 1 then mtries else 0
  {
    if mtries > 1 && Retryable(op(k)) && mdelay >= 0 {
      LoopSleepRejected(op, k + 1, mtries - 1, mdelay * backoff, backoff);
    }
  }

  lemma RetrySleepRejected<T>(op: nat -> Outcome<T>, tries: int, delay: int, backoff: int)
    ensures var r := RetryRun(op, tries, delay, backoff);
      r.exit.SleepRejected? ==>
        r.exit.delay < 0 && |r.events| >= 2 && r.events[|r.events| - 1].Warn? && r.events[|r.events| - 1].delay == r.exit.delay
    ensures delay >= 0 && backoff >= 0 ==> !RetryRun(op, tries, delay, backoff).exit.SleepRejected?
  {
    LoopSleepRejected(op, 0, tries, delay, backoff);
  }

  // ---------------------------------------------------------------------
  // Closed form of a run under a non-negative policy

  lemma {:induction false} PowerNonNegative(b: int, n: nat)
    requires b >= 0
    ensures Power(b, n) >= 0
  {
    if n > 0 {
      PowerNonNegative(b, n - 1);
    }
  }

  /** The index of the call that ends the loop started at call `k`: the first
      call that is not caught, or the last permitted one. */
  function StopFrom<T>(op: nat -> Outcome<T>, k: nat, mtries: int): (j: nat)
    ensures k <= j && j - k < Max1(mtries)
    ensures forall i :: k <= i < j ==> Retryable(op(i))
    ensures j - k + 1 == Max1(mtries) || !Retryable(op(j))
    decreases if mtries > 1 then mtries else 0
  {
    if mtries <= 1 || !Retryable(op(k)) then k else StopFrom(op, k + 1, mtries - 1)
  }

  /** The events of the caught calls lo, lo+1, ..., hi-1. */
  function Rounds<T>(op: nat -> Outcome<T>, delay: int, backoff: int, lo: nat, hi: nat): seq<Event>
    requires lo <= hi
    requires forall i :: lo <= i < hi ==> Retryable(op(i))
    decreases hi - lo
  {
    if lo == hi then []
    else
      assert Retryable(op(lo));
      [Call, Warn(op(lo).exc.text, delay * Power(backoff, lo)), Sleep(delay * Power(backoff, lo))]
         + Rounds(op, delay, backoff, lo + 1, hi)
  }

  lemma {:induction false} LoopShape<T>(op: nat -> Outcome<T>, k: nat, mtries: int, delay: int, backoff: int)
    requires delay >= 0 && backoff >= 0
    ensures var j := StopFrom(op, k, mtries);
      Loop(op, k, mtries, delay * Power(backoff, k), backoff)
        == Run(ExitOf(op(j)), Rounds(op, delay, backoff, k, j) + [Call])
    decreases if mtries > 1 then mtries else 0
  {
    var mdelay := delay * Power(backoff, k);
    PowerNonNegative(backoff, k);
    assert mdelay >= 0;
    if mtries > 1 && Retryable(op(k)) {
      LoopShape(op, k + 1, mtries - 1, delay, backoff);
      assert mdelay * backoff == delay * Power(backoff, k + 1);
    }
  }

  lemma DelaysFromCons(delay: int, backoff: int, lo: nat, n: nat)
    requires n > 0
    ensures DelaysFrom(delay, backoff, lo, n) == [delay * Power(backoff, lo)] + DelaysFrom(delay, backoff, lo + 1, n - 1)
  {
    var a := DelaysFrom(delay, backoff, lo, n);
    var b := [delay * Power(backoff, lo)] + DelaysFrom(delay, backoff, lo + 1, n - 1);
    assert |a| == |b|;
    forall i | 0 <= i < n ensures a[i] == b[i] {
      if i > 0 {
        assert lo + 1 + (i - 1) == lo + i;
      }
    }
  }

  lemma {:induction false} RoundsCounts<T>(op: nat -> Outcome<T>, delay: int, backoff: int, lo: nat, hi: nat)
    requires lo <= hi
    requires forall i :: lo <= i < hi ==> Retryable(op(i))
    ensures CallCount(Rounds(op, delay, backoff, lo, hi)) == hi - lo
    ensures SleepsOf(Rounds(op, delay, backoff, lo, hi)) == DelaysFrom(delay, backoff, lo, hi - lo)
    decreases hi - lo
  {
    if lo < hi {
      var d := delay * Power(backoff, lo);
      assert Retryable(op(lo));
      var head := [Call, Warn(op(lo).exc.text, d), Sleep(d)];
      var rest := Rounds(op, delay, backoff, lo + 1, hi);
      assert Rounds(op, delay, backoff, lo, hi) == head + rest;
      RoundsCounts(op, delay, backoff, lo + 1, hi);
      RoundCounts(op(lo).exc.text, d);
      EventCountsAppend(head, rest);
      DelaysFromCons(delay, backoff, lo, hi - lo);
    } else {
      assert Rounds(op, delay, backoff, lo, hi) == [];
      assert DelaysFrom(delay, backoff, lo, 0) == [];
    }
  }

  /**
   * The closed form: if the calls before `j` are all caught and call `j`
   * is the last permitted one or is not caught, the run makes exactly j+1
   * calls, sleeps delay*backoff^i before the (i+1)-th retry, and ends the
   * way call `j` ends.
   */
  lemma StopsAt<T>(op: nat -> Outcome<T>, tries: int, delay: int, backoff: int, j: nat)
    requires delay >= 0 && backoff >= 0
    requires j < Max1(tries)
    requires forall i :: 0 <= i < j ==> Retryable(op(i))
    requires j + 1 == Max1(tries) || !Retryable(op(j))
    ensures var r := RetryRun(op, tries, delay, backoff);
      && r.exit == ExitOf(op(j))
      && CallCount(r.events) == j + 1
      && SleepsOf(r.events) == Delays(delay, backoff, j)
  {
    var s := StopFrom(op, 0, tries);
    assert s == j;
    LoopShape(op, 0, tries, delay, backoff);
    RoundsCounts(op, delay, backoff, 0, j);
    EventCountsAppend(Rounds(op, delay, backoff, 0, j), [Call]);
  }

  /** With `tries = n >= 1` and the first n-1 calls caught, the function is
      called exactly n times, sleeps n-1 times, and the n-th call's
      exception reaches the caller. */
  lemma AllAttemptsFail<T>(op: nat -> Outcome<T>, n: int, delay: int, backoff: int)
    requires n >= 1 && delay >= 0 && backoff >= 0
    requires forall i :: 0 <= i < n - 1 ==> Retryable(op(i))
    requires op(n - 1).Raise?
    ensures var r := RetryRun(op, n, delay, backoff);
      && r.exit == Propagated(op(n - 1).exc)
      && CallCount(r.events) == n
      && SleepsOf(r.events) == Delays(delay, backoff, n - 1)
  {
    StopsAt(op, n, delay, backoff, n - 1);
  }

  /** First success on attempt k <= max(tries, 1): exactly k calls, k-1
      sleeps, and the value is returned unchanged. */
  lemma SucceedsAt<T>(op: nat -> Outcome<T>, tries: int, delay: int, backoff: int, k: nat)
    requires delay >= 0 && backoff >= 0
    requires 1 <= k <= Max1(tries)
    requires forall i :: 0 <= i < k - 1 ==> Retryable(op(i))
    requires op(k - 1).Return?
    ensures var r := RetryRun(op, tries, delay, backoff);
      && r.exit == Returned(op(k - 1).value)
      && CallCount(r.events) == k
      && SleepsOf(r.events) == Delays(delay, backoff, k - 1)
  {
    StopsAt(op, tries, delay, backoff, k - 1);
  }

  /** An exception that does not match `ExceptionToCheck` propagates at once:
      no sleep after it, no further call. */
  lemma NonMatchingStops<T>(op: nat -> Outcome<T>, tries: int, delay: int, backoff: int, k: nat)
    requires delay >= 0 && backoff >= 0
    requires k < Max1(tries)
    requires forall i :: 0 <= i < k ==> Retryable(op(i))
    requires op(k).Raise? && !op(k).exc.matches
    ensures var r := RetryRun(op, tries, delay, backoff);
      && r.exit == Propagated(op(k).exc)
      && CallCount(r.events) == k + 1
      && SleepsOf(r.events) == Delays(delay, backoff, k)
  {
    StopsAt(op, tries, delay, backoff, k);
  }

  /** Four tries, two caught failures, then a success: three calls, sleeps of
      delay and delay*backoff, and the third call's value. */
  lemma FailTwiceThenSucceed<T>(op: nat -> Outcome<T>, delay: int, backoff: int)
    requires delay >= 0 && backoff >= 0
    requires Retryable(op(0)) && Retryable(op(1)) && op(2).Return?
    ensures var r := RetryRun(op, 4, delay, backoff);
      r.exit == Returned(op(2).value) && CallCount(r.events) == 3 && SleepsOf(r.events) == [delay, delay * backoff]
  {
    SucceedsAt(op, 4, delay, backoff, 3);
    assert Power(backoff, 1) == backoff;
    assert Delays(delay, backoff, 2) == [delay, delay * backoff];
  }

  /** Whatever the wrapped function does, the sleeps are delay*backoff^i for
      i = 0, 1, ... in order, one fewer than the calls. */
  lemma DelaysAreGeometric<T>(op: nat -> Outcome<T>, tries: int, delay: int, backoff: int)
    requires delay >= 0 && backoff >= 0
    ensures var r := RetryRun(op, tries, delay, backoff);
      1 <= CallCount(r.events) && SleepsOf(r.events) == Delays(delay, backoff, CallCount(r.events) - 1)
  {
    var j := StopFrom(op, 0, tries);
    StopsAt(op, tries, delay, backoff, j);
  }

  lemma Distributes(x: int, y: int, z: int)
    ensures x * (y + z) == x * y + x * z
  {
  }

  lemma Rearranges(b: int, d: int, p: int)
    ensures d * (b * p - 1) == b * (d * p) - d
  {
  }

  lemma {:induction false} PowerOfOne(n: nat)
    ensures Power(1, n) == 1
  {
    if n > 0 {
      PowerOfOne(n - 1);
    }
  }

  /** With a multiplier of 1 every delay is the first one. */
  lemma {:induction false} ConstantDelays(delay: int, n: nat)
    ensures Sum(Delays(delay, 1, n)) == delay * n
  {
    if n > 0 {
      var ds := Delays(delay, 1, n);
      assert ds[..n - 1] == Delays(delay, 1, n - 1);
      PowerOfOne(n - 1);
      assert Sum(ds) == Sum(Delays(delay, 1, n - 1)) + delay;
      ConstantDelays(delay, n - 1);
    }
  }

  /** The total time slept: (backoff - 1) * (sum of the first n delays) == delay * (backoff^n - 1),
      and with a multiplier of 1, n times the delay. */
  lemma {:induction false} TotalDelay(delay: int, backoff: int, n: nat)
    ensures (backoff - 1) * Sum(Delays(delay, backoff, n)) == delay * (Power(backoff, n) - 1)
    ensures backoff == 1 ==> Sum(Delays(delay, backoff, n)) == delay * n
  {
    if n > 0 {
      var ds := Delays(delay, backoff, n);
      assert ds[..n - 1] == Delays(delay, backoff, n - 1);
      var rest := Sum(Delays(delay, backoff, n - 1));
      var p := Power(backoff, n - 1);
      var q := delay * p;
      assert Sum(ds) == rest + q;
      TotalDelay(delay, backoff, n - 1);
      assert (backoff - 1) * rest == q - delay;
      Distributes(backoff - 1, rest, q);
      Distributes(q, backoff, -1);
      assert (backoff - 1) * q == backoff * q - q;
      Rearranges(backoff, delay, p);
      assert Power(backoff, n) == backoff * p;
    }
    if backoff == 1 {
      ConstantDelays(delay, n);
    }
  }
}
