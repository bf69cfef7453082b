/**
 * The seed URL of a crawl: `BASE_URL + HOTEL_DEFAULT_URL`, built from the
 * city's geolocation id, the hotel id and the hotel name
 * (tripadvisor-scrapper.py, lines 103-104 and 109).
 */
module Seed {
  import opened Wrappers

  const BASE_URL: string := "http://www.tripadvisor.com.sg/"

  /** What every seed URL starts with. */
  const HEAD: string := BASE_URL + "Hotel_Review-g"

  datatype SeedArgs = SeedArgs(id: string, hotelId: string, name: string)

  /** `HOTEL_DEFAULT_URL`: the path of the hotel's first review page, made of
      the fixed pieces (30 characters) and the three arguments. */
  function HotelDefaultUrl(id: string, hotelId: string, name: string): (r: string)
    ensures "Hotel_Review-g" <= r
    ensures |r| == 30 + |id| + |hotelId| + |name|
    ensures r[|r| - 5..] == ".html"
  {
    "Hotel_Review-g" + id + "-d" + hotelId + "-Reviews-" + name + ".html"
  }

  /** The single frontier URL handed to the crawl: on the site's host, and
      read back by ParseSeed when both ids are numerals (SeedRoundTrip). */
  function SeedUrl(id: string, hotelId: string, name: string): (r: string)
    ensures HEAD <= r
    ensures |r| == |BASE_URL| + 30 + |id| + |hotelId| + |name|
  {
    BASE_URL + HotelDefaultUrl(id, hotelId, name)
  }

  predicate IsDigit(c: char)
  {
    '0' <= c <= '9'
  }

  predicate IsNumeral(s: string)
  {
    |s| > 0 && forall i :: 0 <= i < |s| ==> IsDigit(s[i])
  }

  /** The longest prefix of `s` made of decimal digits. */
  function DigitPrefix(s: string): (d: string)
    ensures d <= s
    ensures forall i :: 0 <= i < |d| ==> IsDigit(d[i])
    ensures |d| < |s| ==> !IsDigit(s[|d|])
  {
    if s == [] || !IsDigit(s[0]) then [] else [s[0]] + DigitPrefix(s[1..])
  }

  /** `s` with `prefix` removed from its front, if it starts with it. */
  function StripPrefix(prefix: string, s: string): (r: Option<string>)
    ensures r.Some? <==> prefix <= s
    ensures r.Some? ==> s == prefix + r.value
  {
    if prefix <= s then Some(s[|prefix|..]) else None
  }

  /** `s` split after its leading numeral, if it has one. */
  function SplitNumeral(s: string): (r: Option<(string, string)>)
    ensures r.Some? ==> IsNumeral(r.value.0) && s == r.value.0 + r.value.1
  {
    var d := DigitPrefix(s);
    if d == [] then None else Some((d, s[|d|..]))
  }

  /** `s` with the suffix ".html" removed, if it ends with it. */
  function StripHtml(s: string): (r: Option<string>)
    ensures r.Some? ==> s == r.value + ".html"
  {
    if |s| >= 5 && s[|s| - 5..] == ".html" then Some(s[..|s| - 5]) else None
  }

  /** Reference inverse of SeedUrl for numeric ids: splits a seed URL back
      into its three arguments. */
  function ParseSeed(url: string): Option<SeedArgs>
  {
    match StripPrefix(HEAD, url)
    case None => None
    case Some(r0) =>
      match SplitNumeral(r0)
      case None => None
      case Some((id, r1)) =>
        match StripPrefix("-d", r1)
        case None => None
        case Some(r2) =>
          match SplitNumeral(r2)
          case None => None
          case Some((hotelId, r3)) =>
            match StripPrefix("-Reviews-", r3)
            case None => None
            case Some(r4) =>
              match StripHtml(r4)
              case None => None
              case Some(name) => Some(SeedArgs(id, hotelId, name))
  }

  lemma StripPrefixOf(prefix: string, t: string)
    ensures StripPrefix(prefix, prefix + t) == Some(t)
  {
    assert prefix <= prefix + t;
    assert (prefix + t)[|prefix|..] == t;
  }

  lemma {:induction false} DigitPrefixOfNumeral(d: string, t: string)
    requires forall i :: 0 <= i < |d| ==> IsDigit(d[i])
    requires t != [] && !IsDigit(t[0])
    ensures DigitPrefix(d + t) == d
    decreases |d|
  {
    if d == [] {
      assert d + t == t;
    } else {
      assert (d + t)[0] == d[0];
      assert (d + t)[1..] == d[1..] + t;
      DigitPrefixOfNumeral(d[1..], t);
    }
  }

  lemma SplitNumeralOf(d: string, t: string)
    requires IsNumeral(d) && t != [] && t[0] == '-'
    ensures SplitNumeral(d + t) == Some((d, t))
  {
    DigitPrefixOfNumeral(d, t);
    assert (d + t)[|d|..] == t;
  }

  lemma StripHtmlOf(name: string)
    ensures StripHtml(name + ".html") == Some(name)
  {
    var s := name + ".html";
    assert s[|s| - 5..] == ".html";
    assert s[..|s| - 5] == name;
  }

  lemma SeedUrlShape(id: string, hotelId: string, name: string)
    ensures SeedUrl(id, hotelId, name) == HEAD + (id + ("-d" + (hotelId + ("-Reviews-" + (name + ".html")))))
  {
  }

  /** Numeric ids and any name survive the trip through the URL. */
  lemma SeedRoundTrip(id: string, hotelId: string, name: string)
    requires IsNumeral(id) && IsNumeral(hotelId)
    ensures ParseSeed(SeedUrl(id, hotelId, name)) == Some(SeedArgs(id, hotelId, name))
  {
    var r4 := name + ".html";
    var r3 := "-Reviews-" + r4;
    var r2 := hotelId + r3;
    var r1 := "-d" + r2;
    var r0 := id + r1;
    SeedUrlShape(id, hotelId, name);
    StripPrefixOf(HEAD, r0);
    SplitNumeralOf(id, r1);
    StripPrefixOf("-d", r2);
    SplitNumeralOf(hotelId, r3);
    StripPrefixOf("-Reviews-", r4);
    StripHtmlOf(name);
  }

  /** Every URL ParseSeed accepts is the seed URL of what it returns. */
  lemma ParseSeedSound(url: string)
    requires ParseSeed(url).Some?
    ensures var a := ParseSeed(url).value;
      IsNumeral(a.id) && IsNumeral(a.hotelId) && SeedUrl(a.id, a.hotelId, a.name) == url
  {
    var a := ParseSeed(url).value;
    SeedUrlShape(a.id, a.hotelId, a.name);
  }

  /** Distinct numeric arguments give distinct seed URLs. */
  lemma SeedUrlInjective(a: SeedArgs, b: SeedArgs)
    requires IsNumeral(a.id) && IsNumeral(a.hotelId) && IsNumeral(b.id) && IsNumeral(b.hotelId)
    requires SeedUrl(a.id, a.hotelId, a.name) == SeedUrl(b.id, b.hotelId, b.name)
    ensures a == b
  {
    SeedRoundTrip(a.id, a.hotelId, a.name);
    SeedRoundTrip(b.id, b.hotelId, b.name);
  }

  /** A hotel id given with its `d` prefix, as in the program's usage text
      ("294265 d302294 ..."), yields a doubled "-dd" in the URL, outside the
      numeric form. */
  lemma PrefixedHotelIdNotNumeric(id: string, hotelId: string, name: string)
    requires IsNumeral(id) && hotelId != [] && hotelId[0] == 'd'
    ensures ParseSeed(SeedUrl(id, hotelId, name)).None?
  {
    var r2 := hotelId + ("-Reviews-" + (name + ".html"));
    var r1 := "-d" + r2;
    SeedUrlShape(id, hotelId, name);
    StripPrefixOf(HEAD, id + r1);
    SplitNumeralOf(id, r1);
    StripPrefixOf("-d", r2);
    assert r2[0] == 'd';
  }
}
