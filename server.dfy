/**
 * The pure helpers of the `/api/download` handler (backend/server.js):
 * duration text, proxy references and human-readable sizes, each with the
 * reader that inverts it.
 */
module Server {
  import opened Common
  import opened Text
  import UriComponent

  // ----- formatDuration -----

  /**
   * `formatDuration(seconds)`: "00:00" when the duration is missing or zero,
   * "MM:SS" under an hour, "HH:MM:SS" (hours unpadded beyond two digits) from
   * an hour on.
   */
  function FormatDuration(seconds: Option<nat>): (r: string)
    ensures |r| >= 5 && r[|r| - 3] == ':'
    ensures |r| == 5 <==> !TruthyNat(seconds) || seconds.value < 3600
  {
    if !TruthyNat(seconds) then "00:00"
    else
      var n := seconds.value;
      var h := n / 3600;
      var m := (n % 3600) / 60;
      var s := n % 60;
      PadTwoReadsBack(h);
      PadTwoReadsBack(m);
      PadTwoReadsBack(s);
      if h > 0 then PadTwo(h) + ":" + PadTwo(m) + ":" + PadTwo(s)
      else PadTwo(m) + ":" + PadTwo(s)
  }

  /** Two digits worth less than 60: a minutes or seconds field. */
  predicate SexagesimalField(f: string) {
    |f| == 2 && AllDigits(f) && DigitsValue(f) < 60
  }

  /**
   * Reads "MM:SS" or "HH:MM:SS" back into seconds, the inverse of
   * FormatDuration: the last five characters are the minutes and seconds
   * fields, and anything before them is an hours field of two or more digits
   * followed by a colon.
   */
  function ParseDuration(t: string): Option<nat> {
    if |t| < 5 || t[|t| - 3] != ':' then None
    else
      var mm, ss := t[|t| - 5..|t| - 3], t[|t| - 2..];
      if !SexagesimalField(mm) || !SexagesimalField(ss) then None
      else if |t| == 5 then Some(60 * DigitsValue(mm) + DigitsValue(ss))
      else if |t| >= 8 && t[|t| - 6] == ':' && AllDigits(t[..|t| - 6]) then
        Some(3600 * DigitsValue(t[..|t| - 6]) + 60 * DigitsValue(mm) + DigitsValue(ss))
      else None
  }

  lemma ReadMinutesSeconds(t: string, mm: string, ss: string)
    requires |t| == 5 && t[2] == ':' && t[0..2] == mm && t[3..] == ss
    requires SexagesimalField(mm) && SexagesimalField(ss)
    ensures ParseDuration(t) == Some(60 * DigitsValue(mm) + DigitsValue(ss))
  {
  }

  lemma ReadHoursMinutesSeconds(t: string, hh: string, mm: string, ss: string)
    requires |t| >= 8 && t[|t| - 3] == ':' && t[|t| - 6] == ':'
    requires t[..|t| - 6] == hh && t[|t| - 5..|t| - 3] == mm && t[|t| - 2..] == ss
    requires AllDigits(hh) && SexagesimalField(mm) && SexagesimalField(ss)
    ensures ParseDuration(t) == Some(3600 * DigitsValue(hh) + 60 * DigitsValue(mm) + DigitsValue(ss))
  {
  }

  /** Two sexagesimal fields read as minutes and seconds. */
  lemma ParseTwoFields(a: string, b: string)
    requires SexagesimalField(a) && SexagesimalField(b)
    ensures |a + ":" + b| == 5
    ensures ParseDuration(a + ":" + b) == Some(60 * DigitsValue(a) + DigitsValue(b))
  {
    var t := a + ":" + b;
    assert |t| == 5 && t[|t| - 3] == ':' by {
      assert t == a + [':'] + b;
    }
    assert t[|t| - 5..|t| - 3] == a && t[|t| - 2..] == b by {
      assert t == a + [':'] + b;
    }
    ReadMinutesSeconds(t, a, b);
  }

  /** An hours field of two or more digits and two sexagesimal fields read as hours, minutes and seconds. */
  lemma ParseThreeFields(a: string, b: string, c: string)
    requires AllDigits(a) && |a| >= 2 && SexagesimalField(b) && SexagesimalField(c)
    ensures |a + ":" + b + ":" + c| >= 8
    ensures ParseDuration(a + ":" + b + ":" + c) == Some(3600 * DigitsValue(a) + 60 * DigitsValue(b) + DigitsValue(c))
  {
    var t := a + ":" + b + ":" + c;
    assert |t| >= 8 && t[|t| - 3] == ':' && t[|t| - 6] == ':' by {
      assert t == a + [':'] + b + [':'] + c;
    }
    assert t[..|t| - 6] == a && t[|t| - 5..|t| - 3] == b && t[|t| - 2..] == c by {
      assert t == a + [':'] + b + [':'] + c;
    }
    ReadHoursMinutesSeconds(t, a, b, c);
  }

  lemma SixtyQuotient(n: int, q: int, r: int)
    requires n == 60 * q + r && 0 <= r < 60
    ensures n / 60 == q && n % 60 == r
  {
  }

  /** Seconds split into hours, minutes below 60 and seconds below 60. */
  lemma SecondsFields(n: nat)
    ensures (n % 3600) / 60 < 60 && n % 60 < 60
    ensures n == 3600 * (n / 3600) + 60 * ((n % 3600) / 60) + n % 60
  {
    var h, r := n / 3600, n % 3600;
    assert n == 3600 * h + r && 0 <= r < 3600;
    var m, s := r / 60, r % 60;
    assert r == 60 * m + s && 0 <= s < 60;
    SixtyQuotient(n, 60 * h + m, s);
  }

  /** Under an hour: two fields, minutes and seconds. */
  lemma DurationUnderAnHour(n: nat)
    requires n < 3600
    ensures |PadTwo(n / 60) + ":" + PadTwo(n % 60)| == 5
    ensures ParseDuration(PadTwo(n / 60) + ":" + PadTwo(n % 60)) == Some(n)
  {
    var m, s := n / 60, n % 60;
    PadTwoReadsBack(m);
    PadTwoReadsBack(s);
    ParseTwoFields(PadTwo(m), PadTwo(s));
  }

  /** From an hour on: three fields, hours (at least two digits), minutes and seconds. */
  lemma DurationFromAnHour(n: nat)
    ensures var t := PadTwo(n / 3600) + ":" + PadTwo((n % 3600) / 60) + ":" + PadTwo(n % 60);
      && |t| >= 8 && ParseDuration(t) == Some(n)
  {
    var h, m, s := n / 3600, (n % 3600) / 60, n % 60;
    SecondsFields(n);
    PadTwoReadsBack(h);
    PadTwoReadsBack(m);
    PadTwoReadsBack(s);
    ParseThreeFields(PadTwo(h), PadTwo(m), PadTwo(s));
  }

  /**
   * The duration text is "MM:SS" (five characters) exactly under an hour and
   * carries an hours field from an hour on; it reads back as the whole number
   * of seconds, and a missing duration prints as a zero one.
   */
  lemma DurationRoundTrip(n: nat)
    ensures |FormatDuration(Some(n))| == 5 <==> n < 3600
    ensures ParseDuration(FormatDuration(Some(n))) == Some(n)
    ensures FormatDuration(None) == FormatDuration(Some(0)) == "00:00"
  {
    FormatZero();
    if n < 3600 {
      FormatUnderAnHour(n);
      DurationUnderAnHour(n);
    } else {
      FormatFromAnHour(n);
      DurationFromAnHour(n);
    }
  }

  lemma FormatZero()
    ensures FormatDuration(None) == FormatDuration(Some(0)) == "00:00"
  {
  }

  lemma FormatUnderAnHour(n: nat)
    requires n < 3600
    ensures FormatDuration(Some(n)) == PadTwo(n / 60) + ":" + PadTwo(n % 60)
  {
    assert n / 3600 == 0 && n % 3600 == n;
    if n == 0 {
      assert PadTwo(0) == "00";
    }
  }

  lemma FormatFromAnHour(n: nat)
    requires n >= 3600
    ensures FormatDuration(Some(n)) == PadTwo(n / 3600) + ":" + PadTwo((n % 3600) / 60) + ":" + PadTwo(n % 60)
  {
  }

  // ----- createProxyUrl -----

  /** `User-Agent` and `Referer` from `info.http_headers`, each defaulting to "". */
  datatype Headers = Headers(userAgent: string, referer: string)

  /** `createProxyUrl(targetUrl)`: "" for an empty target, else the three fields percent-encoded. */
  function CreateProxyUrl(target: string, h: Headers): (r: string)
    ensures r == "" <==> target == ""
    ensures target != "" ==> StartsWith(r, "/api/proxy?url=")
  {
    if target == "" then ""
    else "/api/proxy?url=" + UriComponent.Encode(target) + "&ua=" + UriComponent.Encode(h.userAgent)
         + "&ref=" + UriComponent.Encode(h.referer)
  }

  /** The URL of the synthetic "Best Quality" entry. */
  function ProcessUrl(url: string): string {
    "/api/process?url=" + UriComponent.Encode(url)
  }

  /** One `key=value` pair: split at the first '=', the value decoded. */
  function ParsePair(part: string): Option<(string, string)> {
    if '=' in part then
      var i := IndexOf(part, '=');
      match UriComponent.Decode(part[i + 1..])
      case None => None
      case Some(v) => Some((part[..i], v))
    else Some((part, ""))
  }

  function ParsePairs(parts: seq<string>): Option<seq<(string, string)>>
    decreases |parts|
  {
    if parts == [] then Some([])
    else
      match ParsePair(parts[0])
      case None => None
      case Some(p) =>
        match ParsePairs(parts[1..])
        case None => None
        case Some(ps) => Some([p] + ps)
  }

  /** The query of a reference that starts with `route` ("/api/…?"), as that route reads it. */
  function QueryOf(route: string, reference: string): Option<seq<(string, string)>> {
    if StartsWith(reference, route) then ParsePairs(Split(reference[|route|..], '&'))
    else None
  }

  /** One `key=value` piece with an encoded value: free of '&', and it parses back to the pair. */
  lemma ParsePairOfEncoded(key: string, value: string)
    requires '=' !in key && '&' !in key
    ensures '&' !in key + "=" + UriComponent.Encode(value)
    ensures ParsePair(key + "=" + UriComponent.Encode(value)) == Some((key, value))
  {
    var e := UriComponent.Encode(value);
    UriComponent.EncodeOmitsDelimiters(value);
    IndexOfAfterFreePrefix(key, '=', e);
    var part := key + "=" + e;
    assert part[..|key|] == key && part[|key| + 1..] == e;
    UriComponent.DecodeEncode(value);
  }

  /** Parsing pieces one by one: the list of pairs each piece gives. */
  lemma {:induction false} ParsePairsOfPairs(parts: seq<string>, pairs: seq<(string, string)>)
    requires |parts| == |pairs|
    requires forall k :: 0 <= k < |parts| ==> ParsePair(parts[k]) == Some(pairs[k])
    ensures ParsePairs(parts) == Some(pairs)
    decreases |parts|
  {
    if parts != [] {
      ParsePairsOfPairs(parts[1..], pairs[1..]);
      assert [pairs[0]] + pairs[1..] == pairs;
    }
  }

  /** A route followed by '&'-free pieces joined by '&' reads back as the pairs of those pieces. */
  lemma QueryOfJoin(route: string, parts: seq<string>, pairs: seq<(string, string)>)
    requires |parts| == |pairs| >= 1
    requires forall k :: 0 <= k < |parts| ==> '&' !in parts[k] && ParsePair(parts[k]) == Some(pairs[k])
    ensures QueryOf(route, route + Join(parts, '&')) == Some(pairs)
  {
    StartsWithConcat(route, Join(parts, '&'));
    SplitJoin(parts, '&');
    ParsePairsOfPairs(parts, pairs);
  }

  /** Three `key=value` pieces joined by '&' read back as their three pairs. */
  lemma QueryOfJoinThree(route: string, p1: string, p2: string, p3: string,
                         q1: (string, string), q2: (string, string), q3: (string, string))
    requires '&' !in p1 && ParsePair(p1) == Some(q1)
    requires '&' !in p2 && ParsePair(p2) == Some(q2)
    requires '&' !in p3 && ParsePair(p3) == Some(q3)
    ensures QueryOf(route, route + Join([p1, p2, p3], '&')) == Some([q1, q2, q3])
  {
    var parts, pairs := [p1, p2, p3], [q1, q2, q3];
    forall k | 0 <= k < 3 ensures '&' !in parts[k] && ParsePair(parts[k]) == Some(pairs[k]) {
      if k == 1 {
        assert parts[k] == p2 && pairs[k] == q2;
      } else if k == 2 {
        assert parts[k] == p3 && pairs[k] == q3;
      }
    }
    QueryOfJoin(route, parts, pairs);
  }

  /** The reference CreateProxyUrl builds is the route followed by the three `key=value` pieces joined by '&'. */
  lemma ProxyUrlIsJoin(e1: string, e2: string, e3: string)
    ensures "/api/proxy?url=" + e1 + "&ua=" + e2 + "&ref=" + e3
            == "/api/proxy?" + Join(["url" + "=" + e1, "ua" + "=" + e2, "ref" + "=" + e3], '&')
  {
    var a, b, c := "url" + "=" + e1, "ua" + "=" + e2, "ref" + "=" + e3;
    JoinThree(a, b, c, '&');
    assert "/api/proxy?url=" + e1 == "/api/proxy?" + a;
    assert "&ua=" + e2 == ['&'] + b;
    assert "&ref=" + e3 == ['&'] + c;
  }

  /**
   * The proxy route recovers exactly the target, User-Agent and Referer from a
   * reference made by CreateProxyUrl: the encoding never emits '&' or '=', so
   * splitting on them finds the three fields again. Only an empty target
   * gives the empty reference.
   */
  lemma ProxyUrlRoundTrip(target: string, h: Headers)
    ensures CreateProxyUrl(target, h) == "" <==> target == ""
    ensures target != "" ==>
      QueryOf("/api/proxy?", CreateProxyUrl(target, h))
        == Some([("url", target), ("ua", h.userAgent), ("ref", h.referer)])
  {
    if target == "" { return; }
    var e1, e2, e3 := UriComponent.Encode(target), UriComponent.Encode(h.userAgent), UriComponent.Encode(h.referer);
    ProxyUrlIsJoin(e1, e2, e3);
    ParsePairOfEncoded("url", target);
    ParsePairOfEncoded("ua", h.userAgent);
    ParsePairOfEncoded("ref", h.referer);
    QueryOfJoinThree("/api/proxy?", "url" + "=" + e1, "ua" + "=" + e2, "ref" + "=" + e3,
                     ("url", target), ("ua", h.userAgent), ("ref", h.referer));
  }

  /** The synthetic entry's URL carries the requested URL to `/api/process` unaltered. */
  lemma ProcessUrlRoundTrip(url: string)
    ensures QueryOf("/api/process?", ProcessUrl(url)) == Some([("url", url)])
  {
    var a := "url" + "=" + UriComponent.Encode(url);
    assert ProcessUrl(url) == "/api/process?" + Join([a], '&');
    ParsePairOfEncoded("url", url);
    QueryOfJoin("/api/process?", [a], [("url", url)]);
  }

  // ----- size text -----

  const MiB: nat := 1048576
  const KiB: nat := 1024

  /** `(bytes / unit).toFixed(2)` as a count of hundredths: the nearest one, ties rounding up. */
  function Hundredths(bytes: nat, unit: nat): (n: nat)
    requires unit > 0
    ensures 2 * n * unit <= 200 * bytes + unit
    ensures 200 * bytes + unit < 2 * n * unit + 2 * unit
  {
    (200 * bytes + unit) / (2 * unit)
  }

  /** A count of hundredths written with two decimals. */
  function Fixed2(n: nat): string {
    NatToString(n / 100) + "." + PadTwo(n % 100)
  }

  /** Reads "X.YY" back into hundredths: digits, a dot, then exactly two digits. */
  function ReadFixed2(t: string): Option<nat> {
    if |t| >= 4 && t[|t| - 3] == '.' && AllDigits(t[..|t| - 3]) && AllDigits(t[|t| - 2..]) then
      Some(100 * DigitsValue(t[..|t| - 3]) + DigitsValue(t[|t| - 2..]))
    else None
  }

  lemma ReadFixed2Fields(t: string, whole: string, frac: string)
    requires |t| >= 4 && t[|t| - 3] == '.' && t[..|t| - 3] == whole && t[|t| - 2..] == frac
    requires AllDigits(whole) && AllDigits(frac)
    ensures ReadFixed2(t) == Some(100 * DigitsValue(whole) + DigitsValue(frac))
  {
  }

  lemma Fixed2ReadsBack(n: nat)
    ensures ReadFixed2(Fixed2(n)) == Some(n)
  {
    var whole, frac := NatToString(n / 100), PadTwo(n % 100);
    assert AllDigits(whole) && DigitsValue(whole) == n / 100 by {
      DigitsValueOfNatToString(n / 100);
    }
    assert AllDigits(frac) && |frac| == 2 && DigitsValue(frac) == n % 100 by {
      PadTwoReadsBack(n % 100);
    }
    assert 100 * DigitsValue(whole) + DigitsValue(frac) == n;
    var t := Fixed2(n);
    assert |t| >= 4 && t[|t| - 3] == '.' by {
      assert t == whole + ['.'] + frac;
    }
    assert t[..|t| - 3] == whole && t[|t| - 2..] == frac by {
      assert t == whole + ['.'] + frac;
    }
    ReadFixed2Fields(t, whole, frac);
  }

  /**
   * `sizeStr`: "Unknown" without a size, else the size in MB from 1 MiB up and
   * in KB below, with two decimals.
   */
  function SizeText(bytes: Option<nat>): (r: string)
    ensures r == "Unknown" <==> !TruthyNat(bytes)
    ensures TruthyNat(bytes) ==> |r| > 3 && r[|r| - 3..] == (if bytes.value >= MiB then " MB" else " KB")
  {
    if !TruthyNat(bytes) then "Unknown"
    else
      var t := if bytes.value >= MiB then Fixed2(Hundredths(bytes.value, MiB)) + " MB"
               else Fixed2(Hundredths(bytes.value, KiB)) + " KB";
      assert t[|t| - 1] == 'B' != "Unknown"[6];
      t
  }

  /**
   * A size text is "Unknown" exactly when no size is known; otherwise it is a
   * number with two decimals, the nearest hundredth (ties up) of the size in
   * MiB from 1 MiB on and in KiB below, followed by " MB" or " KB".
   */
  lemma SizeTextMeaning(bytes: Option<nat>)
    ensures SizeText(bytes) == "Unknown" <==> !TruthyNat(bytes)
    ensures TruthyNat(bytes) ==>
      var b := bytes.value;
      var unit := if b >= MiB then MiB else KiB;
      exists number: string, n: nat ::
        && SizeText(bytes) == number + (if b >= MiB then " MB" else " KB")
        && ReadFixed2(number) == Some(n)
        && 2 * n * unit <= 200 * b + unit < 2 * n * unit + 2 * unit
  {
    if TruthyNat(bytes) {
      var b := bytes.value;
      var unit := if b >= MiB then MiB else KiB;
      var n := Hundredths(b, unit);
      Fixed2ReadsBack(n);
      var number := Fixed2(n);
      assert IsDigit(number[0]);
      assert SizeText(bytes)[0] == number[0];
    }
  }

  /** Sizes of exactly 1 MiB, 2000 bytes and none. */
  lemma SizeTextExamples()
    ensures SizeText(Some(1048576)) == "1.00 MB"
    ensures SizeText(Some(2000)) == "1.95 KB"
    ensures SizeText(None) == "Unknown"
  {
    assert Hundredths(1048576, MiB) == 100;
    assert Hundredths(2000, KiB) == 195;
    assert NatToString(1) == "1";
    assert PadTwo(0) == "00";
    assert NatToString(95) == "95";
  }
}
