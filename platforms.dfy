/**
 * The platform table of constants.ts: each platform's id, display name and
 * the regular expression the pages use to validate a pasted link, plus the
 * hourly request constant. YouTube's expression is anchored at both ends;
 * every other one is an unanchored search for one of a few literal needles.
 */
module Platforms {
  import opened Text
  import opened Catalog

  /** `MAX_REQUESTS_PER_HOUR`; the client's limiter does not read it and uses its own capacity. */
  const MaxRequestsPerHour: nat := 20

  /** A validator: the anchored YouTube expression, or a search for any of the needles. */
  datatype Pattern = YouTubeLink | AnyOf(needles: seq<string>)

  datatype PlatformConfig = PlatformConfig(id: PlatformId, name: string, pattern: Pattern)

  /** The entry of `PLATFORMS` for one platform: its display name and validator. */
  function Config(p: PlatformId): (c: PlatformConfig)
    ensures c.id == p
  {
    match p
    case YouTube => PlatformConfig(YouTube, "YouTube", YouTubeLink)
    case Instagram => PlatformConfig(Instagram, "Instagram", AnyOf(["instagram.com"]))
    case TikTok => PlatformConfig(TikTok, "TikTok", AnyOf(["tiktok.com"]))
    case Facebook => PlatformConfig(Facebook, "Facebook", AnyOf(["facebook.com", "fb.watch"]))
    case Twitter => PlatformConfig(Twitter, "Twitter/X", AnyOf(["twitter.com", "x.com"]))
    case Pinterest => PlatformConfig(Pinterest, "Pinterest", AnyOf(["pinterest.com", "pin.it"]))
    case Snapchat => PlatformConfig(Snapchat, "Snapchat", AnyOf(["snapchat.com"]))
  }

  /** `PLATFORMS`, in its declared order. */
  const Table: seq<PlatformConfig> :=
    [Config(YouTube), Config(Instagram), Config(TikTok), Config(Facebook),
     Config(Twitter), Config(Pinterest), Config(Snapchat)]

  /** A platform's position in the declaration of `PlatformId` (types.ts). */
  function Ordinal(p: PlatformId): nat {
    match p
    case YouTube => 0
    case Instagram => 1
    case TikTok => 2
    case Facebook => 3
    case Twitter => 4
    case Pinterest => 5
    case Snapchat => 6
  }

  /** The table lists the platforms in the order the type declares them, so no id twice. */
  lemma TableOrder()
    ensures |Table| == 7
    ensures forall i :: 0 <= i < |Table| ==> Ordinal(Table[i].id) == i
    ensures forall i, j :: 0 <= i < j < |Table| ==> Table[i].id != Table[j].id
  {
    assert Table[0].id == YouTube && Table[1].id == Instagram && Table[2].id == TikTok;
    assert Table[3].id == Facebook && Table[4].id == Twitter && Table[5].id == Pinterest;
    assert Table[6].id == Snapchat;
  }

  /** Every platform has its entry in the table. */
  lemma TableListsEveryPlatform(p: PlatformId)
    ensures p in Ids(Table)
  {
    var ids := Ids(Table);
    TableOrder();
    assert Ordinal(ids[Ordinal(p)]) == Ordinal(p);
    assert ids[Ordinal(p)] == p;
  }

  /** The ids of a table, in order. */
  function Ids(t: seq<PlatformConfig>): (ids: seq<PlatformId>)
    ensures |ids| == |t|
    ensures forall i :: 0 <= i < |t| ==> ids[i] == t[i].id
  {
    if t == [] then [] else [t[0].id] + Ids(t[1..])
  }

  /** The validator a platform's entry carries. */
  function PatternOf(p: PlatformId): Pattern {
    Config(p).pattern
  }

  /** Each platform's entry in the table is the one `Config` describes. */
  lemma TableEntries(p: PlatformId)
    ensures Table[Ordinal(p)] == Config(p)
  {
    TableOrder();
  }

  /** `regex.test(url)`. */
  predicate Test(pattern: Pattern, url: string)
    ensures pattern.YouTubeLink? ==> (Test(pattern, url) <==> InYouTubeLanguage(url))
  {
    match pattern
    case YouTubeLink => MatchesYouTubeIffLanguage(url); MatchesYouTube(url)
    case AnyOf(needles) => exists n :: n in needles && Contains(url, n)
  }

  /** A substring validator accepts a link exactly when one of its needles occurs in it, wherever that is. */
  lemma NeedleAnywhere(needles: seq<string>, url: string)
    ensures Test(AnyOf(needles), url) <==>
      exists n, i :: n in needles && OccursAt(url, n, i)
  {
    forall n | n in needles {
      ContainsIffOccurs(url, n);
    }
  }

  /** Surrounding text does not stop a substring validator: any link with a needle inside is accepted. */
  lemma NeedleAccepted(needles: seq<string>, n: string, before: string, after: string)
    requires n in needles
    ensures Test(AnyOf(needles), before + n + after)
  {
    var url := before + n + after;
    assert url[|before|..|before| + |n|] == n;
    ContainsAt(url, n, |before|);
  }

  // The YouTube expression: an optional scheme, an optional "www.", one of three
  // host spellings (`youtube\.com|youtu\.?be`), then '/' and at least one more
  // character other than a line terminator, up to the end of the text.

  const Schemes: seq<string> := ["", "http://", "https://"]
  const Prefixes: seq<string> := ["", "www."]
  const Hosts: seq<string> := ["youtube.com", "youtube", "youtu.be"]

  /** The characters `.` does not match. */
  predicate IsLineTerminator(c: char) {
    c == '\n' || c == '\r' || c == '\U{2028}' || c == '\U{2029}'
  }

  predicate NoLineTerminator(s: string) {
    forall i :: 0 <= i < |s| ==> !IsLineTerminator(s[i])
  }

  /** A link built from one choice of each part. */
  function Assemble(i: nat, j: nat, k: nat, rest: string): string
    requires i < |Schemes| && j < |Prefixes| && k < |Hosts|
  {
    Schemes[i] + (Prefixes[j] + (Hosts[k] + ("/" + rest)))
  }

  /** The language of the YouTube expression, part by part. */
  ghost predicate InYouTubeLanguage(s: string) {
    exists i: nat, j: nat, k: nat, rest: string ::
      i < |Schemes| && j < |Prefixes| && k < |Hosts| && rest != [] && NoLineTerminator(rest) &&
      s == Assemble(i, j, k, rest)
  }

  function SchemeLength(s: string): (n: nat)
    ensures n <= |s|
  {
    if StartsWith(s, "https://") then 8 else if StartsWith(s, "http://") then 7 else 0
  }

  function WwwLength(s: string): (n: nat)
    ensures n <= |s|
  {
    if StartsWith(s, "www.") then 4 else 0
  }

  /** The length of the host spelling `s` starts with, or 0 when it starts with none. */
  function HostLength(s: string): (n: nat)
    ensures n <= |s|
  {
    if StartsWith(s, "youtube.com") then 11
    else if StartsWith(s, "youtube") then 7
    else if StartsWith(s, "youtu.be") then 8
    else 0
  }

  /** The expression's matcher, one part after the other: each part has at most one way to match. */
  predicate MatchesYouTube(s: string)
    ensures MatchesYouTube(s) ==> |s| >= 9 && !IsLineTerminator(s[|s| - 1])
  {
    var r1 := s[SchemeLength(s)..];
    var r2 := r1[WwwLength(r1)..];
    var h := HostLength(r2);
    h > 0 && h + 2 <= |r2| && r2[h] == '/' && NoLineTerminator(r2[h + 1..])
  }

  lemma SchemeLengthOf(i: nat, t: string)
    requires i < |Schemes| && t != [] && t[0] != 'h'
    ensures SchemeLength(Schemes[i] + t) == |Schemes[i]|
  {
    var s := Schemes[i] + t;
    if i == 0 {
      assert s == t;
      assert !StartsWith(s, "https://") by { if |s| >= 8 { assert s[..8][0] == s[0]; } }
      assert !StartsWith(s, "http://") by { if |s| >= 7 { assert s[..7][0] == s[0]; } }
    } else if i == 1 {
      assert !StartsWith(s, "https://") by { if |s| >= 8 { assert s[..8][4] == s[4] == ':'; } }
      StartsWithConcat("http://", t);
    } else {
      StartsWithConcat("https://", t);
    }
  }

  lemma WwwLengthOf(j: nat, t: string)
    requires j < |Prefixes| && t != [] && t[0] != 'w'
    ensures WwwLength(Prefixes[j] + t) == |Prefixes[j]|
  {
    var s := Prefixes[j] + t;
    if j == 0 {
      assert s == t;
      assert !StartsWith(s, "www.") by { if |s| >= 4 { assert s[..4][0] == s[0]; } }
    } else {
      StartsWithConcat("www.", t);
    }
  }

  /** Past an optional scheme and "www.", the matcher looks for the host in what follows them. */
  lemma HostPart(i: nat, j: nat, t: string)
    requires i < |Schemes| && j < |Prefixes| && t != [] && t[0] != 'h' && t[0] != 'w'
    ensures var s := Schemes[i] + (Prefixes[j] + t);
      var r1 := s[SchemeLength(s)..];
      r1[WwwLength(r1)..] == t
  {
    var t1 := Prefixes[j] + t;
    assert t1[0] != 'h' by { if j == 1 { assert t1[0] == 'w'; } }
    SchemeLengthOf(i, t1);
    StartsWithConcat(Schemes[i], t1);
    WwwLengthOf(j, t);
    StartsWithConcat(Prefixes[j], t);
  }

  lemma HostLengthOf(k: nat, rest: string)
    requires k < |Hosts|
    ensures HostLength(Hosts[k] + ("/" + rest)) == |Hosts[k]|
  {
    var s := Hosts[k] + ("/" + rest);
    if k == 0 {
      StartsWithConcat("youtube.com", "/" + rest);
    } else if k == 1 {
      StartsWithConcat("youtube", "/" + rest);
      assert !StartsWith(s, "youtube.com") by { if |s| >= 11 { assert s[..11][7] == s[7] == '/'; } }
    } else {
      StartsWithConcat("youtu.be", "/" + rest);
      assert !StartsWith(s, "youtube.com") by { if |s| >= 11 { assert s[..11][5] == s[5] == '.'; } }
      assert !StartsWith(s, "youtube") by { assert s[..7][5] == s[5] == '.'; }
    }
  }

  /** A text that does not start with 'y' starts with no host spelling. */
  lemma NoHost(t: string)
    requires t != [] && t[0] != 'y'
    ensures HostLength(t) == 0
  {
    if |t| >= 7 {
      assert t[..7][0] == t[0];
    }
    if |t| >= 8 {
      assert t[..8][0] == t[0];
    }
    if |t| >= 11 {
      assert t[..11][0] == t[0];
    }
  }

  /** Every link the parts can build is matched. */
  lemma AssembledMatches(i: nat, j: nat, k: nat, rest: string)
    requires i < |Schemes| && j < |Prefixes| && k < |Hosts| && rest != [] && NoLineTerminator(rest)
    ensures MatchesYouTube(Assemble(i, j, k, rest))
  {
    var t := Hosts[k] + ("/" + rest);
    var h := |Hosts[k]|;
    assert t[0] == 'y' by { assert t[0] == Hosts[k][0]; }
    assert t[h] == '/' && t[h + 1..] == rest by { assert t[h..] == "/" + rest; }
    HostPart(i, j, t);
    HostLengthOf(k, rest);
  }

  /** The scheme the matcher skips is one of the optional schemes. */
  lemma SchemeRead(s: string) returns (i: nat)
    ensures i < |Schemes| && s[..SchemeLength(s)] == Schemes[i]
  {
    i := if StartsWith(s, "https://") then 2 else if StartsWith(s, "http://") then 1 else 0;
  }

  lemma WwwRead(s: string) returns (j: nat)
    ensures j < |Prefixes| && s[..WwwLength(s)] == Prefixes[j]
  {
    j := if StartsWith(s, "www.") then 1 else 0;
  }

  lemma HostRead(s: string) returns (k: nat)
    requires HostLength(s) > 0
    ensures k < |Hosts| && s[..HostLength(s)] == Hosts[k]
  {
    k := if StartsWith(s, "youtube.com") then 0 else if StartsWith(s, "youtube") then 1 else 2;
  }

  lemma HostThenRest(r: string, h: nat, host: string)
    requires h < |r| && r[..h] == host && r[h] == '/'
    ensures r == host + ("/" + r[h + 1..])
  {
    assert r[h..] == [r[h]] + r[h + 1..];
    assert r == r[..h] + r[h..];
  }

  lemma Rejoin(s: string, n: nat, p: string)
    requires n <= |s| && s[..n] == p
    ensures s == p + s[n..]
  {
    assert s == s[..n] + s[n..];
  }

  /** Every matched link is built from the parts. */
  lemma MatchedIsAssembled(s: string) returns (i: nat, j: nat, k: nat, rest: string)
    requires MatchesYouTube(s)
    ensures i < |Schemes| && j < |Prefixes| && k < |Hosts| && rest != [] && NoLineTerminator(rest)
    ensures s == Assemble(i, j, k, rest)
  {
    var a := SchemeLength(s);
    var r1 := s[a..];
    var b := WwwLength(r1);
    var r2 := r1[b..];
    var h := HostLength(r2);
    i := SchemeRead(s);
    j := WwwRead(r1);
    k := HostRead(r2);
    rest := r2[h + 1..];
    HostThenRest(r2, h, Hosts[k]);
    Rejoin(r1, b, Prefixes[j]);
    Rejoin(s, a, Schemes[i]);
  }

  /** The matcher accepts exactly the expression's language. */
  lemma MatchesYouTubeIffLanguage(s: string)
    ensures MatchesYouTube(s) <==> InYouTubeLanguage(s)
  {
    if MatchesYouTube(s) {
      var i, j, k, rest := MatchedIsAssembled(s);
      assert s == Assemble(i, j, k, rest);
    }
    forall i: nat, j: nat, k: nat, rest: string |
      i < |Schemes| && j < |Prefixes| && k < |Hosts| && rest != [] && NoLineTerminator(rest) &&
      s == Assemble(i, j, k, rest)
      ensures MatchesYouTube(s)
    {
      AssembledMatches(i, j, k, rest);
    }
  }

  /** The expression is anchored at the start: a mobile host is rejected. */
  lemma MobileHostRejected()
    ensures !Test(PatternOf(YouTube), "https://m.youtube.com/a")
  {
    var t := "m.youtube.com/a";
    assert "https://m.youtube.com/a" == Schemes[2] + (Prefixes[0] + t);
    HostPart(2, 0, t);
    NoHost(t);
  }

  /** At least one character must follow the host's '/'. */
  lemma BareHostRejected()
    ensures !Test(PatternOf(YouTube), "youtube.com/")
  {
    var t := "youtube.com/";
    assert t == Schemes[0] + (Prefixes[0] + t);
    HostPart(0, 0, t);
    HostLengthOf(0, "");
    assert t == Hosts[0] + ("/" + "");
  }

  /** The expression is anchored at the end and `.` stops at a line break. */
  lemma TrailingLineBreakRejected()
    ensures !Test(PatternOf(YouTube), "youtu.be/a\n")
  {
    var t := "youtu.be/a\n";
    assert t == Schemes[0] + (Prefixes[0] + t);
    HostPart(0, 0, t);
    assert t == Hosts[2] + ("/" + "a\n");
    HostLengthOf(2, "a\n");
    assert t[9..] == "a\n";
    assert IsLineTerminator(t[9..][1]);
  }

  /** The short host is accepted with its dot. */
  lemma ShortHostAccepted()
    ensures Test(PatternOf(YouTube), "youtu.be/a")
  {
    var t := "youtu.be/a";
    assert t == Schemes[0] + (Prefixes[0] + t);
    HostPart(0, 0, t);
    assert t == Hosts[2] + ("/" + "a");
    HostLengthOf(2, "a");
  }

  /** The host without its dot or top-level domain is accepted too. */
  lemma DotlessHostAccepted()
    ensures Test(PatternOf(YouTube), "youtube/a")
  {
    var t := "youtube/a";
    assert t == Schemes[0] + (Prefixes[0] + t);
    HostPart(0, 0, t);
    assert t == Hosts[1] + ("/" + "a");
    HostLengthOf(1, "a");
  }
}
