/**
 * The keyword classifier in the thumbnail page's submit handler
 * (pages/ThumbnailPage.tsx). An empty link is ignored and the service is not
 * asked. Otherwise the platform sent along is the first one whose keyword
 * occurs somewhere in the link, and YouTube when none does.
 */
module ThumbnailPage {
  import opened Common
  import opened Text
  import opened Catalog
  import Platforms

  /** The platform `handleSubmit` asks the service for, or None when it returns without asking. */
  function ClassifyUrl(url: string): (r: Option<PlatformId>)
    ensures r.None? <==> url == ""
    ensures r == Some(Instagram) <==> Contains(url, "instagram")
  {
    if url == "" then None
    else if Contains(url, "instagram") then Some(Instagram)
    else if Contains(url, "tiktok") then Some(TikTok)
    else if Contains(url, "facebook") then Some(Facebook)
    else if Contains(url, "twitter") || Contains(url, "x.com") then Some(Twitter)
    else if Contains(url, "pinterest") then Some(Pinterest)
    else if Contains(url, "snapchat") then Some(Snapchat)
    else Some(YouTube)
  }

  /** The keywords each platform is recognised by, in the order they are tried. */
  const Keywords: seq<(PlatformId, seq<string>)> := [
    (Instagram, ["instagram"]),
    (TikTok, ["tiktok"]),
    (Facebook, ["facebook"]),
    (Twitter, ["twitter", "x.com"]),
    (Pinterest, ["pinterest"]),
    (Snapchat, ["snapchat"])
  ]

  /** One of `words` occurs in `url`. */
  predicate Mentions(url: string, words: seq<string>) {
    exists w :: w in words && Contains(url, w)
  }

  /** The position of the first entry of `table` that `url` mentions, or `|table|` when there is none. */
  function FirstMention(url: string, table: seq<(PlatformId, seq<string>)>): nat
  {
    if table == [] then 0
    else if Mentions(url, table[0].1) then 0
    else 1 + FirstMention(url, table[1..])
  }

  /** `FirstMention` finds the first mentioned entry and skips only entries that are not mentioned. */
  lemma {:induction false} FirstMentionIsFirst(url: string, table: seq<(PlatformId, seq<string>)>)
    ensures FirstMention(url, table) <= |table|
    ensures FirstMention(url, table) < |table| ==> Mentions(url, table[FirstMention(url, table)].1)
    ensures forall j :: 0 <= j < FirstMention(url, table) && j < |table| ==> !Mentions(url, table[j].1)
    decreases |table|
  {
    if table != [] && !Mentions(url, table[0].1) {
      FirstMentionIsFirst(url, table[1..]);
      forall j | 0 <= j < FirstMention(url, table) && j < |table|
        ensures !Mentions(url, table[j].1)
      {
        if j > 0 {
          assert table[j] == table[1..][j - 1];
        }
      }
    }
  }

  /** First match over a keyword table, falling back to `default`. */
  function FirstMatch(url: string, table: seq<(PlatformId, seq<string>)>, default: PlatformId): PlatformId {
    var i := FirstMention(url, table);
    if i < |table| then table[i].0 else default
  }

  lemma MentionsOne(url: string, w: string)
    ensures Mentions(url, [w]) <==> Contains(url, w)
  {
    assert w in [w];
  }

  lemma MentionsTwo(url: string, v: string, w: string)
    ensures Mentions(url, [v, w]) <==> Contains(url, v) || Contains(url, w)
  {
    assert v in [v, w] && w in [v, w];
  }

  /** The handler's if/else chain is the first match over the keyword table, with YouTube as the default. */
  lemma ClassifyIsFirstMatch(url: string)
    ensures url == "" <==> ClassifyUrl(url) == None
    ensures url != "" ==> ClassifyUrl(url) == Some(FirstMatch(url, Keywords, YouTube))
  {
    FirstMentionIsFirst(url, Keywords);
    MentionsOne(url, "instagram");
    MentionsOne(url, "tiktok");
    MentionsOne(url, "facebook");
    MentionsTwo(url, "twitter", "x.com");
    MentionsOne(url, "pinterest");
    MentionsOne(url, "snapchat");
    var i := FirstMention(url, Keywords);
    assert i < 6 ==> Mentions(url, Keywords[i].1);
    assert 0 < i ==> !Contains(url, "instagram") by { if 0 < i { assert !Mentions(url, Keywords[0].1); } }
    assert 1 < i ==> !Contains(url, "tiktok") by { if 1 < i { assert !Mentions(url, Keywords[1].1); } }
    assert 2 < i ==> !Contains(url, "facebook") by { if 2 < i { assert !Mentions(url, Keywords[2].1); } }
    assert 3 < i ==> !Contains(url, "twitter") && !Contains(url, "x.com") by {
      if 3 < i { assert !Mentions(url, Keywords[3].1); }
    }
    assert 4 < i ==> !Contains(url, "pinterest") by { if 4 < i { assert !Mentions(url, Keywords[4].1); } }
    assert 5 < i ==> !Contains(url, "snapchat") by { if 5 < i { assert !Mentions(url, Keywords[5].1); } }
  }

  /**
   * A link that a platform's validator accepts through a full domain needle is
   * sent as that platform or as one tried before it: the domain carries the
   * platform's keyword. The short-link needles "fb.watch" and "pin.it" carry
   * none, so they are excluded here (see the two lemmas after this one).
   */
  lemma ValidatedLinkClassifiedNoLater(p: PlatformId, n: string, url: string)
    requires Platforms.PatternOf(p).AnyOf? && n in Platforms.PatternOf(p).needles
    requires n != "fb.watch" && n != "pin.it" && Contains(url, n)
    ensures ClassifyUrl(url).Some? && ClassifyUrl(url) != Some(YouTube)
    ensures Platforms.Ordinal(ClassifyUrl(url).value) <= Platforms.Ordinal(p)
  {
    match p
    case Instagram =>
      assert n == "instagram" + ".com";
      ContainsPrefix(url, "instagram", ".com");
    case TikTok =>
      assert n == "tiktok" + ".com";
      ContainsPrefix(url, "tiktok", ".com");
    case Facebook =>
      assert n == "facebook" + ".com";
      ContainsPrefix(url, "facebook", ".com");
    case Twitter =>
      if n == "twitter.com" {
        assert n == "twitter" + ".com";
        ContainsPrefix(url, "twitter", ".com");
      }
    case Pinterest =>
      assert n == "pinterest" + ".com";
      ContainsPrefix(url, "pinterest", ".com");
    case Snapchat =>
      assert n == "snapchat" + ".com";
      ContainsPrefix(url, "snapchat", ".com");
  }

  /** Without the letters i, e, x and n no keyword can occur, so the link is sent as YouTube. */
  lemma LinkWithoutIENXSentAsYouTube(u: string)
    requires u != "" && 'i' !in u && 'e' !in u && 'x' !in u && 'n' !in u
    ensures ClassifyUrl(u) == Some(YouTube)
  {
    NotContainsMissingChar(u, "instagram", 0);
    NotContainsMissingChar(u, "tiktok", 1);
    NotContainsMissingChar(u, "facebook", 3);
    NotContainsMissingChar(u, "twitter", 2);
    NotContainsMissingChar(u, "x.com", 0);
    NotContainsMissingChar(u, "pinterest", 1);
    NotContainsMissingChar(u, "snapchat", 1);
  }

  /** Without the letters s, k, f, w, x and e no keyword can occur, so the link is sent as YouTube. */
  lemma LinkWithoutSKFWXESentAsYouTube(u: string)
    requires u != "" && 's' !in u && 'k' !in u && 'f' !in u && 'w' !in u && 'x' !in u && 'e' !in u
    ensures ClassifyUrl(u) == Some(YouTube)
  {
    NotContainsMissingChar(u, "instagram", 2);
    NotContainsMissingChar(u, "tiktok", 2);
    NotContainsMissingChar(u, "facebook", 0);
    NotContainsMissingChar(u, "twitter", 1);
    NotContainsMissingChar(u, "x.com", 0);
    NotContainsMissingChar(u, "pinterest", 4);
    NotContainsMissingChar(u, "snapchat", 0);
  }

  /** A Facebook short link passes the Facebook validator but is sent as YouTube. */
  lemma FacebookShortLinkSentAsYouTube()
    ensures Platforms.Test(Platforms.PatternOf(Facebook), "fb.watch/a")
    ensures ClassifyUrl("fb.watch/a") == Some(YouTube)
  {
    assert 'i' !in "fb.watch/a" && 'e' !in "fb.watch/a" && 'x' !in "fb.watch/a" && 'n' !in "fb.watch/a";
    LinkWithoutIENXSentAsYouTube("fb.watch/a");
    Platforms.NeedleAccepted(["facebook.com", "fb.watch"], "fb.watch", "", "/a");
    assert "" + "fb.watch" + "/a" == "fb.watch/a";
  }

  /** A Pinterest short link passes the Pinterest validator but is sent as YouTube. */
  lemma PinterestShortLinkSentAsYouTube()
    ensures Platforms.Test(Platforms.PatternOf(Pinterest), "pin.it/a")
    ensures ClassifyUrl("pin.it/a") == Some(YouTube)
  {
    assert 's' !in "pin.it/a" && 'k' !in "pin.it/a" && 'f' !in "pin.it/a";
    assert 'w' !in "pin.it/a" && 'x' !in "pin.it/a" && 'e' !in "pin.it/a";
    LinkWithoutSKFWXESentAsYouTube("pin.it/a");
    Platforms.NeedleAccepted(["pinterest.com", "pin.it"], "pin.it", "", "/a");
    assert "" + "pin.it" + "/a" == "pin.it/a";
  }

  /** A link with "x.com" in it but without the letters i and f is sent as Twitter. */
  lemma XComWithoutIFSentAsTwitter(u: string)
    requires Contains(u, "x.com") && 'i' !in u && 'f' !in u
    ensures ClassifyUrl(u) == Some(Twitter)
  {
    NotContainsMissingChar(u, "instagram", 0);
    NotContainsMissingChar(u, "tiktok", 1);
    NotContainsMissingChar(u, "facebook", 0);
  }

  /** The "x.com" keyword matches inside other host names: box.com is sent as Twitter. */
  lemma BoxComSentAsTwitter()
    ensures ClassifyUrl("box.com") == Some(Twitter)
  {
    assert 'i' !in "box.com" && 'f' !in "box.com";
    assert "bo" + "x.com" + "" == "box.com";
    Platforms.NeedleAccepted(["x.com"], "x.com", "bo", "");
    XComWithoutIFSentAsTwitter("box.com");
  }

  /** Keywords are tried in order: a link naming both Instagram and TikTok is sent as Instagram. */
  lemma EarlierKeywordWins()
    ensures ClassifyUrl("instagram.com/tiktok") == Some(Instagram)
  {
    var u := "instagram.com/tiktok";
    assert u[..9] == "instagram";
    ContainsAt(u, "instagram", 0);
  }
}
