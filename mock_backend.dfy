/**
 * The client's resolution service (frontend/src/services/mockBackend.ts).
 * `fetchVideoMetadata` checks the request limiter first, then answers
 * direct links to media files itself, then asks the local server, and only
 * when that yields nothing does it try the public Cobalt instances one after
 * the other. Network-class failures of the last strategy get a friendlier
 * message.
 *
 * What the network does is an input: one outcome for the local server and
 * one reply per Cobalt instance, in the order the instances are tried. The
 * clock is the `now` parameter.
 */
module MockBackend {
  import opened Common
  import opened Text
  import opened Catalog
  import opened RateLimit

  const RateLimitMessage: string := "Rate limit exceeded. Please wait a moment."
  const BusyMessage: string := "All download services are currently busy."
  const NoLinksMessage: string := "No links found"
  const ApiErrorMessage: string := "API Error"
  /** What reading `status` from a `null` reply throws (as V8 words it). */
  const NullReplyMessage: string := "Cannot read properties of null (reading 'status')"

  // ---------------------------------------------------------------------
  // Strategy 1: the local server

  /** How the request to the local server's `/api/download` ended. */
  datatype LocalOutcome =
    | LocalOk(data: VideoMetadata)   // an ok response carrying a catalogue
    | LocalNullBody                   // an ok response whose body is `null`
    | LocalNotOk(status: nat)         // a response that is not ok
    | LocalThrew(message: string)     // the request, the timeout or the body parse failed

  /** `tryLocalBackend`: the catalogue of an ok response, unchanged, and nothing otherwise. */
  function TryLocalBackend(outcome: LocalOutcome): (r: Option<VideoMetadata>)
    ensures r.Some? <==> outcome.LocalOk?
    ensures r.Some? ==> r.value == outcome.data
  {
    match outcome
    case LocalOk(data) => Some(data)
    case _ => None
  }

  // ---------------------------------------------------------------------
  // Strategy 2: the Cobalt instances

  /** `COBALT_INSTANCES`, in the order they are tried. */
  const CobaltInstances: seq<string> := [
    "https://api.cobalt.tools/api/json",
    "https://cobalt-api.kwiatekmiki.pl/api/json",
    "https://api.cobalt.tools/api/json"
  ]

  /** One entry of a `picker` reply; `kind` is its `type`. */
  datatype PickerItem = PickerItem(kind: Option<string>, url: string)

  /**
   * A parsed reply body. `Falsy` stands for `false`, `0` and `""`; any other
   * value that is not an object (a number, a string, `true`, an array) reads
   * like an object without the fields below, that is `Reply` with all of
   * them absent.
   */
  datatype Body =
    | Null
    | Falsy
    | Reply(status: Option<string>, text: Option<string>, filename: Option<string>,
            url: Option<string>, picker: Option<seq<PickerItem>>)

  /** How one instance answered. */
  datatype Attempt =
    | Threw(message: string)                           // fetch or its timeout failed
    | Responded(ok: bool, code: nat, body: Result<Body>) // `body` is Err when `json()` fails

  /** The entry a picker item becomes. */
  function PickerEntry(item: PickerItem): VideoQuality {
    VideoQuality(if Truthy(item.kind) then ToUpper(item.kind.value) else "VIDEO", None, "HD", "mp4", None, item.url)
  }

  /** One entry per picker item, in order. */
  function PickerEntries(items: seq<PickerItem>): (qs: seq<VideoQuality>)
    ensures |qs| == |items|
  {
    seq(|items|, i requires 0 <= i < |items| => PickerEntry(items[i]))
  }

  const DefaultThumbnail: string := "https://images.unsplash.com/photo-1626544827763-d516dce335ca?w=640&q=80"

  /** The per-platform stock thumbnails of `getThumbnail`. */
  const Thumbnails: map<string, string> := map[
    "youtube" := "https://images.unsplash.com/photo-1611162617474-5b21e879e113?w=640&q=80",
    "instagram" := "https://images.unsplash.com/photo-1611162617213-7d7a39e9b1d7?w=640&q=80",
    "tiktok" := "https://images.unsplash.com/photo-1611605698335-8b1569810432?w=640&q=80",
    "facebook" := "https://images.unsplash.com/photo-1611162616305-c69b3fa7fbe0?w=640&q=80",
    "twitter" := "https://images.unsplash.com/photo-1611605698323-b1e99cfd37ea?w=640&q=80",
    "pinterest" := "https://images.unsplash.com/photo-1611162616475-46b635cb6868?w=640&q=80",
    "snapchat" := "https://images.unsplash.com/photo-1595088265008-8e6d27d53066?w=640&q=80"
  ]

  /** `map[platform] || default`. */
  function ThumbnailFor(platform: string): string {
    if platform in Thumbnails && Thumbnails[platform] != "" then Thumbnails[platform] else DefaultThumbnail
  }

  /** The catalogue a successful reply becomes. */
  function CobaltMetadata(platform: PlatformId, now: nat, title: string, qualities: seq<VideoQuality>): VideoMetadata {
    VideoMetadata("cb-" + NatToString(now), title, ThumbnailFor(PlatformName(platform)), "00:00",
                  "Social Media User", PlatformName(platform), qualities, [], [])
  }

  /** The links a reply carries: the picker's when it is a picker reply, else its single url if any. */
  function ReplyLinks(status: Option<string>, url: Option<string>, picker: Option<seq<PickerItem>>): seq<VideoQuality> {
    if status == Some("picker") && picker.Some? then PickerEntries(picker.value)
    else if Truthy(url) then [VideoQuality("High Quality", None, "HD", "mp4", None, url.value)]
    else []
  }

  /** What one pass of the instance loop's body yields: the catalogue, or the error it catches. */
  function InstanceResult(platform: PlatformId, now: nat, attempt: Attempt): (r: Result<VideoMetadata>)
    ensures attempt.Threw? ==> r == Err(attempt.message)
    ensures r.Ok? ==> |r.value.qualities| >= 1 && r.value.audio == [] && r.value.video == []
  {
    match attempt
    case Threw(message) => Err(message)
    case Responded(ok, code, body) =>
      if !ok then Err("HTTP " + NatToString(code))
      else
        match body
        case Err(message) => Err(message)
        case Ok(Null) => Err(NullReplyMessage)
        case Ok(Falsy) => Err(ApiErrorMessage)
        case Ok(Reply(status, text, filename, url, picker)) =>
          if status == Some("error") then Err(OrElse(text, ApiErrorMessage))
          else
            var links := ReplyLinks(status, url, picker);
            if links == [] then Err(NoLinksMessage)
            else Ok(CobaltMetadata(platform, now, OrElse(filename, PlatformName(platform) + " Video"), links))
  }

  /** The body of the instance loop: transform one reply, pushing its links one by one. */
  method TryInstance(platform: PlatformId, now: nat, attempt: Attempt) returns (r: Result<VideoMetadata>)
    ensures r == InstanceResult(platform, now, attempt)
  {
    if attempt.Threw? {
      return Err(attempt.message);
    }
    if !attempt.ok {
      return Err("HTTP " + NatToString(attempt.code));
    }
    if attempt.body.Err? {
      return Err(attempt.body.message);
    }
    var data := attempt.body.value;
    if data.Null? {
      return Err(NullReplyMessage);
    }
    if data.Falsy? {
      return Err(ApiErrorMessage);
    }
    if data.status == Some("error") {
      return Err(OrElse(data.text, ApiErrorMessage));
    }
    var qualities: seq<VideoQuality> := [];
    var title := OrElse(data.filename, PlatformName(platform) + " Video");
    if data.status == Some("picker") && data.picker.Some? {
      var items := data.picker.value;
      for i := 0 to |items|
        invariant |qualities| == i
        invariant forall k :: 0 <= k < i ==> qualities[k] == PickerEntry(items[k])
      {
        qualities := qualities + [PickerEntry(items[i])];
      }
      assert qualities == PickerEntries(items);
    } else if Truthy(data.url) {
      qualities := qualities + [VideoQuality("High Quality", None, "HD", "mp4", None, data.url.value)];
    }
    assert qualities == ReplyLinks(data.status, data.url, data.picker);
    if |qualities| == 0 {
      return Err(NoLinksMessage);
    }
    return Ok(CobaltMetadata(platform, now, title, qualities));
  }

  /**
   * The instance loop over the replies still to come: the first success is
   * the answer; otherwise the last error caught, or the busy message when
   * no instance was tried at all.
   */
  function Attempts(platform: PlatformId, now: nat, replies: seq<Attempt>, lastError: Option<string>): (r: Result<VideoMetadata>)
    ensures replies == [] ==> r == Err(lastError.GetOr(BusyMessage))
    ensures r.Ok? ==> |r.value.qualities| >= 1 && r.value.audio == [] && r.value.video == []
    decreases |replies|
  {
    if replies == [] then Err(lastError.GetOr(BusyMessage))
    else
      match InstanceResult(platform, now, replies[0])
      case Ok(m) => Ok(m)
      case Err(e) => Attempts(platform, now, replies[1..], Some(e))
  }

  /** `tryCobaltDownload`: one reply per instance, tried in order. */
  method TryCobaltDownload(platform: PlatformId, now: nat, replies: seq<Attempt>) returns (r: Result<VideoMetadata>)
    requires |replies| == |CobaltInstances|
    ensures r == Attempts(platform, now, replies, None)
  {
    var lastError: Option<string> := None;
    for i := 0 to |CobaltInstances|
      invariant Attempts(platform, now, replies, None) == Attempts(platform, now, replies[i..], lastError)
    {
      var result := TryInstance(platform, now, replies[i]);
      assert replies[i..][1..] == replies[i + 1..];
      if result.Ok? {
        return result;
      }
      lastError := Some(result.message);
    }
    return Err(if lastError.Some? then lastError.value else BusyMessage);
  }

  // ---------------------------------------------------------------------
  // Direct links to media files

  const MediaExtensions: seq<string> := ["mp4", "mp3", "webm", "mov"]

  /** `.ext` at position `i`, in any letter case, followed by the end or by '?'. */
  predicate ExtensionAt(url: string, i: nat, ext: string) {
    i + 1 + |ext| <= |url| && url[i] == '.' && ToLower(url[i + 1..i + 1 + |ext|]) == ext &&
    (i + 1 + |ext| == |url| || url[i + 1 + |ext|] == '?')
  }

  /** Some extension of `exts` matches at position `i`, trying them in order. */
  function ExtensionMatchAt(url: string, i: nat, exts: seq<string>): bool
    decreases |exts|
  {
    exts != [] && (ExtensionAt(url, i, exts[0]) || ExtensionMatchAt(url, i, exts[1..]))
  }

  /** The search of the regular expression from position `i` on. */
  function SearchFrom(url: string, exts: seq<string>, i: nat): bool
    decreases |url| - i
  {
    i < |url| && (ExtensionMatchAt(url, i, exts) || SearchFrom(url, exts, i + 1))
  }

  /** `url.match(/\.(e1|e2|…)($|\?)/i)` for the extensions `exts`. */
  predicate MatchesExtension(url: string, exts: seq<string>)
    ensures MatchesExtension(url, exts) ==> exts != [] && '.' in url
  {
    SearchFromIff(url, exts, 0);
    SearchFrom(url, exts, 0)
  }

  lemma {:induction false} ExtensionMatchAtIff(url: string, i: nat, exts: seq<string>)
    ensures ExtensionMatchAt(url, i, exts) <==> exists e :: e in exts && ExtensionAt(url, i, e)
    decreases |exts|
  {
    if exts != [] {
      ExtensionMatchAtIff(url, i, exts[1..]);
      assert forall e :: e in exts <==> e == exts[0] || e in exts[1..];
    }
  }

  lemma {:induction false} SearchFromIff(url: string, exts: seq<string>, i: nat)
    ensures SearchFrom(url, exts, i) <==> exists j: nat, e :: i <= j && e in exts && ExtensionAt(url, j, e)
    decreases |url| - i
  {
    if i < |url| {
      ExtensionMatchAtIff(url, i, exts);
      SearchFromIff(url, exts, i + 1);
      forall j: nat, e | i <= j && e in exts && ExtensionAt(url, j, e)
        ensures SearchFrom(url, exts, i)
      {
        if j > i {
          assert i + 1 <= j;
        }
      }
    }
  }

  /** The search finds a match exactly when some extension occurs, as the expression describes it, somewhere. */
  lemma MatchesExtensionIff(url: string, exts: seq<string>)
    ensures MatchesExtension(url, exts) <==> exists j: nat, e :: e in exts && ExtensionAt(url, j, e)
  {
    SearchFromIff(url, exts, 0);
  }

  /** The file name a direct link is titled with: the last '/' segment cut at its first '?'. */
  function DirectTitle(url: string): (r: string)
    ensures r != "" && '/' !in r && '?' !in r
  {
    var parts := Split(url, '/');
    SplitPiecesFree(url, '/');
    SplitPiecesFree(parts[|parts| - 1], '?');
    var name := Split(parts[|parts| - 1], '?')[0];
    if name != "" then name else "Direct File"
  }

  /** The catalogue built for a direct link: the link itself as the only entry. */
  function DirectFileMetadata(url: string, platform: PlatformId, now: nat): (m: VideoMetadata)
    ensures |m.qualities| == 1 && m.qualities[0].url == url && m.audio == [] && m.video == []
    ensures m.qualities[0].format == "mp3" <==> MatchesExtension(url, ["mp3"])
  {
    VideoMetadata("file-" + NatToString(now), DirectTitle(url), "https://placehold.co/640x360?text=Direct+File",
                  "00:00", "Direct Link", PlatformName(platform),
                  [VideoQuality("Original", None, "Unknown", if MatchesExtension(url, ["mp3"]) then "mp3" else "mp4", None, url)],
                  [], [])
  }

  // ---------------------------------------------------------------------
  // The error rewrite and the service

  const LocalUnreachable: string :=
    "Could not reach download server. Please ensure you have started the application with 'npm run dev'."
  const RemoteUnreachable: string :=
    "The download server is currently unreachable. If you are the owner, please ensure your backend service is running and properly configured."

  /** The message thrown when the last strategy fails, given the page's host name. */
  function RewriteError(message: string, hostname: string): (r: string)
    ensures r == message || r == LocalUnreachable || r == RemoteUnreachable
    ensures r != message ==> Contains(message, "Failed to fetch") || Contains(message, "NetworkError")
  {
    if Contains(message, "Failed to fetch") || Contains(message, "NetworkError") then
      if hostname == "localhost" || hostname == "127.0.0.1" then LocalUnreachable else RemoteUnreachable
    else message
  }

  /** What `fetchVideoMetadata` answers once the limiter has decided `allowed`. */
  function Resolve(allowed: bool, url: string, platform: PlatformId, now: nat, local: LocalOutcome,
                   replies: seq<Attempt>, hostname: string): (r: Result<VideoMetadata>)
    ensures r.Ok? ==> allowed
    ensures allowed && MatchesExtension(url, MediaExtensions) ==> r.Ok?
  {
    if !allowed then Err(RateLimitMessage)
    else if MatchesExtension(url, MediaExtensions) then Ok(DirectFileMetadata(url, platform, now))
    else if TryLocalBackend(local).Some? then Ok(TryLocalBackend(local).value)
    else
      match Attempts(platform, now, replies, None)
      case Ok(m) => Ok(m)
      case Err(e) => Err(RewriteError(e, hostname))
  }

  /** `fetchVideoMetadata`: the limiter's step on the store, then the strategies in order. */
  method FetchVideoMetadata(store: RateLimitStore, url: string, platform: PlatformId, now: nat,
                            local: LocalOutcome, replies: seq<Attempt>, hostname: string)
    returns (r: Result<VideoMetadata>)
    requires store.Valid() && |replies| == |CobaltInstances|
    modifies store
    ensures store.Valid()
    ensures var d := Step(old(store.Count()), old(store.Start()), now, ClientCapacity);
      store.Count() == d.count && store.Start() == d.start &&
      r == Resolve(d.allowed, url, platform, now, local, replies, hostname)
  {
    var allowed := store.CheckRateLimit(now, ClientCapacity);
    if !allowed {
      return Err(RateLimitMessage);
    }
    if MatchesExtension(url, MediaExtensions) {
      return Ok(DirectFileMetadata(url, platform, now));
    }
    var localResult := TryLocalBackend(local);
    if localResult.Some? {
      return Ok(localResult.value);
    }
    var cobalt := TryCobaltDownload(platform, now, replies);
    if cobalt.Err? {
      return Err(RewriteError(cobalt.message, hostname));
    }
    return cobalt;
  }

  // ---------------------------------------------------------------------
  // Properties of the local strategy and of one Cobalt reply

  /** Every platform has its own stock thumbnail; the default is never used for a platform id. */
  lemma ThumbnailsCoverPlatforms(p: PlatformId)
    ensures PlatformName(p) in Thumbnails
    ensures ThumbnailFor(PlatformName(p)) == Thumbnails[PlatformName(p)] != DefaultThumbnail
  {
    match p
    case YouTube => assert "youtube" in Thumbnails;
    case Instagram => assert "instagram" in Thumbnails;
    case TikTok => assert "tiktok" in Thumbnails;
    case Facebook => assert "facebook" in Thumbnails;
    case Twitter => assert "twitter" in Thumbnails;
    case Pinterest => assert "pinterest" in Thumbnails;
    case Snapchat => assert "snapchat" in Thumbnails;
  }

  /**
   * A successful reply becomes a catalogue with at least one link, every one
   * of size "HD" and format "mp4"; audio and video stay empty, the duration
   * is "00:00", and the thumbnail is the platform's own.
   */
  lemma InstanceSuccessShape(platform: PlatformId, now: nat, attempt: Attempt)
    requires InstanceResult(platform, now, attempt).Ok?
    ensures var m := InstanceResult(platform, now, attempt).value;
      && |m.qualities| >= 1 && m.audio == [] && m.video == []
      && m.id == "cb-" + NatToString(now) && m.duration == "00:00" && m.author == "Social Media User"
      && m.platform == PlatformName(platform)
      && m.thumbnail == Thumbnails[PlatformName(platform)]
      && (forall q :: q in m.qualities ==> q.size == "HD" && q.format == "mp4" && q.subLabel == None)
  {
    ThumbnailsCoverPlatforms(platform);
  }

  /**
   * A picker reply with items yields one link per item, in order: the item's
   * type in upper case (or "VIDEO" without one) and the item's url. A single
   * `url` next to the picker is ignored.
   */
  lemma PickerReplyEntries(platform: PlatformId, now: nat, code: nat, text: Option<string>,
                           filename: Option<string>, url: Option<string>, items: seq<PickerItem>)
    requires items != []
    ensures var r := InstanceResult(platform, now, Responded(true, code, Ok(Reply(Some("picker"), text, filename, url, Some(items)))));
      && r.Ok?
      && |r.value.qualities| == |items|
      && (forall k :: 0 <= k < |items| ==>
            && r.value.qualities[k].caption == (if Truthy(items[k].kind) then ToUpper(items[k].kind.value) else "VIDEO")
            && r.value.qualities[k].url == items[k].url)
      && r.value.title == OrElse(filename, PlatformName(platform) + " Video")
  {
    var links := ReplyLinks(Some("picker"), url, Some(items));
    assert links == PickerEntries(items);
    assert links != [] by { assert |links| == |items|; }
  }

  /** An empty picker is still a picker: the reply has no links, even when it carries a `url`. */
  lemma EmptyPickerHasNoLinks(platform: PlatformId, now: nat, code: nat, text: Option<string>,
                              filename: Option<string>, url: Option<string>)
    ensures InstanceResult(platform, now, Responded(true, code, Ok(Reply(Some("picker"), text, filename, url, Some([]))))) ==
      Err(NoLinksMessage)
  {
    assert PickerEntries([]) == [];
  }

  /**
   * A reply that is not a picker reply yields the single "High Quality" link
   * exactly when it carries a non-empty `url`, and no link otherwise.
   */
  lemma SingleUrlReply(platform: PlatformId, now: nat, code: nat, status: Option<string>, text: Option<string>,
                       filename: Option<string>, url: Option<string>, picker: Option<seq<PickerItem>>)
    requires status != Some("error") && !(status == Some("picker") && picker.Some?)
    ensures var r := InstanceResult(platform, now, Responded(true, code, Ok(Reply(status, text, filename, url, picker))));
      && (r.Ok? <==> Truthy(url))
      && (r.Ok? ==> r.value.qualities == [VideoQuality("High Quality", None, "HD", "mp4", None, url.value)])
      && (r.Err? ==> r.message == NoLinksMessage)
  {
  }

  /** The error an instance's failure is recorded with, by the shape of the failure. */
  lemma InstanceErrors(platform: PlatformId, now: nat, code: nat, body: Result<Body>, text: Option<string>,
                       filename: Option<string>, url: Option<string>, picker: Option<seq<PickerItem>>)
    ensures InstanceResult(platform, now, Responded(false, code, body)) == Err("HTTP " + NatToString(code))
    ensures InstanceResult(platform, now, Responded(true, code, Ok(Reply(Some("error"), text, filename, url, picker)))) ==
      Err(OrElse(text, ApiErrorMessage))
    ensures InstanceResult(platform, now, Responded(true, code, Ok(Null))) == Err(NullReplyMessage)
    ensures InstanceResult(platform, now, Responded(true, code, Ok(Falsy))) == Err(ApiErrorMessage)
  {
  }

  // ---------------------------------------------------------------------
  // Properties of the instance loop

  /** The first and the third instance are the same service, so it is asked twice. */
  lemma FirstInstanceRetriedLast()
    ensures |CobaltInstances| == 3 && CobaltInstances[0] == CobaltInstances[2] != CobaltInstances[1]
  {
  }

  /**
   * The first reply that succeeds is the answer: every reply before it
   * failed, and the replies after it play no part.
   */
  lemma {:induction false} FirstSuccessWins(platform: PlatformId, now: nat, replies: seq<Attempt>,
                                            lastError: Option<string>, k: nat)
    requires k < |replies| && InstanceResult(platform, now, replies[k]).Ok?
    requires forall j :: 0 <= j < k ==> InstanceResult(platform, now, replies[j]).Err?
    ensures Attempts(platform, now, replies, lastError) == InstanceResult(platform, now, replies[k])
    decreases k
  {
    if k > 0 {
      var e := InstanceResult(platform, now, replies[0]).message;
      forall j | 0 <= j < k - 1 ensures InstanceResult(platform, now, replies[1..][j]).Err? {
        assert replies[1..][j] == replies[j + 1];
      }
      FirstSuccessWins(platform, now, replies[1..], Some(e), k - 1);
    }
  }

  /** Two runs whose replies agree up to the first success give the same answer. */
  lemma LaterRepliesIgnored(platform: PlatformId, now: nat, replies: seq<Attempt>, others: seq<Attempt>, k: nat)
    requires k < |replies| && k < |others| && replies[..k + 1] == others[..k + 1]
    requires InstanceResult(platform, now, replies[k]).Ok?
    requires forall j :: 0 <= j < k ==> InstanceResult(platform, now, replies[j]).Err?
    ensures Attempts(platform, now, replies, None) == Attempts(platform, now, others, None)
  {
    assert forall j :: 0 <= j <= k ==> replies[j] == replies[..k + 1][j] == others[..k + 1][j] == others[j];
    FirstSuccessWins(platform, now, replies, None, k);
    FirstSuccessWins(platform, now, others, None, k);
  }

  /** When every reply fails, the error thrown is the last reply's. */
  lemma {:induction false} AllFailLastError(platform: PlatformId, now: nat, replies: seq<Attempt>, lastError: Option<string>)
    requires |replies| >= 1
    requires forall j :: 0 <= j < |replies| ==> InstanceResult(platform, now, replies[j]).Err?
    ensures Attempts(platform, now, replies, lastError) == InstanceResult(platform, now, replies[|replies| - 1])
    decreases |replies|
  {
    var e := InstanceResult(platform, now, replies[0]).message;
    if |replies| > 1 {
      forall j | 0 <= j < |replies| - 1 ensures InstanceResult(platform, now, replies[1..][j]).Err? {
        assert replies[1..][j] == replies[j + 1];
      }
      AllFailLastError(platform, now, replies[1..], Some(e));
    } else {
      assert replies[1..] == [];
    }
  }

  /** The loop ends with a success or with the error of one of the replies tried. */
  lemma {:induction false} SuccessOrSomeReplysError(platform: PlatformId, now: nat, replies: seq<Attempt>,
                                                    lastError: Option<string>)
    requires |replies| >= 1
    ensures var r := Attempts(platform, now, replies, lastError);
      r.Ok? || exists k :: 0 <= k < |replies| && r == InstanceResult(platform, now, replies[k])
    decreases |replies|
  {
    var first := InstanceResult(platform, now, replies[0]);
    if first.Err? {
      if |replies| == 1 {
        assert replies[1..] == [];
      } else {
        SuccessOrSomeReplysError(platform, now, replies[1..], Some(first.message));
        var r := Attempts(platform, now, replies, lastError);
        if r.Err? {
          var k :| 0 <= k < |replies[1..]| && r == InstanceResult(platform, now, replies[1..][k]);
          assert replies[1..][k] == replies[k + 1];
        }
      }
    }
  }

  /**
   * With the instances there are, the busy message is never thrown: the loop
   * ends with a success or with an instance's own error. Only a loop over no
   * instances at all would throw it.
   */
  lemma BusyOnlyWithoutInstances(platform: PlatformId, now: nat, replies: seq<Attempt>)
    requires |replies| == |CobaltInstances|
    ensures var r := Attempts(platform, now, replies, None);
      r.Ok? || exists k :: 0 <= k < |replies| && r == InstanceResult(platform, now, replies[k])
    ensures Attempts(platform, now, [], None) == Err(BusyMessage)
  {
    SuccessOrSomeReplysError(platform, now, replies, None);
  }

  // ---------------------------------------------------------------------
  // Properties of the direct-file path

  /** A link is titled with its last path segment, cut before the query. */
  lemma DirectTitleOfName(prefix: string, name: string, query: string)
    requires name != "" && '/' !in name && '?' !in name && '/' !in query
    ensures DirectTitle(prefix + "/" + name + "?" + query) == name
  {
    var last := name + "?" + query;
    assert prefix + "/" + name + "?" + query == prefix + ['/'] + last;
    SplitLast(prefix, '/', last);
    SplitFirst(name, '?', query);
  }

  /** Without a query the last path segment is the title as it stands. */
  lemma DirectTitleWithoutQuery(prefix: string, name: string)
    requires name != "" && '/' !in name && '?' !in name
    ensures DirectTitle(prefix + "/" + name) == name
  {
    SplitLast(prefix, '/', name);
  }

  /** A last segment that is all query leaves the name empty, and the title falls back to "Direct File". */
  lemma DirectTitleFallback(prefix: string, query: string)
    requires '/' !in query
    ensures DirectTitle(prefix + "/?" + query) == "Direct File"
  {
    var last := "?" + query;
    assert prefix + "/?" + query == prefix + ['/'] + last;
    SplitLast(prefix, '/', last);
    SplitFirst("", '?', query);
  }

  /** The extension test ignores letter case: a link ending in ".MP4" is direct. */
  lemma UpperCaseExtensionIsDirect(stem: string)
    ensures MatchesExtension(stem + ".MP4", MediaExtensions)
  {
    var url := stem + ".MP4";
    var i := |stem|;
    assert url[i + 1..i + 4] == "MP4";
    assert ToLower("MP4") == "mp4";
    assert ExtensionAt(url, i, "mp4");
    MatchesExtensionIff(url, MediaExtensions);
  }

  /** A ".mp3" link followed by a query is direct and offered as "mp3". */
  lemma Mp3WithQueryIsAudio(stem: string, query: string, platform: PlatformId, now: nat)
    ensures MatchesExtension(stem + ".mp3?" + query, MediaExtensions)
    ensures DirectFileMetadata(stem + ".mp3?" + query, platform, now).qualities[0].format == "mp3"
  {
    var url := stem + ".mp3?" + query;
    var i := |stem|;
    assert url[i] == '.' && url[i + 4] == '?';
    assert url[i + 1..i + 4] == "mp3";
    assert ToLower("mp3") == "mp3";
    assert ExtensionAt(url, i, "mp3");
    MatchesExtensionIff(url, MediaExtensions);
    MatchesExtensionIff(url, ["mp3"]);
  }

  // ---------------------------------------------------------------------
  // Properties of the error rewrite

  /**
   * A network-class message becomes the local text exactly when the page is
   * served from this machine, and the remote text otherwise; any other
   * message passes through unchanged.
   */
  lemma RewriteErrorChoice(message: string, hostname: string)
    ensures (Contains(message, "Failed to fetch") || Contains(message, "NetworkError")) ==>
      && (RewriteError(message, hostname) == LocalUnreachable <==> hostname == "localhost" || hostname == "127.0.0.1")
      && (RewriteError(message, hostname) == RemoteUnreachable <==> hostname != "localhost" && hostname != "127.0.0.1")
    ensures !(Contains(message, "Failed to fetch") || Contains(message, "NetworkError")) ==>
      RewriteError(message, hostname) == message
  {
    assert |LocalUnreachable| != |RemoteUnreachable|;
  }

  // ---------------------------------------------------------------------
  // Properties of the strategy order

  /** A refused request fails with the limiter's message, whatever the link and the network would do. */
  lemma RefusedRequestTriesNothing(url: string, platform: PlatformId, now: nat, local: LocalOutcome,
                                   replies: seq<Attempt>, hostname: string)
    ensures Resolve(false, url, platform, now, local, replies, hostname) == Err(RateLimitMessage)
  {
  }

  /**
   * A direct link is answered without any backend: one "Original" entry with
   * the link unchanged, "mp3" exactly when the link names an .mp3 file, and
   * no audio or video lists.
   */
  lemma DirectFileShortCircuit(url: string, platform: PlatformId, now: nat, local: LocalOutcome,
                               replies: seq<Attempt>, hostname: string, otherLocal: LocalOutcome,
                               otherReplies: seq<Attempt>)
    requires MatchesExtension(url, MediaExtensions)
    ensures var r := Resolve(true, url, platform, now, local, replies, hostname);
      && r == Resolve(true, url, platform, now, otherLocal, otherReplies, hostname)
      && r.Ok? && r.value.audio == [] && r.value.video == []
      && r.value.qualities == [VideoQuality("Original", None, "Unknown",
                                            if MatchesExtension(url, ["mp3"]) then "mp3" else "mp4", None, url)]
  {
  }

  /** The local server's catalogue is the answer when it gives one; the Cobalt replies play no part. */
  lemma LocalBackendFirst(url: string, platform: PlatformId, now: nat, data: VideoMetadata,
                          replies: seq<Attempt>, hostname: string)
    requires !MatchesExtension(url, MediaExtensions)
    ensures Resolve(true, url, platform, now, LocalOk(data), replies, hostname) == Ok(data)
  {
  }

  /**
   * Otherwise the Cobalt loop decides: its catalogue is the answer, and its
   * error is thrown after the rewrite.
   */
  lemma CobaltFallback(url: string, platform: PlatformId, now: nat, local: LocalOutcome,
                       replies: seq<Attempt>, hostname: string)
    requires !MatchesExtension(url, MediaExtensions) && !local.LocalOk?
    ensures var r := Resolve(true, url, platform, now, local, replies, hostname);
      var c := Attempts(platform, now, replies, None);
      && (r.Ok? <==> c.Ok?)
      && (c.Ok? ==> r == c)
      && (c.Err? ==> r == Err(RewriteError(c.message, hostname)))
  {
  }
}
