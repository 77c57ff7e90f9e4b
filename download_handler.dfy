/**
 * The `/api/download` handler of backend/server.js: the yt-dlp `info` record
 * arrives as input, and the handler turns its raw format records into the
 * audio and video catalogue (filter, classify, de-duplicate by `sub_label`,
 * stable sort by the leading integer of `sub_label`).
 */
module DownloadHandler {
  import opened Common
  import opened Text
  import opened Catalog
  import opened Ranking
  import opened Server

  // ----- input records -----

  /** The fields of a yt-dlp format record the handler reads; a missing field is None. */
  datatype Format = Format(
    url: Option<string>,
    protocol: Option<string>,
    vcodec: Option<string>,
    acodec: Option<string>,
    filesize: Option<nat>,
    filesizeApprox: Option<nat>,
    height: Option<nat>,
    abr: Option<nat>)

  /** The fields of the yt-dlp `info` record the handler reads; `httpHeaders` is `{}` when absent. */
  datatype Info = Info(
    id: Option<string>,
    title: Option<string>,
    thumbnail: Option<string>,
    uploader: Option<string>,
    duration: Option<nat>,
    httpHeaders: map<string, string>,
    formats: Option<seq<Format>>)

  /** What the yt-dlp call produced: the record, or the message of the error it threw. */
  datatype Extraction = Extracted(info: Info) | ExtractionFailed(message: string)

  // ----- classification -----

  datatype Kind = AudioOnly | Progressive

  /** `n || 0` for an optional number. */
  function OrZero(n: Option<nat>): nat {
    if n.Some? then n.value else 0
  }

  /**
   * Which list a format record goes to: none without a url or over an adaptive
   * protocol (m3u8, dash); audio without a video codec; progressive with both
   * codecs; none with no audio codec. A missing codec counts as "none".
   */
  function KindOf(f: Format): (r: Option<Kind>)
    ensures r.Some? ==> Truthy(f.url) && OrElse(f.acodec, "none") != "none"
    ensures r == Some(AudioOnly) <==> r.Some? && OrElse(f.vcodec, "none") == "none"
  {
    var protocol := OrElse(f.protocol, "");
    var vcodec := OrElse(f.vcodec, "none");
    var acodec := OrElse(f.acodec, "none");
    if !Truthy(f.url) then None
    else if Contains(protocol, "m3u8") || Contains(protocol, "dash") then None
    else if vcodec == "none" && acodec != "none" then Some(AudioOnly)
    else if vcodec != "none" && acodec != "none" then Some(Progressive)
    else None
  }

  /** `${Math.floor(abr)}KBPS`, or "Audio" when the bitrate is missing or 0. */
  function BitrateLabel(abr: nat): string {
    if abr > 0 then NatToString(abr) + "KBPS" else "Audio"
  }

  /** `${height}p`, or "Video" when the height is missing or 0. */
  function HeightLabel(height: nat): string {
    if height > 0 then NatToString(height) + "p" else "Video"
  }

  /** The `sub_label` a classified record gets in its list. */
  function SubLabel(f: Format): string {
    if KindOf(f) == Some(AudioOnly) then BitrateLabel(OrZero(f.abr)) else HeightLabel(OrZero(f.height))
  }

  /** `f.filesize || f.filesize_approx`. */
  function FileSize(f: Format): Option<nat> {
    if TruthyNat(f.filesize) then f.filesize else f.filesizeApprox
  }

  /** The entry a classified record contributes. */
  function Entry(f: Format, h: Headers): (r: VideoQuality)
    requires KindOf(f).Some?
    ensures r.format == (if KindOf(f) == Some(AudioOnly) then "mp3" else "mp4")
    ensures r.url != "" && r.qualityBadge == None
  {
    if KindOf(f) == Some(AudioOnly) then
      VideoQuality("MP3", Some(SubLabel(f)), SizeText(FileSize(f)), "mp3", None, CreateProxyUrl(f.url.value, h))
    else
      VideoQuality("MP4", Some(SubLabel(f)), SizeText(FileSize(f)), "mp4", None, CreateProxyUrl(f.url.value, h))
  }

  /** The synthetic first entry, which downloads and merges the best streams through `/api/process`. */
  function BestQuality(url: string): VideoQuality {
    VideoQuality("Best Quality (HD/4K)", Some("High"), "Original", "mp4", Some("High"), ProcessUrl(url))
  }

  // ----- de-duplication, specified -----

  /** The `sub_label`s of the records of kind `k` in `fs`: the `seen` set after `fs`. */
  function Labels(fs: seq<Format>, k: Kind): set<string>
    decreases |fs|
  {
    if fs == [] then {}
    else
      var f := fs[|fs| - 1];
      Labels(fs[..|fs| - 1], k) + (if KindOf(f) == Some(k) then {SubLabel(f)} else {})
  }

  /** The list of kind `k` the loop builds from `fs` (before sorting): one entry per newly seen label. */
  function Kept(fs: seq<Format>, k: Kind, h: Headers): seq<VideoQuality>
    decreases |fs|
  {
    if fs == [] then []
    else
      var prev, f := fs[..|fs| - 1], fs[|fs| - 1];
      Kept(prev, k, h) + (if KindOf(f) == Some(k) && SubLabel(f) !in Labels(prev, k) then [Entry(f, h)] else [])
  }

  /** Record `i` is of kind `k` and no earlier record of that kind has its label. */
  predicate FirstOfLabel(fs: seq<Format>, k: Kind, i: int) {
    && 0 <= i < |fs|
    && KindOf(fs[i]) == Some(k)
    && forall j :: 0 <= j < i && KindOf(fs[j]) == Some(k) ==> SubLabel(fs[j]) != SubLabel(fs[i])
  }

  /** The seen set holds exactly the labels of the records of that kind. */
  lemma {:induction false} LabelsMembership(fs: seq<Format>, k: Kind)
    ensures forall j :: 0 <= j < |fs| && KindOf(fs[j]) == Some(k) ==> SubLabel(fs[j]) in Labels(fs, k)
    ensures forall l :: l in Labels(fs, k) ==> exists j :: 0 <= j < |fs| && KindOf(fs[j]) == Some(k) && SubLabel(fs[j]) == l
    decreases |fs|
  {
    if fs != [] {
      var prev := fs[..|fs| - 1];
      LabelsMembership(prev, k);
      forall l | l in Labels(fs, k)
        ensures exists j :: 0 <= j < |fs| && KindOf(fs[j]) == Some(k) && SubLabel(fs[j]) == l
      {
        if l in Labels(prev, k) {
          var j :| 0 <= j < |prev| && KindOf(prev[j]) == Some(k) && SubLabel(prev[j]) == l;
          assert fs[j] == prev[j];
        }
      }
      forall j | 0 <= j < |fs| && KindOf(fs[j]) == Some(k) ensures SubLabel(fs[j]) in Labels(fs, k) {
        if j < |prev| {
          assert fs[j] == prev[j];
        }
      }
    }
  }

  lemma FirstOfLabelInPrefix(fs: seq<Format>, k: Kind, i: int)
    requires fs != [] && 0 <= i < |fs| - 1
    ensures FirstOfLabel(fs, k, i) <==> FirstOfLabel(fs[..|fs| - 1], k, i)
  {
    var prev := fs[..|fs| - 1];
    assert forall j :: 0 <= j <= i ==> fs[j] == prev[j];
  }

  lemma FirstOfLabelAtEnd(fs: seq<Format>, k: Kind)
    requires fs != []
    ensures FirstOfLabel(fs, k, |fs| - 1)
            <==> KindOf(fs[|fs| - 1]) == Some(k) && SubLabel(fs[|fs| - 1]) !in Labels(fs[..|fs| - 1], k)
  {
    var prev, f := fs[..|fs| - 1], fs[|fs| - 1];
    LabelsMembership(prev, k);
    assert forall j :: 0 <= j < |prev| ==> fs[j] == prev[j];
  }

  /**
   * Every entry of a list is the entry of a record that is the first of its
   * kind with its label ("first seen wins").
   */
  lemma {:induction false} KeptEntriesAreFirstOfTheirLabel(fs: seq<Format>, k: Kind, h: Headers)
    ensures forall q :: q in Kept(fs, k, h) ==> exists i :: FirstOfLabel(fs, k, i) && q == Entry(fs[i], h)
    decreases |fs|
  {
    if fs != [] {
      var prev, f := fs[..|fs| - 1], fs[|fs| - 1];
      KeptEntriesAreFirstOfTheirLabel(prev, k, h);
      forall q | q in Kept(fs, k, h) ensures exists i :: FirstOfLabel(fs, k, i) && q == Entry(fs[i], h) {
        if q in Kept(prev, k, h) {
          var i :| FirstOfLabel(prev, k, i) && q == Entry(prev[i], h);
          FirstOfLabelInPrefix(fs, k, i);
          assert fs[i] == prev[i];
        } else {
          FirstOfLabelAtEnd(fs, k);
          assert FirstOfLabel(fs, k, |fs| - 1) && q == Entry(fs[|fs| - 1], h);
        }
      }
    }
  }

  /** Every record that is the first of its kind with its label has its entry in the list. */
  lemma {:induction false} FirstOfEachLabelIsKept(fs: seq<Format>, k: Kind, h: Headers)
    ensures forall i :: FirstOfLabel(fs, k, i) ==> Entry(fs[i], h) in Kept(fs, k, h)
    decreases |fs|
  {
    if fs != [] {
      var prev := fs[..|fs| - 1];
      FirstOfEachLabelIsKept(prev, k, h);
      forall i | FirstOfLabel(fs, k, i) ensures Entry(fs[i], h) in Kept(fs, k, h) {
        if i < |prev| {
          FirstOfLabelInPrefix(fs, k, i);
          assert fs[i] == prev[i];
        } else {
          FirstOfLabelAtEnd(fs, k);
        }
      }
    }
  }

  lemma {:induction false} KeptLabelsAreSeen(fs: seq<Format>, k: Kind, h: Headers)
    ensures forall n :: 0 <= n < |Kept(fs, k, h)| ==>
      Kept(fs, k, h)[n].subLabel.Some? && Kept(fs, k, h)[n].subLabel.value in Labels(fs, k)
    decreases |fs|
  {
    if fs != [] {
      KeptLabelsAreSeen(fs[..|fs| - 1], k, h);
    }
  }

  /** Within each list the `sub_label`s are pairwise distinct. */
  lemma {:induction false} KeptLabelsDistinct(fs: seq<Format>, k: Kind, h: Headers)
    ensures DistinctLabels(Kept(fs, k, h))
    decreases |fs|
  {
    if fs != [] {
      var prev, f := fs[..|fs| - 1], fs[|fs| - 1];
      var kept, before := Kept(fs, k, h), Kept(prev, k, h);
      KeptLabelsDistinct(prev, k, h);
      KeptLabelsAreSeen(prev, k, h);
      forall i, j | 0 <= i < j < |kept| ensures kept[i].subLabel != kept[j].subLabel {
        if j >= |before| {
          assert kept[i] == before[i];
        }
      }
    }
  }

  /** One more record: the list and the seen set grow as the loop body makes them grow. */
  lemma PrefixStep(fs: seq<Format>, i: nat, k: Kind, h: Headers)
    requires i < |fs|
    ensures Kept(fs[..i + 1], k, h)
            == Kept(fs[..i], k, h) + (if KindOf(fs[i]) == Some(k) && SubLabel(fs[i]) !in Labels(fs[..i], k) then [Entry(fs[i], h)] else [])
    ensures Labels(fs[..i + 1], k) == Labels(fs[..i], k) + (if KindOf(fs[i]) == Some(k) then {SubLabel(fs[i])} else {})
  {
    assert fs[..i + 1][..i] == fs[..i];
  }

  /**
   * A record without a url, over an adaptive protocol, or without an audio
   * codec (video-only or codec-less) adds nothing to either list.
   */
  lemma DroppedFormatsAddNothing(fs: seq<Format>, f: Format, h: Headers)
    requires || !Truthy(f.url)
             || Contains(OrElse(f.protocol, ""), "m3u8")
             || Contains(OrElse(f.protocol, ""), "dash")
             || OrElse(f.acodec, "none") == "none"
    ensures Kept(fs + [f], AudioOnly, h) == Kept(fs, AudioOnly, h)
    ensures Kept(fs + [f], Progressive, h) == Kept(fs, Progressive, h)
  {
    assert (fs + [f])[..|fs|] == fs;
  }

  /** `parseInt` of a bitrate label is the bitrate (0 for "Audio"). */
  lemma BitrateLabelRank(abr: nat)
    ensures LeadingInt(BitrateLabel(abr)) == abr
  {
    if abr > 0 {
      LeadingIntOfNumeral(abr, "KBPS");
    } else {
      LeadingIntOfWord("Audio");
    }
  }

  /** `parseInt` of a height label is the height (0 for "Video"). */
  lemma HeightLabelRank(height: nat)
    ensures LeadingInt(HeightLabel(height)) == height
  {
    if height > 0 {
      LeadingIntOfNumeral(height, "p");
    } else {
      LeadingIntOfWord("Video");
    }
  }

  /**
   * An audio record's entry: "MP3"/"mp3", ranked by its bitrate, labelled by
   * that rank, sized from filesize or filesize_approx, and a proxy reference
   * from which the proxy route reads the record's url and the headers back.
   */
  lemma AudioEntryShape(f: Format, h: Headers)
    requires KindOf(f) == Some(AudioOnly)
    ensures var e := Entry(f, h);
      && e.caption == "MP3" && e.format == "mp3" && e.qualityBadge == None
      && Rank(e) == OrZero(f.abr) && e.subLabel == Some(BitrateLabel(Rank(e)))
      && e.size == SizeText(if TruthyNat(f.filesize) then f.filesize else f.filesizeApprox)
      && QueryOf("/api/proxy?", e.url) == Some([("url", f.url.value), ("ua", h.userAgent), ("ref", h.referer)])
  {
    BitrateLabelRank(OrZero(f.abr));
    ProxyUrlRoundTrip(f.url.value, h);
  }

  /** A progressive record's entry: "MP4"/"mp4", ranked by its height, labelled by that rank. */
  lemma VideoEntryShape(f: Format, h: Headers)
    requires KindOf(f) == Some(Progressive)
    ensures var e := Entry(f, h);
      && e.caption == "MP4" && e.format == "mp4" && e.qualityBadge == None
      && Rank(e) == OrZero(f.height) && e.subLabel == Some(HeightLabel(Rank(e)))
      && e.size == SizeText(if TruthyNat(f.filesize) then f.filesize else f.filesizeApprox)
      && QueryOf("/api/proxy?", e.url) == Some([("url", f.url.value), ("ua", h.userAgent), ("ref", h.referer)])
  {
    HeightLabelRank(OrZero(f.height));
    ProxyUrlRoundTrip(f.url.value, h);
  }

  // ----- the catalogue -----

  /** The (audio, video) lists the handler answers with. */
  function Catalogue(url: string, formats: Option<seq<Format>>, h: Headers): (r: (seq<VideoQuality>, seq<VideoQuality>))
    ensures BestQuality(url) in r.1
    ensures formats.None? ==> r.0 == []
  {
    match formats
    case None => ([], [BestQuality(url)])
    case Some(fs) => (SortByRank(Kept(fs, AudioOnly, h)), SortByRank([BestQuality(url)] + Kept(fs, Progressive, h)))
  }

  /**
   * One pass of the loop body over record `f`: skip it when it has no url or
   * an adaptive protocol, otherwise classify it by its codecs and push its
   * entry onto its list unless that list has already seen its label.
   */
  method VisitFormat(f: Format, h: Headers,
                     audio: seq<VideoQuality>, video: seq<VideoQuality>,
                     seenAudio: set<string>, seenVideo: set<string>)
    returns (audio': seq<VideoQuality>, video': seq<VideoQuality>,
             seenAudio': set<string>, seenVideo': set<string>)
    ensures audio' == audio + (if KindOf(f) == Some(AudioOnly) && SubLabel(f) !in seenAudio then [Entry(f, h)] else [])
    ensures video' == video + (if KindOf(f) == Some(Progressive) && SubLabel(f) !in seenVideo then [Entry(f, h)] else [])
    ensures seenAudio' == seenAudio + (if KindOf(f) == Some(AudioOnly) then {SubLabel(f)} else {})
    ensures seenVideo' == seenVideo + (if KindOf(f) == Some(Progressive) then {SubLabel(f)} else {})
  {
    audio', video', seenAudio', seenVideo' := audio, video, seenAudio, seenVideo;
    if !Truthy(f.url) {
      return;
    }
    var protocol := OrElse(f.protocol, "");
    if Contains(protocol, "m3u8") || Contains(protocol, "dash") {
      return;
    }
    var vcodec := OrElse(f.vcodec, "none");
    var acodec := OrElse(f.acodec, "none");
    var filesize := if TruthyNat(f.filesize) then f.filesize else f.filesizeApprox;
    var sizeStr := SizeText(filesize);
    if vcodec == "none" && acodec != "none" {
      var bitrate := BitrateLabel(OrZero(f.abr));
      if bitrate !in seenAudio {
        audio' := audio + [VideoQuality("MP3", Some(bitrate), sizeStr, "mp3", None, CreateProxyUrl(f.url.value, h))];
        seenAudio' := seenAudio + {bitrate};
      }
    } else if vcodec != "none" && acodec != "none" {
      var heightLabel := HeightLabel(OrZero(f.height));
      if heightLabel !in seenVideo {
        video' := video + [VideoQuality("MP4", Some(heightLabel), sizeStr, "mp4", None, CreateProxyUrl(f.url.value, h))];
        seenVideo' := seenVideo + {heightLabel};
      }
    }
  }

  /** The loop's state after the first `i` records. */
  ghost predicate CollectedUpTo(fs: seq<Format>, i: nat, h: Headers, video0: seq<VideoQuality>,
                                audio: seq<VideoQuality>, video: seq<VideoQuality>,
                                seenAudio: set<string>, seenVideo: set<string>)
    requires i <= |fs|
  {
    && audio == Kept(fs[..i], AudioOnly, h)
    && video == video0 + Kept(fs[..i], Progressive, h)
    && seenAudio == Labels(fs[..i], AudioOnly)
    && seenVideo == Labels(fs[..i], Progressive)
  }

  /** A pass of the loop body over record `i` takes the state after `i` records to the state after `i + 1`. */
  lemma CollectStep(fs: seq<Format>, i: nat, h: Headers, video0: seq<VideoQuality>,
                    audio: seq<VideoQuality>, video: seq<VideoQuality>, seenAudio: set<string>, seenVideo: set<string>,
                    audio': seq<VideoQuality>, video': seq<VideoQuality>, seenAudio': set<string>, seenVideo': set<string>)
    requires i < |fs| && CollectedUpTo(fs, i, h, video0, audio, video, seenAudio, seenVideo)
    requires audio' == audio + (if KindOf(fs[i]) == Some(AudioOnly) && SubLabel(fs[i]) !in seenAudio then [Entry(fs[i], h)] else [])
    requires video' == video + (if KindOf(fs[i]) == Some(Progressive) && SubLabel(fs[i]) !in seenVideo then [Entry(fs[i], h)] else [])
    requires seenAudio' == seenAudio + (if KindOf(fs[i]) == Some(AudioOnly) then {SubLabel(fs[i])} else {})
    requires seenVideo' == seenVideo + (if KindOf(fs[i]) == Some(Progressive) then {SubLabel(fs[i])} else {})
    ensures CollectedUpTo(fs, i + 1, h, video0, audio', video', seenAudio', seenVideo')
  {
    assert audio == [] + Kept(fs[..i], AudioOnly, h);
    KindStep(fs, i, AudioOnly, h, [], audio, seenAudio, audio', seenAudio');
    KindStep(fs, i, Progressive, h, video0, video, seenVideo, video', seenVideo');
  }

  /** The same step for the list and the seen set of one kind, after `base`. */
  lemma KindStep(fs: seq<Format>, i: nat, k: Kind, h: Headers, base: seq<VideoQuality>,
                 list: seq<VideoQuality>, seen: set<string>, list': seq<VideoQuality>, seen': set<string>)
    requires i < |fs| && list == base + Kept(fs[..i], k, h) && seen == Labels(fs[..i], k)
    requires list' == list + (if KindOf(fs[i]) == Some(k) && SubLabel(fs[i]) !in seen then [Entry(fs[i], h)] else [])
    requires seen' == seen + (if KindOf(fs[i]) == Some(k) then {SubLabel(fs[i])} else {})
    ensures list' == base + Kept(fs[..i + 1], k, h) && seen' == Labels(fs[..i + 1], k)
  {
    PrefixStep(fs, i, k, h);
  }

  /**
   * The loop of the handler: run the loop body over every record in order,
   * starting from the video list that already holds the synthetic entry.
   */
  method CollectFormats(fs: seq<Format>, h: Headers, video0: seq<VideoQuality>)
    returns (audio: seq<VideoQuality>, video: seq<VideoQuality>)
    ensures audio == Kept(fs, AudioOnly, h)
    ensures video == video0 + Kept(fs, Progressive, h)
  {
    audio, video := [], video0;
    var seenVideo: set<string> := {};
    var seenAudio: set<string> := {};
    var i := 0;
    while i < |fs|
      invariant 0 <= i <= |fs|
      invariant CollectedUpTo(fs, i, h, video0, audio, video, seenAudio, seenVideo)
    {
      var audio', video', seenAudio', seenVideo' := VisitFormat(fs[i], h, audio, video, seenAudio, seenVideo);
      CollectStep(fs, i, h, video0, audio, video, seenAudio, seenVideo, audio', video', seenAudio', seenVideo');
      audio, video, seenAudio, seenVideo := audio', video', seenAudio', seenVideo';
      i := i + 1;
    }
    assert fs[..|fs|] == fs;
  }

  /** The handler's catalogue: push the synthetic entry, collect the records, then sort both lists. */
  method BuildCatalogue(url: string, formats: Option<seq<Format>>, h: Headers)
    returns (audio: seq<VideoQuality>, video: seq<VideoQuality>)
    ensures (audio, video) == Catalogue(url, formats, h)
  {
    audio := [];
    video := [BestQuality(url)];
    if formats.Some? {
      audio, video := CollectFormats(formats.value, h, video);
      audio := SortByRank(audio);
      video := SortByRank(video);
    }
  }

  // ----- what the catalogue promises -----

  /** Every audio entry is labelled by its rank: `parseInt` of the label gives the bitrate back. */
  lemma KeptAudioLabelledByRank(fs: seq<Format>, h: Headers)
    ensures forall q :: q in Kept(fs, AudioOnly, h) ==> q.subLabel == Some(BitrateLabel(Rank(q)))
  {
    KeptEntriesAreFirstOfTheirLabel(fs, AudioOnly, h);
    forall q | q in Kept(fs, AudioOnly, h) ensures q.subLabel == Some(BitrateLabel(Rank(q))) {
      var i :| FirstOfLabel(fs, AudioOnly, i) && q == Entry(fs[i], h);
      AudioEntryShape(fs[i], h);
    }
  }

  /** Every progressive entry is labelled by its rank: `parseInt` of the label gives the height back. */
  lemma KeptVideoLabelledByRank(fs: seq<Format>, h: Headers)
    ensures forall q :: q in Kept(fs, Progressive, h) ==> q.subLabel == Some(HeightLabel(Rank(q)))
  {
    KeptEntriesAreFirstOfTheirLabel(fs, Progressive, h);
    forall q | q in Kept(fs, Progressive, h) ensures q.subLabel == Some(HeightLabel(Rank(q))) {
      var i :| FirstOfLabel(fs, Progressive, i) && q == Entry(fs[i], h);
      VideoEntryShape(fs[i], h);
    }
  }

  lemma BestQualityRank(url: string)
    ensures Rank(BestQuality(url)) == 0
  {
    LeadingIntOfWord("High");
  }

  lemma HeightLabelIsNotHigh(n: nat)
    ensures HeightLabel(n) != "High"
  {
    var l := HeightLabel(n);
    if n > 0 {
      assert l[|l| - 1] == 'p';
    } else {
      assert l[0] == 'V';
    }
  }

  /** The synthetic entry's label "High" is never the label of a progressive entry. */
  lemma BestQualityLabelIsFresh(fs: seq<Format>, url: string, h: Headers)
    ensures DistinctLabels([BestQuality(url)] + Kept(fs, Progressive, h))
  {
    var kept := Kept(fs, Progressive, h);
    KeptLabelsDistinct(fs, Progressive, h);
    KeptVideoLabelledByRank(fs, h);
    forall i | 0 <= i < |kept| ensures kept[i].subLabel != Some("High") {
      assert kept[i] in kept;
      HeightLabelIsNotHigh(Rank(kept[i]));
    }
    ConsDistinct(BestQuality(url), kept);
  }

  /**
   * Deduplication and classification of the whole catalogue: an entry is in
   * the audio list exactly when it is the entry of the first audio record with
   * its label, and in the video list exactly when it is the synthetic entry or
   * the entry of the first progressive record with its label; no label occurs
   * twice in either list; without `formats` the lists are `[]` and the
   * synthetic entry alone.
   */
  lemma CatalogueContents(url: string, formats: Option<seq<Format>>, h: Headers)
    ensures var (audio, video) := Catalogue(url, formats, h);
      && DistinctLabels(audio) && DistinctLabels(video)
      && (formats.None? ==> audio == [] && video == [BestQuality(url)])
      && (formats.Some? ==>
            && (forall q :: q in audio <==> exists i :: FirstOfLabel(formats.value, AudioOnly, i) && q == Entry(formats.value[i], h))
            && (forall q :: q in video <==>
                  q == BestQuality(url) || exists i :: FirstOfLabel(formats.value, Progressive, i) && q == Entry(formats.value[i], h)))
  {
    if formats.Some? {
      var fs := formats.value;
      var keptAudio, keptVideo := Kept(fs, AudioOnly, h), [BestQuality(url)] + Kept(fs, Progressive, h);
      var (audio, video) := Catalogue(url, formats, h);
      KeptLabelsDistinct(fs, AudioOnly, h);
      SortByRankDistinct(keptAudio);
      BestQualityLabelIsFresh(fs, url, h);
      SortByRankDistinct(keptVideo);
      KeptEntriesAreFirstOfTheirLabel(fs, AudioOnly, h);
      KeptEntriesAreFirstOfTheirLabel(fs, Progressive, h);
      FirstOfEachLabelIsKept(fs, AudioOnly, h);
      FirstOfEachLabelIsKept(fs, Progressive, h);
      SortByRankMembers(keptAudio);
      SortByRankMembers(keptVideo);
    }
  }

  /**
   * Every audio entry is offered as "mp3" and every video entry as "mp4", so
   * no entry is in both lists.
   */
  lemma CatalogueFormats(url: string, formats: Option<seq<Format>>, h: Headers)
    ensures var (audio, video) := Catalogue(url, formats, h);
      && (forall q :: q in audio ==> q.format == "mp3")
      && (forall q :: q in video ==> q.format == "mp4")
      && (forall q :: q in audio ==> q !in video)
  {
    CatalogueContents(url, formats, h);
  }

  /**
   * Within the audio list the ranks strictly decrease: one entry per bitrate,
   * highest first, the "Audio" entry (rank 0) last.
   */
  lemma AudioRanksStrictlyDecrease(url: string, fs: seq<Format>, h: Headers)
    ensures var audio := Catalogue(url, Some(fs), h).0;
      forall i, j :: 0 <= i < j < |audio| ==> Rank(audio[i]) > Rank(audio[j])
  {
    var kept := Kept(fs, AudioOnly, h);
    var audio := SortByRank(kept);
    assert Catalogue(url, Some(fs), h).0 == audio;
    KeptLabelsDistinct(fs, AudioOnly, h);
    SortByRankDistinct(kept);
    KeptAudioLabelledByRank(fs, h);
    SortByRankMembers(kept);
    forall i, j | 0 <= i < j < |audio|
      ensures Rank(audio[i]) == Rank(audio[j]) ==> audio[i].subLabel == audio[j].subLabel
    {
      assert audio[i] in kept && audio[j] in kept;
    }
    StrictWhenRankDeterminesLabel(audio, -1);
  }

  /** The sorted video list: the positive-rank entries, the synthetic entry, then the rank-0 progressive entries. */
  lemma VideoLayout(url: string, fs: seq<Format>, h: Headers)
    ensures var video := Catalogue(url, Some(fs), h).1;
      video == RankedAboveZero(video) + [BestQuality(url)] + WithRank(Kept(fs, Progressive, h), 0)
  {
    var video := Catalogue(url, Some(fs), h).1;
    var kept := Kept(fs, Progressive, h);
    var s0 := [BestQuality(url)] + kept;
    BestQualityRank(url);
    SortedSplitsAtZero(video);
    SortByRankStable(s0, 0);
    assert s0[1..] == kept;
  }

  /** The rank-0 progressive entries are the "Video" ones. */
  lemma RankZeroVideoEntries(fs: seq<Format>, h: Headers)
    ensures forall q :: q in WithRank(Kept(fs, Progressive, h), 0) ==> q.subLabel == Some("Video")
  {
    var kept := Kept(fs, Progressive, h);
    WithRankMembers(kept, 0);
    KeptVideoLabelledByRank(fs, h);
    forall q | q in WithRank(kept, 0) ensures q.subLabel == Some("Video") {
      var n :| 0 <= n < |WithRank(kept, 0)| && WithRank(kept, 0)[n] == q;
    }
  }

  /** Positive-rank video entries with the same rank have the same label. */
  lemma PositiveVideoRanksStrictlyDecrease(url: string, fs: seq<Format>, h: Headers)
    ensures var video := Catalogue(url, Some(fs), h).1;
      forall i, j :: 0 <= i < j < |video| && Rank(video[j]) > 0 ==> Rank(video[i]) > Rank(video[j])
  {
    var kept := Kept(fs, Progressive, h);
    var s0 := [BestQuality(url)] + kept;
    var video := SortByRank(s0);
    assert Catalogue(url, Some(fs), h).1 == video;
    BestQualityRank(url);
    BestQualityLabelIsFresh(fs, url, h);
    SortByRankDistinct(s0);
    KeptVideoLabelledByRank(fs, h);
    SortByRankMembers(s0);
    forall q | q in s0 && Rank(q) > 0 ensures q in kept {
      assert q != BestQuality(url);
    }
    forall i, j | 0 <= i < j < |video|
      ensures Rank(video[j]) > 0 && Rank(video[i]) == Rank(video[j]) ==> video[i].subLabel == video[j].subLabel
    {
      assert video[i] in s0 && video[j] in s0;
    }
    StrictWhenRankDeterminesLabel(video, 0);
  }

  /** The placement, read off the layout of a list. */
  lemma PlacementFromLayout(video: seq<VideoQuality>, above: seq<VideoQuality>, b: VideoQuality, tail: seq<VideoQuality>)
    requires video == above + [b] + tail
    requires forall i :: 0 <= i < |above| ==> Rank(above[i]) > 0
    requires Rank(b) == 0
    requires forall q :: q in tail ==> q.subLabel == Some("Video")
    requires forall i, j :: 0 <= i < j < |video| && Rank(video[j]) > 0 ==> Rank(video[i]) > Rank(video[j])
    ensures exists p ::
        && 0 <= p < |video| && video[p] == b
        && (forall i, j :: 0 <= i < j <= p ==> Rank(video[i]) > Rank(video[j]))
        && (forall i :: p < i < |video| ==> video[i].subLabel == Some("Video"))
  {
    var p := |above|;
    assert video[p] == b;
    forall i | p < i < |video| ensures video[i].subLabel == Some("Video") {
      assert video[i] == tail[i - p - 1];
    }
    forall i, j | 0 <= i < j <= p ensures Rank(video[i]) > Rank(video[j]) {
      assert video[i] == above[i];
      if j < p {
        assert video[j] == above[j];
      }
    }
  }

  /** The placement when the record carries `formats`. */
  lemma PlacementWithFormats(url: string, fs: seq<Format>, h: Headers)
    ensures var video := Catalogue(url, Some(fs), h).1;
      && DistinctLabels(video)
      && exists p ::
        && 0 <= p < |video| && video[p] == BestQuality(url)
        && (forall i, j :: 0 <= i < j <= p ==> Rank(video[i]) > Rank(video[j]))
        && (forall i :: p < i < |video| ==> video[i].subLabel == Some("Video"))
  {
    var video := Catalogue(url, Some(fs), h).1;
    var kept := Kept(fs, Progressive, h);
    BestQualityRank(url);
    VideoLayout(url, fs, h);
    RankedAboveZeroIsPositive(video);
    RankZeroVideoEntries(fs, h);
    PositiveVideoRanksStrictlyDecrease(url, fs, h);
    BestQualityLabelIsFresh(fs, url, h);
    SortByRankDistinct([BestQuality(url)] + kept);
    PlacementFromLayout(video, RankedAboveZero(video), BestQuality(url), WithRank(kept, 0));
  }

  /**
   * Where the synthetic entry lands after the sort: its label "High" ranks 0,
   * so it follows every entry of positive height (whose ranks strictly
   * decrease) and precedes the "Video" entry, if there is one: only entries
   * labelled "Video" follow it, and labels are distinct, so at most one.
   */
  lemma BestQualityPlacement(url: string, formats: Option<seq<Format>>, h: Headers)
    ensures var video := Catalogue(url, formats, h).1;
      && DistinctLabels(video)
      && exists p ::
        && 0 <= p < |video| && video[p] == BestQuality(url)
        && (forall i, j :: 0 <= i < j <= p ==> Rank(video[i]) > Rank(video[j]))
        && (forall i :: p < i < |video| ==> video[i].subLabel == Some("Video"))
  {
    if formats.None? {
      BestQualityRank(url);
      assert Catalogue(url, formats, h).1[0] == BestQuality(url);
    } else {
      PlacementWithFormats(url, formats.value, h);
    }
  }

  // ----- the response -----

  /** `commonHeaders['User-Agent'] || ''` and `commonHeaders['Referer'] || ''`. */
  function HeadersOf(info: Info): Headers {
    Headers(
      if "User-Agent" in info.httpHeaders then info.httpHeaders["User-Agent"] else "",
      if "Referer" in info.httpHeaders then info.httpHeaders["Referer"] else "")
  }

  /**
   * `POST /api/download`: `platform` defaults to "auto" and `now` is the
   * clock reading `Date.now()` would give. A failed extraction answers
   * "Could not download video: " and its message; otherwise the metadata
   * carries "js-" and the video id (the clock when there is none), the
   * defaults for a missing title, thumbnail and uploader, the duration text
   * (formatDuration's, which reads back as the duration in whole seconds), an empty
   * `qualities` list and the catalogue.
   */
  method HandleDownload(url: string, platform: Option<string>, extraction: Extraction, now: nat)
    returns (r: Result<VideoMetadata>)
    ensures extraction.ExtractionFailed? ==> r == Err("Could not download video: " + extraction.message)
    ensures extraction.Extracted? ==>
      var info := extraction.info;
      && r.Ok?
      && r.value.id == "js-" + (if Truthy(info.id) then info.id.value else NatToString(now))
      && r.value.title == OrElse(info.title, "Downloaded Video") && r.value.title != ""
      && r.value.thumbnail == OrElse(info.thumbnail, "")
      && r.value.author == OrElse(info.uploader, "Unknown Author") && r.value.author != ""
      && r.value.duration == FormatDuration(info.duration)
      && ParseDuration(r.value.duration) == Some(OrZero(info.duration))
      && r.value.platform == platform.GetOr("auto")
      && r.value.qualities == []
      && (r.value.audio, r.value.video) == Catalogue(url, info.formats, HeadersOf(info))
  {
    match extraction {
      case ExtractionFailed(message) =>
        r := Err("Could not download video: " + message);
      case Extracted(info) =>
        var videoId := if Truthy(info.id) then info.id.value else NatToString(now);
        var title := OrElse(info.title, "Downloaded Video");
        var thumbnail := OrElse(info.thumbnail, "");
        var uploader := OrElse(info.uploader, "Unknown Author");
        var durationStr := FormatDuration(info.duration);
        DurationRoundTrip(OrZero(info.duration));
        var audio, video := BuildCatalogue(url, info.formats, HeadersOf(info));
        r := Ok(VideoMetadata("js-" + videoId, title, thumbnail, durationStr, uploader,
                              platform.GetOr("auto"), [], audio, video));
    }
  }
}
