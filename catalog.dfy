/**
 * The shapes the client and the server exchange (frontend/src/types.ts).
 * `VideoQuality` carries the `sub_label` the server emits and the
 * `quality_badge` of its synthetic entry, which the client type leaves
 * undeclared; both are optional because client-built entries have neither.
 */
module Catalog {
  import opened Common

  datatype PlatformId = YouTube | Instagram | TikTok | Facebook | Twitter | Pinterest | Snapchat

  /** The string each platform id stands for. */
  function PlatformName(p: PlatformId): string {
    match p
    case YouTube => "youtube"
    case Instagram => "instagram"
    case TikTok => "tiktok"
    case Facebook => "facebook"
    case Twitter => "twitter"
    case Pinterest => "pinterest"
    case Snapchat => "snapchat"
  }

  /** `caption` is the source's `label` (a reserved word in Dafny). */
  datatype VideoQuality = VideoQuality(
    caption: string,
    subLabel: Option<string>,
    size: string,
    format: string,
    qualityBadge: Option<string>,
    url: string)

  /**
   * `platform` is a string: the server echoes whatever the request carried
   * (default "auto"), and the client passes its platform id's name.
   */
  datatype VideoMetadata = VideoMetadata(
    id: string,
    title: string,
    thumbnail: string,
    duration: string,
    author: string,
    platform: string,
    qualities: seq<VideoQuality>,
    audio: seq<VideoQuality>,
    video: seq<VideoQuality>)
}
