/**
 * Small status rules of the photo library service: whether the app may read
 * the library (`hasPermission`) and which encoding a picture is returned in
 * (`imageHasAlpha`, `image2PictureData`).
 */
module Status {
  import opened Util
  import MimeTypes

  // ---------------------------------------------------------------------------
  // Permission

  /** `PHAuthorizationStatus`. */
  datatype AuthorizationStatus = NotDetermined | Restricted | Denied | Authorized | Limited

  /**
   * `hasPermission`. On iOS 14 and later the read-write status is asked for and
   * limited access counts as permission; on earlier systems only full
   * authorisation does. `status` is what the platform reports on that path.
   */
  function HasPermission(ios14: bool, status: AuthorizationStatus): (granted: bool)
    ensures granted ==> status == Authorized || status == Limited
    ensures status == Authorized ==> granted
    ensures status == Limited ==> (granted <==> ios14)
  {
    if ios14 then status == Authorized || status == Limited else status == Authorized
  }

  /** Permission only grows when moving to the iOS 14 rule. */
  lemma PermissionIos14Weaker(status: AuthorizationStatus)
    ensures HasPermission(false, status) ==> HasPermission(true, status)
    ensures HasPermission(true, status) && !HasPermission(false, status) <==> status == Limited
  {
  }

  // ---------------------------------------------------------------------------
  // Picture format

  /** `CGImageAlphaInfo`. */
  datatype AlphaInfo =
    | NoAlpha | PremultipliedLast | PremultipliedFirst | Last | First
    | NoneSkipLast | NoneSkipFirst | AlphaOnly

  /**
   * `imageHasAlpha`: the image's bitmap (absent when the image has no
   * `cgImage`) carries an alpha channel that is first or last, premultiplied
   * or not. Alpha-only and skipped channels do not count.
   */
  function ImageHasAlpha(alphaInfo: Option<AlphaInfo>): (hasAlpha: bool)
    ensures alphaInfo.None? ==> !hasAlpha
    ensures hasAlpha <==> alphaInfo.Some? &&
                          alphaInfo.value in {First, Last, PremultipliedFirst, PremultipliedLast}
  {
    alphaInfo == Some(First) || alphaInfo == Some(Last) ||
    alphaInfo == Some(PremultipliedFirst) || alphaInfo == Some(PremultipliedLast)
  }

  /** `PictureData`: encoded bytes and their MIME type. */
  datatype PictureData = PictureData(data: Bytes, mimeType: string)

  const PngMime := "image/png"
  const JpegMime := "image/jpeg"

  /**
   * `image2PictureData`. An image with alpha is encoded as PNG, any other as
   * JPEG; the encoders are the platform's and are given by their results
   * (`png`, `jpeg`; `None` when the encoder fails). A failed encoding gives no
   * picture at all: there is no fallback to the other format.
   */
  function ImageToPictureData(alphaInfo: Option<AlphaInfo>, png: Option<Bytes>, jpeg: Option<Bytes>): (r: Option<PictureData>)
    ensures ImageHasAlpha(alphaInfo) ==> r == if png.Some? then Some(PictureData(png.value, PngMime)) else None
    ensures !ImageHasAlpha(alphaInfo) ==> r == if jpeg.Some? then Some(PictureData(jpeg.value, JpegMime)) else None
  {
    var (data, mime) := if ImageHasAlpha(alphaInfo) then (png, PngMime) else (jpeg, JpegMime);
    match data
    case None => None
    case Some(d) => Some(PictureData(d, mime))
  }

  /**
   * The picture's MIME type agrees with the extension table: it is what a
   * `.png` (with alpha) or `.jpg` (without) file name maps to.
   */
  lemma PictureMimeMatchesTable(alphaInfo: Option<AlphaInfo>, png: Option<Bytes>, jpeg: Option<Bytes>)
    requires ImageToPictureData(alphaInfo, png, jpeg).Some?
    ensures var pic := ImageToPictureData(alphaInfo, png, jpeg).value;
            pic.mimeType == MimeTypes.Table[if ImageHasAlpha(alphaInfo) then "png" else "jpg"]
  {
  }
}
