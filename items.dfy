/**
 * Library items: the asset store's records as far as the service reads them,
 * `assetToLibraryItem` (the exported item), the fetch by query, and
 * `getCompleteInfo` (resolving an item's retrievable file path, dispatched on
 * the category of its MIME type).
 */
module LibraryItems {
  import opened Util
  import opened MimeTypes
  import opened FetchConfiguration

  /**
   * What `requestAVAsset` hands back for a video: a URL asset with its path,
   * a composition (with the path the platform's sandbox token names), or
   * something else, in which case the completion is never called.
   */
  datatype VideoAsset = UrlAsset(relativePath: string) | Composition(tokenPath: string) | OtherAsset

  /**
   * The answers of the asset store when an asset's file is asked for:
   * `imageFile` is the temporary file the image data was written to, `None`
   * when no image data came back.
   */
  datatype AssetFiles = AssetFiles(imageFile: Option<string>, video: VideoAsset)

  /** A `PHAsset` as far as the service reads it. */
  datatype Asset = Asset(
    localIdentifier: string,
    fileName: Option<string>,
    originalFileName: Option<string>,
    pixelWidth: int,
    pixelHeight: int,
    mediaType: MediaKind,
    sourceType: SourceType,
    albumIds: seq<string>,
    files: AssetFiles)

  /** The exported dictionary; `filePath` is patched in after resolution. */
  datatype LibraryItem = LibraryItem(
    id: string,
    fileName: Option<string>,
    width: int,
    height: int,
    mimeType: string,
    albumIds: Option<seq<string>>,
    filePath: Option<string>)

  /**
   * `assetToLibraryItem`: the identifier, the file name (the original one, or
   * the store's), the size, the MIME type derived from the file name, and the
   * album identifiers only when asked for. No file path yet.
   */
  function ToLibraryItem(asset: Asset, useOriginalFileNames: bool, includeAlbumData: bool): (item: LibraryItem)
    ensures item.id == asset.localIdentifier
    ensures item.fileName == if useOriginalFileNames then asset.originalFileName else asset.fileName
    ensures item.fileName.None? ==> item.mimeType == OctetStream
    ensures item.fileName.Some? ==> item.mimeType == MimeTypeForPath(item.fileName.value)
    ensures item.albumIds.Some? <==> includeAlbumData
    ensures includeAlbumData ==> item.albumIds == Some(asset.albumIds)
    ensures item.width == asset.pixelWidth && item.height == asset.pixelHeight
    ensures item.filePath.None?
  {
    var name := if useOriginalFileNames then asset.originalFileName else asset.fileName;
    LibraryItem(asset.localIdentifier, name, asset.pixelWidth, asset.pixelHeight,
                ItemMimeType(name), if includeAlbumData then Some(asset.albumIds) else None, None)
  }

  /** Whether a query's source types and predicate let an asset through. */
  predicate Admits(q: Query, asset: Asset)
  {
    asset.sourceType in q.sourceTypes && (q.mediaTypes.None? || asset.mediaType in q.mediaTypes.value)
  }

  /**
   * `PHAsset.fetchAssets(with:)`: the assets of the library that the query
   * admits, in the library's order (newest first).
   */
  function FetchAssets(library: seq<Asset>, q: Query): (r: seq<Asset>)
    ensures |r| <= |library|
    ensures forall a :: a in r ==> a in library && Admits(q, a)
    ensures forall a :: a in library && Admits(q, a) ==> a in r
  {
    if library == [] then []
    else (if Admits(q, library[0]) then [library[0]] else []) + FetchAssets(library[1..], q)
  }

  /** The outcome of `getCompleteInfo`: the completion is called with a path or nil, or never. */
  datatype Completion = Completed(path: Option<string>) | NeverCalled

  /**
   * `getCompleteInfo`. `found` is the store's answer when the item's id is
   * looked up (`None` when nothing matches). Otherwise the prefix of the MIME
   * type selects the branch: images yield their temporary file, videos the
   * path of their URL asset or composition, audio and anything else nil.
   */
  function CompleteInfo(item: LibraryItem, found: Option<AssetFiles>): (c: Completion)
    ensures found.None? ==> c == Completed(None)
    ensures c.Completed? && c.path.Some? ==> MediaType(item.mimeType) in {"image", "video"}
    ensures MediaType(item.mimeType) !in {"image", "video"} ==> c == Completed(None)
    ensures c.NeverCalled? <==> found.Some? && MediaType(item.mimeType) == "video" && found.value.video.OtherAsset?
    ensures found.Some? && MediaType(item.mimeType) == "image" ==> c == Completed(found.value.imageFile)
    ensures found.Some? && MediaType(item.mimeType) == "video" && found.value.video.UrlAsset? ==>
      c == Completed(Some(found.value.video.relativePath))
    ensures found.Some? && MediaType(item.mimeType) == "video" && found.value.video.Composition? ==>
      c == Completed(Some(found.value.video.tokenPath))
  {
    match found
    case None => Completed(None)
    case Some(files) =>
      var mediaType := MediaType(item.mimeType);
      if mediaType == "image" then Completed(files.imageFile)
      else if mediaType == "video" then
        match files.video
        case UrlAsset(path) => Completed(Some(path))
        case Composition(path) => Completed(Some(path))
        case OtherAsset => NeverCalled
      else if mediaType == "audio" then Completed(None)
      else Completed(None)
  }

  /**
   * The item `getLibrary` appends to its chunk: the projected item with the
   * resolved path patched in. The lookup by identifier uses the same fetch
   * options that produced the asset, so it finds the asset's own files.
   */
  function ExportItem(asset: Asset, useOriginalFileNames: bool, includeAlbumData: bool): (item: LibraryItem)
    ensures item == ToLibraryItem(asset, useOriginalFileNames, includeAlbumData).(filePath := item.filePath)
    ensures item.filePath ==
      match CompleteInfo(ToLibraryItem(asset, useOriginalFileNames, includeAlbumData), Some(asset.files))
      case Completed(path) => path
      case NeverCalled => None
  {
    var item := ToLibraryItem(asset, useOriginalFileNames, includeAlbumData);
    match CompleteInfo(item, Some(asset.files))
    case Completed(path) => item.(filePath := path)
    case NeverCalled => item
  }

  /**
   * Whether resolving an exported asset's path calls its completion: it does
   * unless the item is a video whose asset is neither a URL asset nor a
   * composition.
   */
  function CompletionFires(asset: Asset, useOriginalFileNames: bool, includeAlbumData: bool): (fires: bool)
    ensures !fires <==>
      MediaType(ToLibraryItem(asset, useOriginalFileNames, includeAlbumData).mimeType) == "video" &&
      asset.files.video.OtherAsset?
  {
    CompleteInfo(ToLibraryItem(asset, useOriginalFileNames, includeAlbumData), Some(asset.files)).Completed?
  }

  // ---------------------------------------------------------------------------
  // Properties

  /**
   * An exported item never reaches the audio branch, and only items whose
   * file name maps to an image or video MIME type get a path.
   */
  lemma ExportedPathNeedsImageOrVideo(asset: Asset, useOriginalFileNames: bool, includeAlbumData: bool)
    ensures var item := ExportItem(asset, useOriginalFileNames, includeAlbumData);
            MediaType(item.mimeType) in Categories &&
            (item.filePath.Some? ==> MediaType(item.mimeType) in {"image", "video"})
  {
    var item := ToLibraryItem(asset, useOriginalFileNames, includeAlbumData);
    var c := CompleteInfo(item, Some(asset.files));
    assert ExportItem(asset, useOriginalFileNames, includeAlbumData) ==
           if c.Completed? then item.(filePath := c.path) else item;
    if item.fileName.Some? {
      MimeTypeCategories(item.fileName.value);
    } else {
      OctetStreamCategory();
    }
  }

  /**
   * An item whose MIME type falls back to `application/octet-stream` (no file
   * name, or an extension missing from the table) never gets a file path.
   */
  lemma OctetStreamItemGetsNoPath(asset: Asset, useOriginalFileNames: bool, includeAlbumData: bool)
    requires ToLibraryItem(asset, useOriginalFileNames, includeAlbumData).mimeType == OctetStream
    ensures ExportItem(asset, useOriginalFileNames, includeAlbumData).filePath == None
  {
    OctetStreamCategory();
  }

  /**
   * A camera photo stored as HEIC, whose extension the table lacks, is
   * exported with `application/octet-stream` and no file path.
   */
  lemma HeicPhotoGetsNoPath(asset: Asset)
    requires asset.fileName == Some("IMG.HEIC")
    ensures ExportItem(asset, false, false).mimeType == OctetStream
    ensures ExportItem(asset, false, false).filePath == None
  {
    HeicExample(asset.fileName.value);
    OctetStreamItemGetsNoPath(asset, false, false);
  }

  /** Fetching keeps the library's order: the result is the subsequence of admitted assets. */
  lemma {:induction false} FetchAssetsPrefix(library: seq<Asset>, q: Query, n: nat)
    requires n <= |library|
    ensures FetchAssets(library, q) == FetchAssets(library[..n], q) + FetchAssets(library[n..], q)
  {
    if n > 0 {
      var head := if Admits(q, library[0]) then [library[0]] else [];
      var rest := library[1..];
      assert library[..n][0] == library[0];
      assert library[..n][1..] == rest[..n - 1];
      assert library[n..] == rest[n - 1..];
      FetchAssetsPrefix(rest, q, n - 1);
      assert FetchAssets(library[..n], q) == head + FetchAssets(rest[..n - 1], q);
      assert FetchAssets(library, q) == head + FetchAssets(rest, q);
    } else {
      assert library[..0] == [] && library[0..] == library;
    }
  }
}
