/**
 * The service object. Its `PHFetchOptions` are state: the initialiser sets
 * every source type and no predicate, and each `getLibrary` call edits them
 * in place before fetching, then enumerates the result in chunks.
 */
module Service {
  import opened Util
  import opened FetchConfiguration
  import opened LibraryItems
  import opened ChunkedEnumeration

  /**
   * The caller's `PhotoLibraryGetLibraryOptions` as `getLibrary` reads them.
   * `chunkTimed` stands for `chunkTimeSec > 0`; the thumbnail size is only
   * read by caching code that is commented out.
   */
  datatype GetLibraryOptions = GetLibraryOptions(
    includeImages: bool,
    includeVideos: bool,
    includeCloudData: bool,
    useOriginalFileNames: bool,
    includeAlbumData: bool,
    maxItems: int,
    itemsInChunk: int,
    chunkTimed: bool)

  function FilterOf(o: GetLibraryOptions): Filter
  {
    Filter(o.includeImages, o.includeVideos, o.includeCloudData)
  }

  function ChunkOptionsOf(o: GetLibraryOptions): ChunkOptions
  {
    ChunkOptions(o.maxItems, o.itemsInChunk, o.chunkTimed)
  }

  /**
   * The items the enumeration appends, one per fetched asset and in fetch
   * order: each is the exported item of its asset.
   */
  function ExportAll(assets: seq<Asset>, o: GetLibraryOptions): (items: seq<LibraryItem>)
    ensures |items| == |assets|
    ensures forall j :: 0 <= j < |items| ==> items[j].id == assets[j].localIdentifier
    ensures forall j :: 0 <= j < |items| ==>
      items[j].mimeType == ToLibraryItem(assets[j], o.useOriginalFileNames, o.includeAlbumData).mimeType
    ensures forall j :: 0 <= j < |items| ==> items[j] == ExportItem(assets[j], o.useOriginalFileNames, o.includeAlbumData)
  {
    seq(|assets|, j requires 0 <= j < |assets| => ExportItem(assets[j], o.useOriginalFileNames, o.includeAlbumData))
  }

  /** Which indices of a fetch result have their path resolution call back. */
  function ResolvesAt(assets: seq<Asset>, o: GetLibraryOptions): nat -> bool
  {
    (j: nat) => j < |assets| && CompletionFires(assets[j], o.useOriginalFileNames, o.includeAlbumData)
  }

  class PhotoLibraryService {
    /** The photo library, in the fetch's sort order (creation date, newest first). */
    const library: seq<Asset>

    /** `fetchOptions.includeAssetSourceTypes`. */
    var includeAssetSourceTypes: set<SourceType>

    /** `fetchOptions.predicate`: the media types it lets through, `None` when unset. */
    var mediaPredicate: Option<set<MediaKind>>

    function FetchOptions(): Query
      reads this
    {
      Query(includeAssetSourceTypes, mediaPredicate)
    }

    /** The initialiser: every source type, no mediaPredicate. */
    constructor (library: seq<Asset>)
      ensures this.library == library
      ensures FetchOptions() == InitialQuery
    {
      this.library := library;
      includeAssetSourceTypes := AllSources;
      mediaPredicate := None;
    }

    /**
     * The head of `getLibrary`: drop the iCloud source when cloud data is not
     * wanted, and replace the mediaPredicate when images or videos are asked for.
     * Nothing is ever restored, so the iCloud source, once dropped, stays out.
     */
    method ConfigureFetch(f: Filter)
      modifies this
      ensures FetchOptions() == Configure(old(FetchOptions()), f)
      ensures CloudShared in includeAssetSourceTypes ==> CloudShared in old(includeAssetSourceTypes)
      ensures !AsksForMedia(f) ==> mediaPredicate == old(mediaPredicate)
    {
      if !f.includeCloudData {
        includeAssetSourceTypes := LocalSources;
      }
      if f.includeImages && f.includeVideos {
        mediaPredicate := Some({Image, Video});
        assert Requested(f) == {Image, Video};
      } else if f.includeImages {
        mediaPredicate := Some({Image});
        assert Requested(f) == {Image};
      } else if f.includeVideos {
        mediaPredicate := Some({Video});
        assert Requested(f) == {Video};
      }
    }

    /**
     * `getLibrary`: configure, fetch with the configured options, and return
     * the completion calls of the chunked enumeration of the exported items.
     */
    method GetLibrary(options: GetLibraryOptions, elapsed: nat -> bool) returns (calls: seq<Call<LibraryItem>>)
      modifies this
      ensures FetchOptions() == Configure(old(FetchOptions()), FilterOf(options))
      ensures var fetchResult := FetchAssets(library, FetchOptions());
        calls == Calls(ExportAll(fetchResult, options), ChunkOptionsOf(options), ResolvesAt(fetchResult, options), elapsed)
    {
      ConfigureFetch(FilterOf(options));
      var fetchResult := FetchAssets(library, FetchOptions());
      var items := ExportAll(fetchResult, options);
      calls := EnumerateChunks(items, ChunkOptionsOf(options), ResolvesAt(fetchResult, options), elapsed);
    }
  }

  /**
   * Once a call has left out cloud data, no later call on the same service
   * fetches an iCloud shared asset, whatever it asks for.
   */
  lemma CloudAssetsStayExcluded(library: seq<Asset>, filters: seq<Filter>, j: nat)
    requires j < |filters| && !filters[j].includeCloudData
    ensures forall a :: a in FetchAssets(library, ConfigureAll(filters)) ==> a.sourceType != CloudShared
  {
    CloudSharedSticky(filters);
  }
}
