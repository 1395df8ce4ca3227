/**
 * The singleton's fetch options as `getLibrary` leaves them: the asset source
 * types and the media-type predicate. `getLibrary` changes both in place on
 * every call and never restores them, so one call's options leak into the
 * next; this module states that as functions on the option values, and
 * the `PhotoLibraryService` class (module Service) holds them as fields.
 */
module FetchConfiguration {
  import opened Util

  /** `PHAssetSourceType`. */
  datatype SourceType = UserLibrary | ITunesSynced | CloudShared

  /** `PHAssetMediaType`. */
  datatype MediaKind = UnknownKind | Image | Video | Audio

  /** Every source type, as the service's initialiser sets them. */
  const AllSources: set<SourceType> := {UserLibrary, ITunesSynced, CloudShared}

  /** The source types without the iCloud shared library. */
  const LocalSources: set<SourceType> := {UserLibrary, ITunesSynced}

  /**
   * The part of `PHFetchOptions` that `getLibrary` touches: the included
   * source types and the media-type predicate (`None` when no predicate is
   * set, so every media type is fetched).
   */
  datatype Query = Query(sourceTypes: set<SourceType>, mediaTypes: Option<set<MediaKind>>)

  /** The options right after the service is created. */
  const InitialQuery := Query(AllSources, None)

  /** The fields of the caller's options that decide the query. */
  datatype Filter = Filter(includeImages: bool, includeVideos: bool, includeCloudData: bool)

  /** The media types a filter asks for. */
  function Requested(f: Filter): (kinds: set<MediaKind>)
    ensures Image in kinds <==> f.includeImages
    ensures Video in kinds <==> f.includeVideos
    ensures kinds <= {Image, Video}
  {
    (if f.includeImages then {Image} else {}) + (if f.includeVideos then {Video} else {})
  }

  /**
   * The query after `getLibrary` applied `f` to the query `q` it found:
   * without cloud data the iCloud source is dropped, and with it the source
   * types stay as they were; the predicate is replaced when images or videos
   * are asked for and kept when neither is.
   */
  function Configure(q: Query, f: Filter): (r: Query)
  {
    var sources := if f.includeCloudData then q.sourceTypes else LocalSources;
    var kinds := if f.includeImages || f.includeVideos then Some(Requested(f)) else q.mediaTypes;
    Query(sources, kinds)
  }

  /** The query after a series of `getLibrary` calls on a fresh service. */
  function ConfigureAll(filters: seq<Filter>): Query
  {
    if filters == [] then InitialQuery
    else Configure(ConfigureAll(filters[..|filters| - 1]), filters[|filters| - 1])
  }

  predicate AsksForMedia(f: Filter) { f.includeImages || f.includeVideos }

  // ---------------------------------------------------------------------------
  // Properties

  /** Applying the same options twice is the same as applying them once. */
  lemma ConfigureIdempotent(q: Query, f: Filter)
    ensures Configure(Configure(q, f), f) == Configure(q, f)
  {
  }

  /** A call that asks for no media type and allows cloud data changes nothing. */
  lemma ConfigureNoRequestKeeps(q: Query, f: Filter)
    requires !AsksForMedia(f) && f.includeCloudData
    ensures Configure(q, f) == q
  {
  }

  /** The sources never grow back: they only shrink, and never beyond the local ones. */
  lemma ConfigureSourcesShrink(q: Query, f: Filter)
    requires LocalSources <= q.sourceTypes <= AllSources
    ensures LocalSources <= Configure(q, f).sourceTypes <= q.sourceTypes
  {
  }

  /**
   * iCloud shared assets are fetched after a series of calls exactly when
   * no call so far turned cloud data off: once dropped, the source is never
   * restored.
   */
  lemma {:induction false} CloudSharedSticky(filters: seq<Filter>)
    ensures CloudShared in ConfigureAll(filters).sourceTypes <==>
            forall i :: 0 <= i < |filters| ==> filters[i].includeCloudData
    ensures LocalSources <= ConfigureAll(filters).sourceTypes
  {
    if filters != [] {
      var init := filters[..|filters| - 1];
      CloudSharedSticky(init);
      assert forall i :: 0 <= i < |init| ==> init[i] == filters[i];
    }
  }

  /**
   * The predicate after a series of calls is the one asked for by the last
   * call that asked for images or videos, and none when no call did.
   */
  lemma {:induction false} PredicateFromLastRequest(filters: seq<Filter>)
    ensures ConfigureAll(filters).mediaTypes.None? <==>
            forall i :: 0 <= i < |filters| ==> !AsksForMedia(filters[i])
    ensures forall j :: 0 <= j < |filters| && AsksForMedia(filters[j]) &&
                        (forall i :: j < i < |filters| ==> !AsksForMedia(filters[i])) ==>
                        ConfigureAll(filters).mediaTypes == Some(Requested(filters[j]))
  {
    if filters != [] {
      var init := filters[..|filters| - 1];
      PredicateFromLastRequest(init);
      assert forall i :: 0 <= i < |init| ==> init[i] == filters[i];
    }
  }

  /** The leak made concrete: turning cloud data off once hides it from every later call. */
  lemma CloudDataLeakExample()
    ensures ConfigureAll([Filter(true, false, false), Filter(true, true, true)]) ==
            Query(LocalSources, Some({Image, Video}))
    ensures ConfigureAll([Filter(true, false, true), Filter(false, false, true)]) ==
            Query(AllSources, Some({Image}))
  {
    var a, b := [Filter(true, false, false), Filter(true, true, true)], [Filter(true, false, true), Filter(false, false, true)];
    assert a[..1] == [a[0]] && [a[0]][..0] == [];
    assert Requested(a[0]) == {Image};
    assert ConfigureAll([a[0]]) == Configure(InitialQuery, a[0]) == Query(LocalSources, Some({Image}));
    assert Requested(a[1]) == {Image, Video};
    assert b[..1] == [b[0]] && [b[0]][..0] == [];
    assert Requested(b[0]) == {Image};
    assert ConfigureAll([b[0]]) == Configure(InitialQuery, b[0]) == Query(AllSources, Some({Image}));
  }
}
