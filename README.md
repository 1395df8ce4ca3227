# Photo library service: chunked library export, fetch options, MIME rules

This project is a Dafny model of the iOS `PhotoLibraryService` of a Cordova
photo-library plugin, together with proofs about that model. The model's core
is `getLibrary`, which runs in three steps:

1. It edits the service's shared fetch options with the caller's filters.
2. It fetches the matching assets.
3. It walks through them in order, turning each asset into a library item.
   It hands the items to the caller in chunks, through a callback of the form
   `(chunk, chunkNum, isLast)`.

The model also covers the rules the export depends on:

- how a file name maps to a MIME type;
- how a MIME type's category decides which file path an item gets;
- the data-URL reader used when saving images;
- the permission check;
- the choice between PNG and JPEG when encoding image data.

The modules follow the structure of the service:

| file | module | models |
|---|---|---|
| `util.dfy` | `Util` | `Option`, `Result`, bytes |
| `mime.dfy` | `MimeTypes` | the extension table, `pathExtension` plus lowercasing, `mimeTypeForPath`, the category before the `/` |
| `status.dfy` | `Status` | `hasPermission`, `imageHasAlpha`, `image2PictureData` |
| `data_url.dfy` | `DataUrl` | the `^data:.+?;base64,` pattern and `getDataFromURL` |
| `fetch.dfy` | `FetchConfiguration` | how `getLibrary` rewrites the source types and the media predicate |
| `items.dfy` | `LibraryItems` | assets, `assetToLibraryItem`, the fetch, `getCompleteInfo` |
| `chunks.dfy` | `ChunkedEnumeration` | the chunk loop: a functional reference `Run`, plus the loop `EnumerateChunks` proved equal to it |
| `service.dfy` | `Service` | the `PhotoLibraryService` class, with the fetch options as fields |

The model follows the code as written, including the cases where the code
does not do what a caller would expect:

- **An empty fetch result produces no callback at all.** The closure never
  runs, so not even one empty final chunk is delivered.
- **`maxItems` does not stop the enumeration.** The guard only returns from
  the closure and never sets `stop`. Once `maxItems` is reached, every later
  index makes the same final callback again. That repeated chunk is empty
  when a count flush happened just before the limit.
- **An item is sometimes never resolved.** This happens when `requestAVAsset`
  gives back neither a URL asset nor a composition, for example nil. Then
  `getCompleteInfo` never calls back, and none of `getLibrary`'s flush rules
  runs for that item. If that item is the last one and `maxItems` does not
  truncate the run, no callback is ever marked final
  (`UnresolvedLastItemNeverFinal`).
- **Skipping cloud data is sticky.** A call with `includeCloudData == false`
  removes the iCloud shared source from the singleton's fetch options, and no
  later call restores it. A call that asks for neither images nor videos
  keeps whatever predicate the previous call set.

Two things the code leaves to the platform are given as parameters:

- `elapsed(i)`: whether the chunk timer has run out at index `i`.
- `resolves(i)`: whether index `i`'s file-path resolution calls back.
  `Service` derives this from `getCompleteInfo`.

## Model

| member | source | states |
|---|---|---|
| MimeTypes.StripTrailingSlashes | src/ios/PhotoLibraryService.swift:187 | the result is a prefix of the path that does not end in `/`, and only `/` characters were removed |
| MimeTypes.LastPathComponentValue | src/ios/PhotoLibraryService.swift:187 | the last component is the end of the slash-stripped path, free of `/`, and preceded by `/` unless it is the whole stripped path |
| MimeTypes.PathExtensionValue | src/ios/PhotoLibraryService.swift:187 | the extension is empty exactly when the last component has no `.`, ends in `.`, or has its only `.` first; otherwise the slash-stripped path ends in `.` and the extension, which holds no `.` or `/` |
| MimeTypes.ComponentExtensionValue | src/ios/PhotoLibraryService.swift:187 | the extension of one component is empty exactly when it has no usable `.`; otherwise it is the text after the component's last `.`, which is not the first character |
| MimeTypes.PathExtensionOfName | src/ios/PhotoLibraryService.swift:187 | for `base.ext` with a non-empty `ext` free of `.` and `/`, and a base not ending in `/`, the extension is exactly `ext` |
| MimeTypes.PathExtensionLowercased | src/ios/PhotoLibraryService.swift:187 | taking the extension and lowercasing commute, so lowercasing the whole path first gives the same lookup key |
| MimeTypes.Lowercased | src/ios/PhotoLibraryService.swift:187 | definition: ASCII lowercasing, character by character; its properties are `LowercasedIdempotent`, `LowercasedSlice` and `MimeTypeIgnoresCase` |
| MimeTypes.PathExtension | src/ios/PhotoLibraryService.swift:187 | the extension contains neither `/` nor `.`; its value is `PathExtensionValue` |
| MimeTypes.LowercasedIdempotent | src/ios/PhotoLibraryService.swift:187 | lowercasing twice is lowercasing once |
| MimeTypes.MimeTypeForPath | src/ios/PhotoLibraryService.swift:186-189 | definition: the table entry of the lowercased extension, or the default; its properties are `MimeTypeFromTable`, `MimeTypeIgnoresCase`, `MimeTypeOfName`, `MissingExtension` and `MimeTypeCategories` |
| MimeTypes.MimeTypeFromTable | src/ios/PhotoLibraryService.swift:186-189 | the MIME type of any path is either one of the table's values or `application/octet-stream` |
| MimeTypes.MimeTypeIgnoresCase | src/ios/PhotoLibraryService.swift:186-189 | two paths that differ only in letter case get the same MIME type |
| MimeTypes.MimeTypeOfName | src/ios/PhotoLibraryService.swift:186-189 | for `base.ext`, the MIME type is the table entry for lowercased `ext`, or the default when the table has no entry |
| MimeTypes.UpperCaseJpegExample | src/ios/PhotoLibraryService.swift:49 | `IMG.JPG` maps to `image/jpeg` |
| MimeTypes.MixedCaseMovieExample | src/ios/PhotoLibraryService.swift:45 | `clip.MoV` maps to `video/quicktime` |
| MimeTypes.UnknownExtensionExample | src/ios/PhotoLibraryService.swift:188 | `scan.pdf` falls back to `application/octet-stream` |
| MimeTypes.HeicExample | src/ios/PhotoLibraryService.swift:39-54 | `IMG.HEIC` is not in the table and falls back to `application/octet-stream` |
| MimeTypes.MissingExtension | src/ios/PhotoLibraryService.swift:186-189 | a path whose last component has no `.`, ends in `.`, or has its only `.` first has an empty extension and gets `application/octet-stream` |
| MimeTypes.NoDotNoExtension | src/ios/PhotoLibraryService.swift:186-189 | any path without a `.` has an empty extension and gets `application/octet-stream` |
| MimeTypes.HiddenFileExample | src/ios/PhotoLibraryService.swift:186-189 | the hidden file `.profile` gets `application/octet-stream` |
| MimeTypes.NoExtensionExample | src/ios/PhotoLibraryService.swift:188 | the name `notes` falls back to `application/octet-stream` |
| MimeTypes.ItemMimeType | src/ios/PhotoLibraryService.swift:262-266 | no file name gives `application/octet-stream`; otherwise the result is `mimeTypeForPath` of the name |
| MimeTypes.SlashIndex | src/ios/PhotoLibraryService.swift:203 | the index of the first `/` at or after `i`, or the length when there is none |
| MimeTypes.MediaType | src/ios/PhotoLibraryService.swift:203 | the category is the prefix before the first `/`: it contains no `/` and is followed by `/` when shorter than the MIME type |
| MimeTypes.TableValues | src/ios/PhotoLibraryService.swift:39-54 | every table value is one of the twelve listed MIME types |
| MimeTypes.TablePrefixes | src/ios/PhotoLibraryService.swift:39-54 | every table value starts with `image/`, `video/` or `application/` |
| MimeTypes.OctetStreamCategory | src/ios/PhotoLibraryService.swift:188 | the category of the default type is `application` |
| MimeTypes.MimeTypeCategories | src/ios/PhotoLibraryService.swift:186-189 | every MIME type an item can get has category `image`, `video` or `application`, so the `audio` branch of `getCompleteInfo` is unreachable from `getLibrary` |
| Status.HasPermission | src/ios/PhotoLibraryService.swift:100-107 | permission only ever means authorized or limited; authorized always grants; limited grants exactly on iOS 14 and later |
| Status.PermissionIos14Weaker | src/ios/PhotoLibraryService.swift:100-107 | the iOS 14 check grants whatever the older check grants, and additionally only `limited` |
| Status.ImageHasAlpha | src/ios/PhotoLibraryService.swift:694-697 | an image has alpha exactly when its alpha info is first, last, premultiplied first or premultiplied last; a missing CGImage means no alpha |
| Status.ImageToPictureData | src/ios/PhotoLibraryService.swift:671-692 | with alpha the result is PNG data with `image/png`, without it JPEG data with `image/jpeg`, and nil when that encoding fails |
| Status.PictureMimeMatchesTable | src/ios/PhotoLibraryService.swift:679-686 | the MIME type of encoded picture data is the table's entry for `png` or `jpg` |
| DataUrl.ScanMarker | src/ios/PhotoLibraryService.swift:58 | the lazy `.+?` scan: it finds the first position from `j` where `;base64,` matches, and no match is missed |
| DataUrl.MatchLength | src/ios/PhotoLibraryService.swift:58 | the match length is that of the shortest match of `^data:.+?;base64,`, at least 14; it is `None` exactly when the pattern has no match |
| DataUrl.GetDataFromUrl | src/ios/PhotoLibraryService.swift:643-669 | for a data URL: a parse error without a match, otherwise the decoding of what follows the match; for any other URL: the URL-decode error, the read error, or the file content |
| DataUrl.DataUrlPayload | src/ios/PhotoLibraryService.swift:645-656 | a data URL fails to parse exactly when no marker can match, and otherwise decodes what follows the first match |
| DataUrl.ScanSkips | src/ios/PhotoLibraryService.swift:58 | the scan passes over text without `;` and without line terminators |
| DataUrl.WellFormedDataUrl | src/ios/PhotoLibraryService.swift:645-656 | `data:<type>;base64,<payload>`, with a non-empty type free of `;` and line breaks, decodes exactly `<payload>` |
| DataUrl.PngDataUrlExample | src/ios/PhotoLibraryService.swift:645-656 | `data:image/png;base64,iVBO` decodes `iVBO` |
| DataUrl.NoMarkerNoMatch | src/ios/PhotoLibraryService.swift:58 | a `data:` URL with no `;` from the second character after `data:` on (index 6 onward) cannot match the pattern |
| DataUrl.EmptyMediaType | src/ios/PhotoLibraryService.swift:58 | `data:;base64,<payload>` with a payload free of `;` is a parse error, because `.+?` needs at least one character |
| DataUrl.EmptyMediaTypeExample | src/ios/PhotoLibraryService.swift:58 | `data:;base64,AAAA` does not parse, because `.+?` needs at least one character |
| DataUrl.LineBreakExample | src/ios/PhotoLibraryService.swift:58 | a line break before the marker makes the data URL unparsable |
| DataUrl.FirstMarkerExample | src/ios/PhotoLibraryService.swift:58 | with two markers, the payload starts after the first one |
| FetchConfiguration.Configure | src/ios/PhotoLibraryService.swift:111-133 | definition of how one call rewrites the fetch options; its properties are `ConfigureIdempotent`, `ConfigureNoRequestKeeps`, `ConfigureSourcesShrink`, `CloudSharedSticky` and `PredicateFromLastRequest` |
| FetchConfiguration.Requested | src/ios/PhotoLibraryService.swift:117-133 | the predicate lets images through exactly when images are asked for, videos exactly when videos are, and nothing else |
| FetchConfiguration.ConfigureIdempotent | src/ios/PhotoLibraryService.swift:111-133 | applying the same options twice leaves the fetch options as applying them once |
| FetchConfiguration.ConfigureNoRequestKeeps | src/ios/PhotoLibraryService.swift:111-133 | with cloud data and neither images nor videos, the fetch options are left exactly as found |
| FetchConfiguration.ConfigureSourcesShrink | src/ios/PhotoLibraryService.swift:111-116 | the source types only ever shrink, and never lose the user library or iTunes-synced sources |
| FetchConfiguration.CloudSharedSticky | src/ios/PhotoLibraryService.swift:111-116 | after any series of calls, the iCloud shared source is included exactly when no call left out cloud data |
| FetchConfiguration.PredicateFromLastRequest | src/ios/PhotoLibraryService.swift:117-133 | after a series of calls, the predicate is unset exactly when no call asked for images or videos, and otherwise comes from the last call that did |
| FetchConfiguration.CloudDataLeakExample | src/ios/PhotoLibraryService.swift:111-133 | a call without cloud data followed by one with it still fetches without iCloud; a later call without images or videos keeps the earlier image predicate |
| LibraryItems.ToLibraryItem | src/ios/PhotoLibraryService.swift:254-290 | the item carries the asset's identifier, the chosen file name and its MIME type, the asset's pixel width and height, album ids exactly when asked for, and no file path yet |
| LibraryItems.FetchAssets | src/ios/PhotoLibraryService.swift:135 | the fetch returns exactly the library's assets that the source types and predicate admit |
| LibraryItems.FetchAssetsPrefix | src/ios/PhotoLibraryService.swift:135 | the fetch keeps the library's order: fetching a split library is fetching each part |
| LibraryItems.CompleteInfo | src/ios/PhotoLibraryService.swift:192-251 | an id not found gives nil; only image and video categories get a path; an image gets its temporary file or nil; a video gets the path of its URL asset or of its composition, and never calls back when its asset is neither; audio and every other category give nil |
| LibraryItems.ExportItem | src/ios/PhotoLibraryService.swift:163-169 | the exported item is the projected item with only its file path patched in, and that path is the one `getCompleteInfo` completes with (none when it never calls back) |
| LibraryItems.CompletionFires | src/ios/PhotoLibraryService.swift:227-241 | resolution calls back unless the item is a video whose asset is neither a URL asset nor a composition |
| LibraryItems.ExportedPathNeedsImageOrVideo | src/ios/PhotoLibraryService.swift:201-250 | an exported item's category is image, video or application, and only image or video items get a path |
| LibraryItems.OctetStreamItemGetsNoPath | src/ios/PhotoLibraryService.swift:243-249 | an item with the default MIME type never gets a path |
| LibraryItems.HeicPhotoGetsNoPath | src/ios/PhotoLibraryService.swift:262-266 | an `IMG.HEIC` photo is exported as `application/octet-stream` without a path |
| ChunkedEnumeration.Visit | src/ios/PhotoLibraryService.swift:158-180 | definition of the closure body for one index: the truncation guard, the append, the final callback and the flush rules; its properties are the lemmas below |
| ChunkedEnumeration.Run | src/ios/PhotoLibraryService.swift:156-181 | definition of the enumeration state after the first `i` indices; its properties are the lemmas below, through `RunShaped` and `RunSized` |
| ChunkedEnumeration.EnumerateChunks | src/ios/PhotoLibraryService.swift:152-181 | the loop makes exactly the callbacks of the reference enumeration `Calls`, whose properties are the lemmas below |
| ChunkedEnumeration.CallsShape | src/ios/PhotoLibraryService.swift:152-181 | the first callbacks are flushes of non-empty chunks, numbered 0, 1, 2, and so on; they are followed by one final callback per truncated index, or one for the resolved last item, all identical; when there is a final callback, the chunks together are exactly the first `Limit(n)` items, in order: the first `maxItems` when `0 < maxItems < n`, otherwise all `n` |
| ChunkedEnumeration.EmptyFetchNoCalls | src/ios/PhotoLibraryService.swift:156 | an empty fetch result makes no callback |
| ChunkedEnumeration.OrderAndCompleteness | src/ios/PhotoLibraryService.swift:163-172 | without truncation, and when the last item resolves, the chunks concatenate to the fetch result and only the last callback is final |
| ChunkedEnumeration.ChunkNumbering | src/ios/PhotoLibraryService.swift:154-176 | a flush carries its position; each callback's number is the previous one's plus one after a flush; final callbacks carry the number of flushes before them |
| ChunkedEnumeration.CountChunkSizes | src/ios/PhotoLibraryService.swift:171-177 | with a count threshold `k`, no time rule, no truncation, a non-empty fetch and every item calling back: every flushed chunk has `k` items, the final one between 1 and `k`, and the number of callbacks is the least `c` with `n <= c*k` |
| ChunkedEnumeration.SevenItemsInThrees | src/ios/PhotoLibraryService.swift:171-177 | seven items in chunks of three give sizes 3, 3, 1, numbered 0, 1, 2, only the last final |
| ChunkedEnumeration.SixItemsInThrees | src/ios/PhotoLibraryService.swift:171-177 | six items in chunks of three give sizes 3, 3, numbered 0, 1, the second final |
| ChunkedEnumeration.SingleChunk | src/ios/PhotoLibraryService.swift:171-174 | without a count or time rule, without truncation, for a non-empty fetch whose last item calls back, there is exactly one callback: every item, chunk 0, final |
| ChunkedEnumeration.Truncation | src/ios/PhotoLibraryService.swift:158-177 | past `maxItems`, nothing beyond the first `maxItems` items is emitted; the final callback repeats once per remaining index, and when a count threshold is set and every kept item calls back, its chunk is smaller than the threshold; with a count threshold `k`, no time rule and every kept item calling back, every flushed chunk has exactly `k` items |
| ChunkedEnumeration.TruncationEmptyFinalChunk | src/ios/PhotoLibraryService.swift:158-177 | three items, `maxItems` 2 and chunks of 2 give one full flush, then one empty final chunk |
| ChunkedEnumeration.UnresolvedLastItemNeverFinal | src/ios/PhotoLibraryService.swift:167-172 | without truncation, when the last item's resolution never calls back, no callback is final |
| Service.ExportAll | src/ios/PhotoLibraryService.swift:163 | one item per fetched asset, in fetch order: the exported item of that asset, so with its identifier and MIME type |
| Service.PhotoLibraryService.constructor | src/ios/PhotoLibraryService.swift:62-68 | the fresh service fetches every source type with no predicate |
| Service.PhotoLibraryService.ConfigureFetch | src/ios/PhotoLibraryService.swift:111-133 | the new fetch options are `Configure` of the old ones; the iCloud source never comes back; the predicate is kept when neither images nor videos are asked for |
| Service.PhotoLibraryService.GetLibrary | src/ios/PhotoLibraryService.swift:109-181 | the fetch options are updated first, then the callbacks are the chunked enumeration of the items exported for the fetch with the updated options |
| Service.CloudAssetsStayExcluded | src/ios/PhotoLibraryService.swift:111-135 | once any call left out cloud data, no later fetch on that service returns an iCloud shared asset |

## Left out

- The Photos, AVFoundation and UIKit calls are not modelled directly. Fetching, image-data requests, `requestAVAsset` and image encoding become inputs: the asset records, `AssetFiles`, and optional PNG or JPEG bytes.
- Writing image data to a temporary file is not modelled. It and its UUID file name become the path `imageFile`, and a failed write is not modelled.
- Asynchronous completion is not modelled. Resolution is taken to call back, or not, before the next index runs, in index order; what really happens when callbacks arrive late or out of order is not modelled.
- The wall clock is the oracle `elapsed`, and `chunkStartTime` is not modelled separately.
- ChunkedEnumeration.CountChunkSizes: it is stated only without truncation and only when every item's resolution calls back. Under truncation, the flushed-chunk sizes are stated by `Truncation`, and the callback count is not stated. After an unresolved item the chunk may exceed `itemsInChunk`, and the count rule, which tests `==`, then never fires again in that chunk. No size lemma is stated for that case.
- The creation date, its `DateFormatter` format, latitude and longitude of `assetToLibraryItem` are not modelled. They do not affect chunking or paths.
- Album membership is an input list. The per-collection album queries are not modelled.
- LibraryItems.CompleteInfo: for a composition, the path is taken to be already the last `;`-separated part of the sandbox token. The token split is not modelled.
- Lowercasing covers ASCII letters only. Swift's Unicode `lowercased()` is not modelled. Table keys are ASCII, so only non-ASCII extensions could behave differently.
- `pathExtension` follows Foundation's rules: trailing slashes are ignored, the extension is what follows the last `.` of the last component, and a component whose last `.` is its first or last character has no extension. Foundation's other path normalisations are not modelled.
- The regex range `NSMakeRange(0, url.count)` counts Characters, not UTF-16 units. The model matches against the whole string. The searched range differs whenever a Character takes more than one UTF-16 unit: a character outside the Basic Multilingual Plane, or a Character made of several scalars, such as CRLF or a letter with combining marks.
- The model's strings are sequences of scalars, not Swift Characters. `hasPrefix("data:")` compares Characters, so in Swift `data:` followed by a combining mark takes the non-data branch. The model, which compares scalars, takes the data branch.
- Base64 decoding and `URL(string:)` are parameters, and `Data(contentsOf:)` is reading through a parameter.
- The `#available(iOS 9.0, *)` guards are taken to hold. The iOS 14 check is a parameter of `HasPermission`.
- `requestAuthorization`, `getAlbums`, `getThumbnail`, `getPhoto`, `getLibraryItem`, `getVideo`, `saveImage`, `saveVideo`, `getOrCreateAlbum`, `stopCaching` and the image-caching manager are not part of this model. They are separate operations outside the chunked export.
- Duplicate asset identifiers are not considered. The lookup by identifier in `getCompleteInfo` is taken to find the asset being exported.
- The sort by creation date, newest first, is not modelled. It is taken to be the order of the library sequence.
