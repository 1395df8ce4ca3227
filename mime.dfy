/**
 * MIME type rules of the photo library service: the extension table, the
 * lookup `mimeTypeForPath`, the fallback used when an asset has no file name,
 * and the media category taken from a MIME type (the text before its first `/`).
 */
module MimeTypes {
  import opened Util

  /** The MIME type used for an unknown or missing extension. */
  const OctetStream := "application/octet-stream"

  /** The service's `mimeTypes` table: lower-case extension to MIME type. */
  const Table: map<string, string> := map[
    "flv"  := "video/x-flv",
    "mp4"  := "video/mp4",
    "m3u8" := "application/x-mpegURL",
    "ts"   := "video/MP2T",
    "3gp"  := "video/3gpp",
    "mov"  := "video/quicktime",
    "avi"  := "video/x-msvideo",
    "wmv"  := "video/x-ms-wmv",
    "gif"  := "image/gif",
    "jpg"  := "image/jpeg",
    "jpeg" := "image/jpeg",
    "png"  := "image/png",
    "tiff" := "image/tiff",
    "tif"  := "image/tiff"
  ]

  // ---------------------------------------------------------------------------
  // Lower-casing

  predicate IsUpper(c: char) { 'A' <= c <= 'Z' }

  function LowerChar(c: char): char
  {
    if IsUpper(c) then (c as int + 32) as char else c
  }

  /** `String.lowercased()`, restricted to ASCII letters. */
  function Lowercased(s: string): string
  {
    seq(|s|, i requires 0 <= i < |s| => LowerChar(s[i]))
  }

  lemma LowerCharIdempotent(c: char)
    ensures LowerChar(LowerChar(c)) == LowerChar(c)
  {
  }

  lemma LowercasedIdempotent(s: string)
    ensures Lowercased(Lowercased(s)) == Lowercased(s)
  {
    forall i | 0 <= i < |s| ensures Lowercased(Lowercased(s))[i] == Lowercased(s)[i] {
      LowerCharIdempotent(s[i]);
    }
  }

  lemma LowercasedSlice(s: string, i: nat, j: nat)
    requires i <= j <= |s|
    ensures Lowercased(s[i..j]) == Lowercased(s)[i..j]
  {
  }

  // ---------------------------------------------------------------------------
  // Path extension (Foundation's `NSString.pathExtension`)

  /** The position of the last `c` in `s`, if any. */
  function LastIndexOf(s: string, c: char): (r: Option<nat>)
    ensures r.Some? ==> r.value < |s| && s[r.value] == c
    ensures r.Some? ==> forall k :: r.value < k < |s| ==> s[k] != c
    ensures r.None? ==> forall k :: 0 <= k < |s| ==> s[k] != c
  {
    if |s| == 0 then None
    else if s[|s| - 1] == c then Some(|s| - 1)
    else LastIndexOf(s[..|s| - 1], c)
  }

  /** `s` without the slashes at its end. */
  function StripTrailingSlashes(s: string): (r: string)
    ensures r <= s
    ensures r == [] || r[|r| - 1] != '/'
    ensures forall k :: |r| <= k < |s| ==> s[k] == '/'
  {
    if |s| > 0 && s[|s| - 1] == '/' then StripTrailingSlashes(s[..|s| - 1]) else s
  }

  /** The last path component: what follows the last `/` once trailing slashes are dropped. */
  function LastPathComponent(path: string): (comp: string)
    ensures '/' !in comp
  {
    var p := StripTrailingSlashes(path);
    match LastIndexOf(p, '/')
    case None => p
    case Some(j) => p[j + 1..]
  }

  /**
   * The extension of the last path component: the text after its last `.`,
   * or empty when it has no `.`, when that `.` is its first character (a
   * hidden file) or when it is its last character.
   */
  function PathExtension(path: string): (ext: string)
    ensures '/' !in ext && '.' !in ext
  {
    ComponentExtension(LastPathComponent(path))
  }

  /**
   * A component without an extension: it has no `.`, or ends in `.`, or its
   * only `.` is its first character.
   */
  predicate NoUsableDot(comp: string)
  {
    '.' !in comp || comp[|comp| - 1] == '.' || (comp[0] == '.' && '.' !in comp[1..])
  }

  /**
   * The extension of one path component: when not empty, the text after a
   * `.` that is neither the component's first nor its last character.
   */
  function ComponentExtension(comp: string): (ext: string)
    ensures '.' !in ext
    ensures '/' !in comp ==> '/' !in ext
  {
    match LastIndexOf(comp, '.')
    case None => ""
    case Some(d) => if d == 0 || d == |comp| - 1 then "" else comp[d + 1..]
  }

  /** The table entry of the lower-cased extension, or the default when there is none. */
  function ExtensionMimeType(ext: string): string
  {
    var key := Lowercased(ext);
    if key in Table then Table[key] else OctetStream
  }

  /** `mimeTypeForPath`: the lower-cased extension of the path looked up in the table. */
  function MimeTypeForPath(path: string): string
  {
    ExtensionMimeType(PathExtension(path))
  }

  /** The `mimeType` field of a library item: the lookup on its file name, or the default without one. */
  function ItemMimeType(fileName: Option<string>): (mime: string)
    ensures fileName.None? ==> mime == OctetStream
    ensures fileName.Some? ==> mime == MimeTypeForPath(fileName.value)
  {
    match fileName
    case None => OctetStream
    case Some(name) => MimeTypeForPath(name)
  }

  /** The position of the first `/` at or after `i`, or the length of `mime` when there is none. */
  function SlashIndex(mime: string, i: nat): (j: nat)
    requires i <= |mime|
    ensures i <= j <= |mime|
    ensures j < |mime| ==> mime[j] == '/'
    ensures forall k :: i <= k < j ==> mime[k] != '/'
    decreases |mime| - i
  {
    if i == |mime| || mime[i] == '/' then i else SlashIndex(mime, i + 1)
  }

  /**
   * `mimeType.components(separatedBy: "/").first`: the longest prefix of the
   * MIME type that holds no `/` (the whole text when there is none).
   */
  function MediaType(mime: string): (t: string)
    ensures t <= mime && '/' !in t
    ensures |t| < |mime| ==> mime[|t|] == '/'
  {
    mime[..SlashIndex(mime, 0)]
  }

  // ---------------------------------------------------------------------------
  // Properties

  /** `s` ends in `.` and `ext`, and that `.` is not its first character. */
  predicate EndsWithExtension(s: string, ext: string)
  {
    |ext| + 2 <= |s| && s[|s| - |ext| - 1] == '.' && ext == s[|s| - |ext|..]
  }

  /** A `.`-led suffix of a suffix of `p` is a `.`-led suffix of `p`. */
  lemma SuffixOfSuffix(p: string, comp: string, ext: string)
    requires |comp| <= |p| && comp == p[|p| - |comp|..]
    requires EndsWithExtension(comp, ext)
    ensures EndsWithExtension(p, ext)
  {
    assert comp[|comp| - |ext| - 1] == p[|p| - |ext| - 1];
    assert comp[|comp| - |ext|..] == p[|p| - |ext|..];
  }

  /** The last component is the part of the slash-stripped path after its last `/`. */
  lemma LastPathComponentValue(path: string)
    ensures |LastPathComponent(path)| <= |StripTrailingSlashes(path)|
    ensures LastPathComponent(path) == StripTrailingSlashes(path)[|StripTrailingSlashes(path)| - |LastPathComponent(path)|..]
    ensures |LastPathComponent(path)| < |StripTrailingSlashes(path)| ==>
            StripTrailingSlashes(path)[|StripTrailingSlashes(path)| - |LastPathComponent(path)| - 1] == '/'
  {
    var p := StripTrailingSlashes(path);
    var comp := LastPathComponent(path);
    match LastIndexOf(p, '/')
    case None =>
      assert comp == p;
      assert p[|p| - |comp|..] == p;
    case Some(j) =>
      assert comp == p[j + 1..];
      assert |p| - |comp| == j + 1;
  }

  /**
   * A component's extension is empty exactly when it has no usable `.`, and
   * otherwise is the text after a `.` that is not its first character.
   */
  lemma ComponentExtensionValue(comp: string)
    ensures ComponentExtension(comp) == [] <==> NoUsableDot(comp)
    ensures ComponentExtension(comp) != [] ==> EndsWithExtension(comp, ComponentExtension(comp))
  {
    match LastIndexOf(comp, '.')
    case None =>
    case Some(d) =>
      if d == 0 {
        assert '.' !in comp[1..] by {
          forall k | 0 <= k < |comp| - 1 ensures comp[1..][k] != '.' {
            assert comp[1..][k] == comp[k + 1];
          }
        }
      } else if d < |comp| - 1 {
        assert comp[1..][d - 1] == '.';
      }
  }

  /**
   * The extension of a path is empty exactly when its last component has no
   * usable `.`; otherwise the slash-stripped path ends in `.` and the extension.
   */
  lemma PathExtensionValue(path: string)
    ensures PathExtension(path) == [] <==> NoUsableDot(LastPathComponent(path))
    ensures PathExtension(path) != [] ==> EndsWithExtension(StripTrailingSlashes(path), PathExtension(path))
  {
    var p, comp := StripTrailingSlashes(path), LastPathComponent(path);
    var ext := ComponentExtension(comp);
    assert PathExtension(path) == ext;
    LastPathComponentValue(path);
    ComponentExtensionValue(comp);
    if ext != [] {
      SuffixOfSuffix(p, comp, ext);
    }
  }

  lemma {:induction false} LastIndexOfLowercased(s: string, c: char)
    requires c == '/' || c == '.'
    ensures LastIndexOf(Lowercased(s), c) == LastIndexOf(s, c)
  {
    if |s| > 0 {
      var t := s[..|s| - 1];
      assert Lowercased(s)[..|s| - 1] == Lowercased(t);
      if s[|s| - 1] != c {
        LastIndexOfLowercased(t, c);
      }
    }
  }

  lemma {:induction false} StripTrailingSlashesLowercased(s: string)
    ensures StripTrailingSlashes(Lowercased(s)) == Lowercased(StripTrailingSlashes(s))
  {
    if |s| > 0 && s[|s| - 1] == '/' {
      var t := s[..|s| - 1];
      assert Lowercased(s)[..|s| - 1] == Lowercased(t);
      StripTrailingSlashesLowercased(t);
    } else if |s| > 0 {
      assert Lowercased(s)[|s| - 1] != '/';
    }
  }

  lemma LastPathComponentLowercased(path: string)
    ensures LastPathComponent(Lowercased(path)) == Lowercased(LastPathComponent(path))
  {
    var p := StripTrailingSlashes(path);
    StripTrailingSlashesLowercased(path);
    LastIndexOfLowercased(p, '/');
    if LastIndexOf(p, '/').Some? {
      LowercasedSlice(p, LastIndexOf(p, '/').value + 1, |p|);
    }
  }

  lemma ComponentExtensionLowercased(comp: string)
    ensures ComponentExtension(Lowercased(comp)) == Lowercased(ComponentExtension(comp))
  {
    LastIndexOfLowercased(comp, '.');
    if LastIndexOf(comp, '.').Some? {
      LowercasedSlice(comp, LastIndexOf(comp, '.').value + 1, |comp|);
    }
  }

  lemma PathExtensionLowercased(path: string)
    ensures PathExtension(Lowercased(path)) == Lowercased(PathExtension(path))
  {
    LastPathComponentLowercased(path);
    ComponentExtensionLowercased(LastPathComponent(path));
  }

  /** The lookup ignores letter case: two paths equal up to case get the same MIME type. */
  lemma MimeTypeIgnoresCase(a: string, b: string)
    requires Lowercased(a) == Lowercased(b)
    ensures MimeTypeForPath(a) == MimeTypeForPath(b)
  {
    PathExtensionLowercased(a);
    PathExtensionLowercased(b);
    LowercasedIdempotent(PathExtension(a));
    LowercasedIdempotent(PathExtension(b));
  }

  /** Appending text without `c` does not move the last `c`. */
  lemma {:induction false} LastIndexOfAppend(s: string, t: string, c: char)
    requires c !in t
    ensures LastIndexOf(s + t, c) == LastIndexOf(s, c)
  {
    if t != [] {
      var u := t[..|t| - 1];
      assert (s + t)[..|s + t| - 1] == s + u;
      assert (s + t)[|s + t| - 1] == t[|t| - 1];
      LastIndexOfAppend(s, u, c);
    } else {
      assert s + t == s;
    }
  }

  /** `x.ext`, for `x` not empty and `ext` free of `.`, has its last `.` right after `x`. */
  lemma LastDotOfName(x: string, ext: string)
    requires '.' !in ext
    ensures LastIndexOf(x + "." + ext, '.') == Some(|x|)
  {
    LastIndexOfAppend(x + ".", ext, '.');
  }

  /**
   * A name `base.ext` whose base is not empty and does not end in a slash
   * has extension `ext`.
   */
  lemma PathExtensionOfName(base: string, ext: string)
    requires base != [] && base[|base| - 1] != '/'
    requires ext != [] && '.' !in ext && '/' !in ext
    ensures PathExtension(base + "." + ext) == ext
  {
    var path := base + "." + ext;
    assert path[|path| - 1] == ext[|ext| - 1];
    assert StripTrailingSlashes(path) == path;
    LastIndexOfAppend(base + ".", ext, '/');
    assert (base + ".")[..|base|] == base;
    assert LastIndexOf(path, '/') == LastIndexOf(base, '/');
    var x := match LastIndexOf(base, '/') case None => base case Some(j) => base[j + 1..];
    assert x != [];
    assert LastPathComponent(path) == x + "." + ext;
    LastDotOfName(x, ext);
    assert (x + "." + ext)[|x| + 1..] == ext;
  }

  /**
   * So the MIME type of `base.ext` is the table entry of `ext` lower-cased,
   * or the default when the table has none.
   */
  lemma MimeTypeOfName(base: string, ext: string)
    requires base != [] && base[|base| - 1] != '/'
    requires ext != [] && '.' !in ext && '/' !in ext
    ensures MimeTypeForPath(base + "." + ext) ==
            if Lowercased(ext) in Table then Table[Lowercased(ext)] else OctetStream
  {
    PathExtensionOfName(base, ext);
  }

  lemma JpgEntry()
    ensures ExtensionMimeType("JPG") == "image/jpeg"
  {
    var key := Lowercased("JPG");
    assert key == "jpg" by { assert |key| == 3 && key[0] == 'j' && key[1] == 'p' && key[2] == 'g'; }
  }

  lemma MovEntry()
    ensures ExtensionMimeType("MoV") == "video/quicktime"
  {
    var key := Lowercased("MoV");
    assert key == "mov" by { assert |key| == 3 && key[0] == 'm' && key[1] == 'o' && key[2] == 'v'; }
  }

  lemma PdfEntry()
    ensures ExtensionMimeType("pdf") == OctetStream
  {
    var key := Lowercased("pdf");
    assert key == "pdf" by { assert |key| == 3 && key[0] == 'p' && key[1] == 'd' && key[2] == 'f'; }
  }

  lemma HeicEntry()
    ensures ExtensionMimeType("HEIC") == OctetStream
  {
    var key := Lowercased("HEIC");
    assert key == "heic" by { assert |key| == 4 && key[0] == 'h' && key[1] == 'e' && key[2] == 'i' && key[3] == 'c'; }
  }

  /** An upper-case extension is found: `IMG.JPG` is a JPEG image. */
  lemma UpperCaseJpegExample(path: string)
    requires path == "IMG.JPG"
    ensures MimeTypeForPath(path) == "image/jpeg"
  {
    assert path == "IMG" + "." + "JPG";
    PathExtensionOfName("IMG", "JPG");
    JpgEntry();
  }

  /** Mixed case too: `clip.MoV` is a QuickTime movie. */
  lemma MixedCaseMovieExample(path: string)
    requires path == "clip.MoV"
    ensures MimeTypeForPath(path) == "video/quicktime"
  {
    assert path == "clip" + "." + "MoV";
    PathExtensionOfName("clip", "MoV");
    MovEntry();
  }

  /** An extension missing from the table falls back to the default. */
  lemma UnknownExtensionExample(path: string)
    requires path == "scan.pdf"
    ensures MimeTypeForPath(path) == OctetStream
  {
    assert path == "scan" + "." + "pdf";
    PathExtensionOfName("scan", "pdf");
    PdfEntry();
  }

  /** HEIC, the camera's usual format, is not in the table. */
  lemma HeicExample(path: string)
    requires path == "IMG.HEIC"
    ensures MimeTypeForPath(path) == OctetStream
  {
    assert path == "IMG" + "." + "HEIC";
    PathExtensionOfName("IMG", "HEIC");
    HeicEntry();
  }

  /**
   * A missing extension gives the default: the last component has no `.`,
   * ends in `.`, or has its only `.` first (a hidden file).
   */
  lemma MissingExtension(path: string)
    requires NoUsableDot(LastPathComponent(path))
    ensures PathExtension(path) == ""
    ensures MimeTypeForPath(path) == OctetStream
  {
    ComponentExtensionValue(LastPathComponent(path));
    assert Lowercased("") == "";
    assert "" !in Table;
  }

  /** A path without any `.` has no extension, whatever its directories. */
  lemma NoDotNoExtension(path: string)
    requires '.' !in path
    ensures PathExtension(path) == ""
    ensures MimeTypeForPath(path) == OctetStream
  {
    var p := StripTrailingSlashes(path);
    var comp := LastPathComponent(path);
    LastPathComponentValue(path);
    assert '.' !in comp by {
      forall k | 0 <= k < |comp| ensures comp[k] != '.' {
        assert comp[k] == path[|p| - |comp| + k];
      }
    }
    MissingExtension(path);
  }

  /** A hidden file whose only `.` comes first has no extension. */
  lemma HiddenFileExample(path: string)
    requires path == ".profile"
    ensures MimeTypeForPath(path) == OctetStream
  {
    assert StripTrailingSlashes(path) == path;
    assert LastPathComponent(path) == path by {
      assert LastIndexOf(path, '/') == None;
    }
    assert '.' !in path[1..];
    MissingExtension(path);
  }

  /** A name without any `.` has no extension. */
  lemma NoExtensionExample(path: string)
    requires path == "notes"
    ensures MimeTypeForPath(path) == OctetStream
  {
    assert StripTrailingSlashes(path) == path;
    assert LastIndexOf(path, '/') == None;
    assert LastIndexOf(path, '.') == None;
  }

  /** The media type is the text before the first `/`. */
  lemma MediaTypeAt(mime: string, i: nat)
    requires i < |mime| && mime[i] == '/' && '/' !in mime[..i]
    ensures MediaType(mime) == mime[..i]
  {
  }

  lemma TableValues(ext: string)
    requires ext in Table
    ensures Table[ext] in {"video/x-flv", "video/mp4", "application/x-mpegURL", "video/MP2T",
                           "video/3gpp", "video/quicktime", "video/x-msvideo", "video/x-ms-wmv",
                           "image/gif", "image/jpeg", "image/png", "image/tiff"}
  {
  }

  predicate HasKnownCategoryPrefix(mime: string)
  {
    (|mime| > 6 && (mime[..6] == "image/" || mime[..6] == "video/")) ||
    (|mime| > 12 && mime[..12] == "application/")
  }

  lemma CategoryOfKnownPrefix(mime: string)
    requires HasKnownCategoryPrefix(mime)
    ensures MediaType(mime) in Categories
  {
    if |mime| > 6 && mime[..6] == "image/" {
      assert mime[..5] == mime[..6][..5] == "image";
      MediaTypeAt(mime, 5);
    } else if |mime| > 6 && mime[..6] == "video/" {
      assert mime[..5] == mime[..6][..5] == "video";
      MediaTypeAt(mime, 5);
    } else {
      assert mime[..11] == mime[..12][..11] == "application";
      MediaTypeAt(mime, 11);
    }
  }

  lemma TablePrefixes(ext: string)
    requires ext in Table
    ensures HasKnownCategoryPrefix(Table[ext])
  {
    TableValues(ext);
  }

  const Categories: set<string> := {"image", "video", "application"}

  lemma OctetStreamCategory()
    ensures MediaType(OctetStream) == "application"
  {
    assert OctetStream[11] == '/' && OctetStream[..11] == "application";
    MediaTypeAt(OctetStream, 11);
  }

  /** The lookup yields a value of the table or the default. */
  lemma MimeTypeFromTable(path: string)
    ensures MimeTypeForPath(path) == OctetStream || MimeTypeForPath(path) in Table.Values
  {
  }

  /**
   * Every MIME type the lookup yields falls in the `image`, `video` or
   * `application` category; in particular never in `audio`.
   */
  lemma MimeTypeCategories(path: string)
    ensures MediaType(MimeTypeForPath(path)) in Categories
  {
    var ext := Lowercased(PathExtension(path));
    if ext in Table {
      TablePrefixes(ext);
      CategoryOfKnownPrefix(Table[ext]);
    } else {
      OctetStreamCategory();
    }
  }
}
