/**
 * `getDataFromURL`: the bytes behind the URL given to `saveImage`. A `data:`
 * URL is matched against the pattern `^data:.+?;base64,` (a loose form of the
 * `data` URL scheme of RFC 2397, section 3) and the text after the shortest
 * match is base64-decoded; any other URL is read through Foundation.
 */
module DataUrl {
  import opened Util

  const Scheme := "data:"
  const Marker := ";base64,"

  const ParseError := "The dataURL could not be parsed"
  const DecodeError := "The dataURL could not be decoded"

  /** The characters that the regular-expression dot does not match (ICU's line terminators). */
  predicate IsLineTerminator(c: char)
  {
    c == '\n' || c == '\U{000B}' || c == '\U{000C}' || c == '\r' ||
    c == '\U{0085}' || c == '\U{2028}' || c == '\U{2029}'
  }

  predicate HasPrefix(s: string, prefix: string)
  {
    prefix <= s
  }

  /**
   * The pattern matches the first `j` + 8 characters of `url`: `data:`, then
   * `url[5..j]` (at least one character, none a line terminator) matched by
   * `.+?`, then `;base64,` at `j`.
   */
  ghost predicate MatchesUpTo(url: string, j: int)
  {
    HasPrefix(url, Scheme) && 6 <= j && j + |Marker| <= |url| &&
    url[j..j + |Marker|] == Marker &&
    forall k :: 5 <= k < j ==> !IsLineTerminator(url[k])
  }

  /**
   * The lazy scan of `.+?` from position `j`: the first position at or after
   * `j` where `;base64,` starts, unless a line terminator comes first.
   */
  function ScanMarker(url: string, j: nat): (r: Option<nat>)
    requires HasPrefix(url, Scheme) && 6 <= j <= |url|
    requires forall k :: 5 <= k < j ==> !IsLineTerminator(url[k])
    ensures r.Some? ==> j <= r.value && MatchesUpTo(url, r.value)
    ensures r.Some? ==> forall i :: j <= i < r.value ==> !MatchesUpTo(url, i)
    ensures r.None? ==> forall i :: j <= i ==> !MatchesUpTo(url, i)
    decreases |url| - j
  {
    if j + |Marker| > |url| then None
    else if url[j..j + |Marker|] == Marker then Some(j)
    else if IsLineTerminator(url[j]) then None
    else ScanMarker(url, j + 1)
  }

  /**
   * The length of the shortest match of `^data:.+?;base64,` at the start of
   * `url`, or `None` when the pattern does not match.
   */
  function MatchLength(url: string): (r: Option<nat>)
    ensures r.Some? ==> r.value >= 14 && MatchesUpTo(url, r.value - |Marker|)
    ensures r.Some? ==> forall j :: j < r.value - |Marker| ==> !MatchesUpTo(url, j)
    ensures r.None? ==> forall j :: !MatchesUpTo(url, j)
  {
    if !HasPrefix(url, Scheme) || |url| < 6 || IsLineTerminator(url[5]) then None
    else match ScanMarker(url, 6)
      case None => None
      case Some(j) => Some(j + |Marker|)
  }

  /**
   * `getDataFromURL`. `decode` is Foundation's base64 decoder, `parseUrl`
   * stands for `URL(string:)` succeeding, and `read` for
   * `Data(contentsOf:)` on that URL; all three are the platform's.
   */
  function GetDataFromUrl(url: string, decode: string -> Option<Bytes>,
                          parseUrl: string -> bool, read: string -> Option<Bytes>): (r: Result<Bytes>)
    ensures HasPrefix(url, Scheme) && MatchLength(url).None? ==> r == Failure(ParseError)
    ensures HasPrefix(url, Scheme) && MatchLength(url).Some? ==>
              var payload := url[MatchLength(url).value..];
              r == if decode(payload).Some? then Success(decode(payload).value) else Failure(DecodeError)
    ensures !HasPrefix(url, Scheme) ==>
              r == if !parseUrl(url) then Failure("The url could not be decoded: " + url)
                   else if read(url).None? then Failure("The url could not be read: " + url)
                   else Success(read(url).value)
  {
    if HasPrefix(url, Scheme) then
      match MatchLength(url)
      case None => Failure(ParseError)
      case Some(dataPos) =>
        match decode(url[dataPos..])
        case None => Failure(DecodeError)
        case Some(decoded) => Success(decoded)
    else if !parseUrl(url) then Failure("The url could not be decoded: " + url)
    else match read(url)
      case None => Failure("The url could not be read: " + url)
      case Some(content) => Success(content)
  }

  // ---------------------------------------------------------------------------
  // Properties

  /**
   * A `data:` URL parses exactly when some `;base64,` follows at least one
   * character after `data:` with no line terminator in between; the payload
   * handed to the decoder is exactly the text after the first such marker.
   */
  lemma DataUrlPayload(url: string, decode: string -> Option<Bytes>,
                       parseUrl: string -> bool, read: string -> Option<Bytes>)
    requires HasPrefix(url, Scheme)
    ensures GetDataFromUrl(url, decode, parseUrl, read) == Failure(ParseError) <==>
            forall j :: !MatchesUpTo(url, j)
    ensures forall j :: MatchesUpTo(url, j) && (forall i :: i < j ==> !MatchesUpTo(url, i)) ==>
            GetDataFromUrl(url, decode, parseUrl, read) ==
              if decode(url[j + |Marker|..]).Some? then Success(decode(url[j + |Marker|..]).value)
              else Failure(DecodeError)
  {
    match MatchLength(url)
    case None =>
    case Some(n) =>
      assert MatchesUpTo(url, n - |Marker|);
  }

  /** One step of the lazy scan past a character that is neither `;` nor a line terminator. */
  lemma ScanStep(url: string, j: nat)
    requires HasPrefix(url, Scheme) && 6 <= j && j + |Marker| <= |url|
    requires forall k :: 5 <= k < j ==> !IsLineTerminator(url[k])
    requires url[j] != ';' && !IsLineTerminator(url[j])
    ensures ScanMarker(url, j) == ScanMarker(url, j + 1)
  {
    assert url[j..j + |Marker|][0] != Marker[0];
  }

  lemma {:induction false} ScanSkips(url: string, j: nat, e: nat)
    requires HasPrefix(url, Scheme) && 6 <= j <= e && e + |Marker| <= |url|
    requires forall k :: 5 <= k < e ==> !IsLineTerminator(url[k])
    requires forall k :: j <= k < e ==> url[k] != ';'
    ensures ScanMarker(url, j) == ScanMarker(url, e)
    decreases e - j
  {
    if j < e {
      ScanStep(url, j);
      ScanSkips(url, j + 1, e);
    }
  }

  /**
   * A URL of the form `data:<media type>;base64,<payload>`, whose media type
   * is not empty and holds neither `;` nor a line terminator, hands exactly
   * `<payload>` to the decoder.
   */
  lemma WellFormedDataUrl(mediaType: string, payload: string, decode: string -> Option<Bytes>,
                          parseUrl: string -> bool, read: string -> Option<Bytes>)
    requires mediaType != [] && ';' !in mediaType
    requires forall c :: c in mediaType ==> !IsLineTerminator(c)
    ensures MatchLength(Scheme + mediaType + Marker + payload) == Some(|Scheme| + |mediaType| + |Marker|)
    ensures GetDataFromUrl(Scheme + mediaType + Marker + payload, decode, parseUrl, read) ==
            if decode(payload).Some? then Success(decode(payload).value) else Failure(DecodeError)
  {
    var url := Scheme + mediaType + Marker + payload;
    var e := |Scheme| + |mediaType|;
    assert url[..5] == Scheme;
    assert url[5] == mediaType[0];
    assert url[e..e + |Marker|] == Marker;
    assert forall k :: 5 <= k < e ==> url[k] == mediaType[k - 5];
    ScanSkips(url, 6, e);
    assert url[e + |Marker|..] == payload;
  }

  lemma PngDataUrlExample(decode: string -> Option<Bytes>, parseUrl: string -> bool, read: string -> Option<Bytes>)
    ensures GetDataFromUrl("data:image/png;base64,iVBO", decode, parseUrl, read) ==
            if decode("iVBO").Some? then Success(decode("iVBO").value) else Failure(DecodeError)
  {
    assert Scheme + "image/png" + Marker + "iVBO" == "data:image/png;base64,iVBO";
    WellFormedDataUrl("image/png", "iVBO", decode, parseUrl, read);
  }

  /** Without any `;` after the first character following `data:`, the pattern cannot match. */
  lemma NoMarkerNoMatch(url: string)
    requires HasPrefix(url, Scheme)
    requires forall k :: 6 <= k < |url| ==> url[k] != ';'
    ensures MatchLength(url) == None
  {
    forall j
      ensures !MatchesUpTo(url, j)
    {
      if 6 <= j && j + |Marker| <= |url| {
        assert url[j..j + |Marker|][0] == url[j];
      }
    }
  }

  /**
   * `data:;base64,<payload>`, with no `;` in the payload, leaves no
   * character for `.+?` before its marker, so it does not parse.
   */
  lemma EmptyMediaType(payload: string, decode: string -> Option<Bytes>,
                       parseUrl: string -> bool, read: string -> Option<Bytes>)
    requires ';' !in payload
    ensures GetDataFromUrl(Scheme + Marker + payload, decode, parseUrl, read) == Failure(ParseError)
  {
    var url := Scheme + Marker + payload;
    assert url[..5] == Scheme;
    assert forall k :: 6 <= k < 13 ==> url[k] == Marker[k - 5];
    assert forall k :: 13 <= k < |url| ==> url[k] == payload[k - 13];
    NoMarkerNoMatch(url);
  }

  lemma EmptyMediaTypeExample(decode: string -> Option<Bytes>, parseUrl: string -> bool, read: string -> Option<Bytes>)
    ensures GetDataFromUrl("data:;base64,AAAA", decode, parseUrl, read) == Failure(ParseError)
  {
    assert Scheme + Marker + "AAAA" == "data:;base64,AAAA";
    EmptyMediaType("AAAA", decode, parseUrl, read);
  }

  /** A line break before the marker stops the match. */
  lemma LineBreakExample(decode: string -> Option<Bytes>, parseUrl: string -> bool, read: string -> Option<Bytes>)
    ensures GetDataFromUrl("data:a\nb;base64,AAAA", decode, parseUrl, read) == Failure(ParseError)
  {
    var url := "data:a\nb;base64,AAAA";
    assert url[6] == '\n' && url[6..14] != Marker;
    assert ScanMarker(url, 6) == None;
  }

  /** The shortest match wins: a second marker belongs to the payload. */
  lemma FirstMarkerExample(decode: string -> Option<Bytes>, parseUrl: string -> bool, read: string -> Option<Bytes>)
    ensures GetDataFromUrl("data:a;base64,;base64,QQ", decode, parseUrl, read) ==
            if decode(";base64,QQ").Some? then Success(decode(";base64,QQ").value) else Failure(DecodeError)
  {
    assert Scheme + "a" + Marker + ";base64,QQ" == "data:a;base64,;base64,QQ";
    WellFormedDataUrl("a", ";base64,QQ", decode, parseUrl, read);
  }
}
