/**
 * `getPhotoUrl` of the profile component: a Google Drive share link is turned
 * into a directly embeddable thumbnail link; anything else is kept as it is.
 * The two regular expressions of the source, `/\/d\/([a-zA-Z0-9_-]{25,})/`
 * and `/[?&]id=([a-zA-Z0-9_-]{25,})/`, are written out as explicit scans.
 */
module Photo {
  import opened Wrappers
  import opened Strings

  const DriveHost: string := "drive.google.com"
  const ThumbnailPrefix: string := "https://drive.google.com/thumbnail?id="
  const ThumbnailSuffix: string := "&sz=w1000"
  /** The start of a Drive share link, which the file id follows. */
  const SharePrefix: string := "https://drive.google.com/file/d/"
  /** The `{25,}` quantifier: an id is at least this long. */
  const MinIdLength: nat := 25

  /** The character class `[a-zA-Z0-9_-]`. */
  predicate IsIdChar(c: char)
  {
    ('a' <= c <= 'z') || ('A' <= c <= 'Z') || ('0' <= c <= '9') || c == '_' || c == '-'
  }

  /**
   * The length of the longest run of id characters that starts at `j`: what
   * the greedy quantifier takes.
   */
  function IdRun(s: string, j: nat): (n: nat)
    requires j <= |s|
    ensures j + n <= |s|
    ensures forall k :: j <= k < j + n ==> IsIdChar(s[k])
    ensures j + n == |s| || !IsIdChar(s[j + n])
    decreases |s| - j
  {
    if j < |s| && IsIdChar(s[j]) then 1 + IdRun(s, j + 1) else 0
  }

  /** The two shapes of a Drive link the source recognises. */
  datatype Shape = PathShape | QueryShape

  /** Length of the literal part of the regular expression: "/d/" or "?id=" / "&id=". */
  function MarkerLength(shape: Shape): nat
  {
    match shape
    case PathShape => 3
    case QueryShape => 4
  }

  /** The literal part of the regular expression matches at position `i`. */
  predicate MarkerAt(s: string, shape: Shape, i: nat)
  {
    match shape
    case PathShape => OccursAt(s, "/d/", i)
    case QueryShape => i + 4 <= |s| && (s[i] == '?' || s[i] == '&') && s[i + 1..i + 4] == "id="
  }

  /** The whole regular expression matches at position `i`. */
  predicate MatchAt(s: string, shape: Shape, i: nat)
  {
    MarkerAt(s, shape, i) && IdRun(s, i + MarkerLength(shape)) >= MinIdLength
  }

  /** The capture group of a match at `i`: the maximal run of id characters. */
  function Capture(s: string, shape: Shape, i: nat): (id: string)
    requires MatchAt(s, shape, i)
    ensures |id| >= MinIdLength
    ensures forall k :: 0 <= k < |id| ==> IsIdChar(id[k])
    ensures OccursAt(s, id, i + MarkerLength(shape))
    ensures i + MarkerLength(shape) + |id| == |s| || !IsIdChar(s[i + MarkerLength(shape) + |id|])
  {
    var j := i + MarkerLength(shape);
    s[j..j + IdRun(s, j)]
  }

  /** The leftmost match at or after `from`, as a regular-expression engine finds it. */
  function FirstMatch(s: string, shape: Shape, from: nat): (r: Option<nat>)
    ensures r.Some? ==> from <= r.value && MatchAt(s, shape, r.value)
    ensures r.Some? ==> forall k :: from <= k < r.value ==> !MatchAt(s, shape, k)
    ensures r.None? ==> forall k :: from <= k ==> !MatchAt(s, shape, k)
    decreases |s| - from
  {
    if from >= |s| then None
    else if MatchAt(s, shape, from) then Some(from)
    else FirstMatch(s, shape, from + 1)
  }

  /**
   * The file id of a Drive link: the capture of the leftmost `/d/` match, else
   * the capture of the leftmost `?id=` / `&id=` match, else nothing.
   */
  function DriveFileId(url: string): (r: Option<string>)
    ensures r.Some? ==> |r.value| >= MinIdLength
    ensures r.Some? ==> forall k :: 0 <= k < |r.value| ==> IsIdChar(r.value[k])
    ensures r.None? <==> forall k :: !MatchAt(url, PathShape, k) && !MatchAt(url, QueryShape, k)
  {
    match FirstMatch(url, PathShape, 0)
    case Some(i) => Some(Capture(url, PathShape, i))
    case None =>
      match FirstMatch(url, QueryShape, 0)
      case Some(i) => Some(Capture(url, QueryShape, i))
      case None => None
  }

  /** The thumbnail-service link for a Drive file id. */
  function Thumbnail(id: string): string
  {
    ThumbnailPrefix + id + ThumbnailSuffix
  }

  /**
   * `getPhotoUrl(url)`: "" stays "", a link that does not mention the Drive
   * host is kept, a Drive link with a recognisable file id becomes its
   * thumbnail link, and a Drive link without one is kept.
   */
  function GetPhotoUrl(url: string): (r: string)
    ensures url == "" ==> r == ""
    ensures !Contains(url, DriveHost) ==> r == url
    ensures r != url ==> Contains(url, DriveHost) && DriveFileId(url).Some?
    ensures r != url ==> r == Thumbnail(DriveFileId(url).value)
    ensures Contains(url, DriveHost) && DriveFileId(url).Some? ==> r == Thumbnail(DriveFileId(url).value)
  {
    if url == "" then ""
    else if Contains(url, DriveHost) then
      match DriveFileId(url)
      case Some(id) => Thumbnail(id)
      case None => url
    else url
  }

  // ----- properties of the photo resolver -----

  /** The path form wins: when a `/d/` match exists, the id is taken from the leftmost one. */
  lemma PathFormWins(url: string, i: nat)
    requires MatchAt(url, PathShape, i)
    ensures DriveFileId(url).Some?
    ensures exists p: nat :: p <= i && MatchAt(url, PathShape, p) && DriveFileId(url).value == Capture(url, PathShape, p)
  {
    var p := FirstMatch(url, PathShape, 0).value;
    assert MatchAt(url, PathShape, p);
  }

  /**
   * Without any `/d/` match the id is the capture of the leftmost `?id=` or
   * `&id=` match.
   */
  lemma QueryFormFallback(url: string, i: nat)
    requires forall k :: !MatchAt(url, PathShape, k)
    requires MatchAt(url, QueryShape, i)
    requires forall k :: 0 <= k < i ==> !MatchAt(url, QueryShape, k)
    ensures DriveFileId(url) == Some(Capture(url, QueryShape, i))
  {
    LeftmostMatch(url, QueryShape, i);
  }

  /** A run that stops at a non-id character (or the end) is exactly what `IdRun` measures. */
  lemma {:induction false} IdRunExact(s: string, j: nat, n: nat)
    requires j + n <= |s|
    requires forall k :: j <= k < j + n ==> IsIdChar(s[k])
    requires j + n == |s| || !IsIdChar(s[j + n])
    ensures IdRun(s, j) == n
    decreases n
  {
    if n > 0 {
      IdRunExact(s, j + 1, n - 1);
    }
  }

  /** Where the host, the slashes and the query marker sit in the thumbnail prefix. */
  lemma ThumbnailPrefixLayout()
    ensures |ThumbnailPrefix| == 38
    ensures ThumbnailPrefix[8..24] == DriveHost
    ensures forall k :: 0 <= k < 38 && ThumbnailPrefix[k] == '/' ==> k == 6 || k == 7 || k == 24
    ensures forall k :: 0 <= k < 38 && (ThumbnailPrefix[k] == '?' || ThumbnailPrefix[k] == '&') ==> k == 34
    ensures ThumbnailPrefix[34] == '?' && ThumbnailPrefix[35..38] == "id="
    ensures ThumbnailSuffix[0] == '&'
    ensures forall k :: 0 <= k < |ThumbnailSuffix| ==> ThumbnailSuffix[k] != '/'
  {
    var P := ThumbnailPrefix;
    assert |P| == 38;
    assert forall k :: 0 <= k < 16 ==> P[8 + k] == DriveHost[k];
    assert P[8..24] == DriveHost;
    assert forall k :: 0 <= k < 38 && P[k] == '/' ==> k == 6 || k == 7 || k == 24;
    assert forall k :: 0 <= k < 38 && (P[k] == '?' || P[k] == '&') ==> k == 34;
    assert P[34] == '?' && P[35..38] == "id=";
  }

  /** A thumbnail link holds no "/d/" at all. */
  lemma {:induction false} ThumbnailHasNoPathMatch(id: string, k: nat)
    requires forall j :: 0 <= j < |id| ==> IsIdChar(id[j])
    ensures !MarkerAt(Thumbnail(id), PathShape, k)
  {
    var t := Thumbnail(id);
    ThumbnailPrefixLayout();
    forall j | 0 <= j < 38 ensures t[j] == ThumbnailPrefix[j] { }
    forall j | 38 <= j < 38 + |id| ensures t[j] != '/' {
      assert t[j] == id[j - 38];
    }
    forall j | 38 + |id| <= j < |t| ensures t[j] != '/' {
      assert t[j] == ThumbnailSuffix[j - 38 - |id|];
    }
    if k + 3 <= |t| {
      assert t[k..k + 3][0] == t[k] && t[k..k + 3][2] == t[k + 2];
    }
  }

  /** In a thumbnail link the leftmost query match is the "?id=" at 34, and it captures `id`. */
  lemma {:induction false} ThumbnailQueryMatch(id: string)
    requires |id| >= MinIdLength
    requires forall k :: 0 <= k < |id| ==> IsIdChar(id[k])
    ensures FirstMatch(Thumbnail(id), QueryShape, 0) == Some(34)
    ensures Capture(Thumbnail(id), QueryShape, 34) == id
  {
    var t := Thumbnail(id);
    ThumbnailPrefixLayout();
    ThumbnailIdRun(id);
    assert MatchAt(t, QueryShape, 34);
    forall k: nat | k < 34 ensures !MatchAt(t, QueryShape, k) {
      assert t[k] == ThumbnailPrefix[k];
    }
  }

  /** The characters of a thumbnail link, piece by piece, and the id run after "?id=". */
  lemma ThumbnailIdRun(id: string)
    requires forall k :: 0 <= k < |id| ==> IsIdChar(id[k])
    ensures forall k :: 0 <= k < 38 ==> Thumbnail(id)[k] == ThumbnailPrefix[k]
    ensures Thumbnail(id)[34] == '?' && Thumbnail(id)[35..38] == "id="
    ensures |Thumbnail(id)| > 38 + |id|
    ensures IdRun(Thumbnail(id), 38) == |id|
    ensures Thumbnail(id)[38..38 + |id|] == id
  {
    var t := Thumbnail(id);
    ThumbnailPrefixLayout();
    assert forall k :: 0 <= k < |id| ==> t[38 + k] == id[k];
    assert t[38 + |id|] == ThumbnailSuffix[0];
    IdRunExact(t, 38, |id|);
    assert t[35..38] == ThumbnailPrefix[35..38];
  }

  /** A thumbnail link resolves to itself: its id is found again after "?id=". */
  lemma {:induction false} ThumbnailIsFixedPoint(id: string)
    requires |id| >= MinIdLength
    requires forall k :: 0 <= k < |id| ==> IsIdChar(id[k])
    ensures GetPhotoUrl(Thumbnail(id)) == Thumbnail(id)
  {
    var t := Thumbnail(id);
    ThumbnailPrefixLayout();
    assert t[..38] == ThumbnailPrefix;
    assert t[8..24] == ThumbnailPrefix[8..24];
    assert OccursAt(t, DriveHost, 8);
    forall k: nat ensures !MatchAt(t, PathShape, k) {
      ThumbnailHasNoPathMatch(id, k);
    }
    ThumbnailQueryMatch(id);
  }

  /** Resolving a photo link twice gives what resolving it once gives. */
  lemma GetPhotoUrlIdempotent(url: string)
    ensures GetPhotoUrl(GetPhotoUrl(url)) == GetPhotoUrl(url)
  {
    if GetPhotoUrl(url) != url {
      ThumbnailIsFixedPoint(DriveFileId(url).value);
    }
  }

  /** The layout of the share-link prefix. */
  lemma ShareLinkPrefixLayout()
    ensures |SharePrefix| == 32
    ensures SharePrefix[8..24] == DriveHost
    ensures forall k :: 0 <= k < 32 && SharePrefix[k] == '/' ==> k == 6 || k == 7 || k == 24 || k == 29 || k == 31
    ensures forall k :: 0 <= k < 32 ==> SharePrefix[k] != '?' && SharePrefix[k] != '&'
    ensures SharePrefix[8] == 'd' && SharePrefix[9] == 'r' && SharePrefix[25] == 'f' && SharePrefix[30] == 'd'
  {
    assert |SharePrefix| == 32;
    assert forall k :: 0 <= k < 16 ==> SharePrefix[8 + k] == DriveHost[k];
    assert SharePrefix[8..24] == DriveHost;
    assert forall k :: 0 <= k < 32 && SharePrefix[k] == '/' ==> k == 6 || k == 7 || k == 24 || k == 29 || k == 31;
  }

  /**
   * A Drive share link `SharePrefix + id + "/view"` with an id
   * of at least 25 id characters resolves to the thumbnail link of that id.
   */
  lemma {:induction false} ShareLinkResolves(id: string)
    requires |id| >= MinIdLength
    requires forall k :: 0 <= k < |id| ==> IsIdChar(id[k])
    ensures GetPhotoUrl(SharePrefix + id + "/view") == Thumbnail(id)
  {
    var u := SharePrefix + id + "/view";
    ShareLinkMatch(id, u);
    LeftmostMatch(u, PathShape, 29);
    assert DriveFileId(u) == Some(id);
  }

  /** The share link names the Drive host and its leftmost "/d/" match captures the id. */
  lemma ShareLinkMatch(id: string, u: string)
    requires |id| >= MinIdLength
    requires forall k :: 0 <= k < |id| ==> IsIdChar(id[k])
    requires u == SharePrefix + id + "/view"
    ensures Contains(u, DriveHost)
    ensures MatchAt(u, PathShape, 29) && Capture(u, PathShape, 29) == id
    ensures forall k :: 0 <= k < 29 ==> !MatchAt(u, PathShape, k)
  {
    ShareLinkLayout(id, u);
    assert OccursAt(u, DriveHost, 8);
    assert u[32 + |id|] == u[32 + |id|..][0];
    IdRunExact(u, 32, |id|);
    assert u[32..32 + |id|] == id;
    forall k: nat | k < 29 ensures !MatchAt(u, PathShape, k) {
      ShareLinkNoEarlyMarker(id, u, k);
    }
  }

  /** A match with none before it is the one the scan finds. */
  lemma LeftmostMatch(s: string, shape: Shape, i: nat)
    requires MatchAt(s, shape, i)
    requires forall k :: 0 <= k < i ==> !MatchAt(s, shape, k)
    ensures FirstMatch(s, shape, 0) == Some(i)
  {
  }

  /** The first "/d/" of a share link is the one before the id. */
  lemma ShareLinkNoEarlyMarker(id: string, u: string, k: nat)
    requires u == SharePrefix + id + "/view" && k < 29
    ensures !MarkerAt(u, PathShape, k)
  {
    ShareLinkLayout(id, u);
    assert u[k..k + 3][0] == u[k] && u[k..k + 3][1] == u[k + 1] && u[k..k + 3][2] == u[k + 2];
  }

  /** The characters of a share link, piece by piece. */
  lemma ShareLinkLayout(id: string, u: string)
    requires u == SharePrefix + id + "/view"
    ensures |u| == 37 + |id| && u[8..24] == DriveHost
    ensures forall j :: 0 <= j < |id| ==> u[32 + j] == id[j]
    ensures forall k :: 0 <= k < 32 && u[k] == '/' ==> k == 6 || k == 7 || k == 24 || k == 29 || k == 31
    ensures forall k :: 0 <= k < 32 ==> u[k] != '?' && u[k] != '&'
    ensures u[8] == 'd' && u[9] == 'r' && u[25] == 'f' && u[30] == 'd'
    ensures u[29..32] == "/d/"
    ensures u[32 + |id|..] == "/view"
  {
    var h := SharePrefix;
    ShareLinkPrefixLayout();
    forall j | 0 <= j < 32 ensures u[j] == h[j] { }
    assert u[8..24] == h[8..24];
    assert u[29..32] == h[29..32];
    assert u[32 + |id|..] == "/view";
  }

  /** A share link with a short id has no "/d/" match. */
  lemma {:induction false} ShortShareLinkNoPathMatch(id: string, k: nat)
    requires |id| < MinIdLength
    requires forall j :: 0 <= j < |id| ==> IsIdChar(id[j])
    ensures !MatchAt(SharePrefix + id + "/view", PathShape, k)
  {
    var u := SharePrefix + id + "/view";
    ShareLinkLayout(id, u);
    var v := u[32 + |id|..];
    assert u[32 + |id|] == v[0] && u[33 + |id|] == v[1];
    IdRunExact(u, 32, |id|);
    if k + 3 <= |u| {
      assert u[k..k + 3][0] == u[k] && u[k..k + 3][1] == u[k + 1] && u[k..k + 3][2] == u[k + 2];
      if k == 31 && |id| >= 2 {
        assert u[33] == id[1];
      }
      if k > 32 + |id| {
        assert u[k] == v[k - 32 - |id|];
      }
    }
  }

  /** A share link has no "?id=" or "&id=" marker. */
  lemma {:induction false} ShareLinkNoQueryMarker(id: string, k: nat)
    requires forall j :: 0 <= j < |id| ==> IsIdChar(id[j])
    ensures !MarkerAt(SharePrefix + id + "/view", QueryShape, k)
  {
    var u := SharePrefix + id + "/view";
    ShareLinkLayout(id, u);
    var v := u[32 + |id|..];
    if 32 + |id| <= k < |u| {
      assert u[k] == v[k - 32 - |id|];
    }
  }

  /**
   * The same share link with an id shorter than 25 characters matches
   * neither regular expression and is kept unchanged.
   */
  lemma ShortShareLinkKept(id: string)
    requires |id| < MinIdLength
    requires forall k :: 0 <= k < |id| ==> IsIdChar(id[k])
    ensures GetPhotoUrl(SharePrefix + id + "/view")
      == SharePrefix + id + "/view"
  {
    var u := SharePrefix + id + "/view";
    forall k: nat ensures !MatchAt(u, PathShape, k) && !MatchAt(u, QueryShape, k) {
      ShortShareLinkNoPathMatch(id, k);
      ShareLinkNoQueryMarker(id, k);
    }
  }
}
