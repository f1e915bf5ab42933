/**
 * The upload middleware's two pure parts: the `filename` callback of the disk
 * storage, which keeps the original extension verbatim and sanitises the rest
 * of the name, and the MIME-type allow-list of the file filter.
 */
module Upload {
  import opened Common

  // ---------------------------------------------------------------------------
  // `path.extname` and `path.basename(name, ext)` on POSIX paths
  // ---------------------------------------------------------------------------

  /** The path without its trailing `/` characters. */
  function DropTrailingSlashes(p: string): (r: string)
    ensures r <= p
    ensures r == [] || r[|r| - 1] != '/'
    ensures forall i :: |r| <= i < |p| ==> p[i] == '/'
  {
    if p != [] && p[|p| - 1] == '/' then DropTrailingSlashes(p[..|p| - 1]) else p
  }

  /** The last segment of the path, the one both `extname` and `basename` look at. */
  function Segment(p: string): (r: string)
    ensures '/' !in r
  {
    var q := DropTrailingSlashes(p);
    var k := LastIndexOf(q, '/');
    LastIndexOfSpec(q, '/');
    if k == |q| then q else q[k + 1..]
  }

  /**
   * `path.extname`: from the last `.` of the segment to its end; empty when
   * the segment has no `.`, when its only `.`s lead it (`.bashrc`), or when it
   * is `..`.
   */
  function ExtName(p: string): (r: string)
    ensures r == [] || (r[0] == '.' && '.' !in r[1..])
    ensures |r| < |Segment(p)| || r == []
    ensures r == Segment(p)[|Segment(p)| - |r|..]
  {
    var seg := Segment(p);
    var k := LastIndexOf(seg, '.');
    LastIndexOfSpec(seg, '.');
    if k == |seg| || k == 0 || seg == ".." then ""
    else
      assert forall j :: 0 <= j < |seg| - k - 1 ==> seg[k..][1..][j] == seg[k + 1 + j];
      seg[k..]
  }

  /** `path.basename(name, path.extname(name))`: the segment without its extension. */
  function Stem(p: string): string {
    var seg := Segment(p);
    seg[..|seg| - |ExtName(p)|]
  }

  /** Stem and extension put back together give the whole last segment. */
  lemma StemAndExtension(p: string)
    ensures Segment(p) == Stem(p) + ExtName(p)
    ensures '/' !in Stem(p)
  {
    var seg := Segment(p);
    assert seg == seg[..|seg| - |ExtName(p)|] + seg[|seg| - |ExtName(p)|..];
    assert forall c :: c in Stem(p) ==> c in seg;
  }

  /** A name with one dot in the middle splits at that dot; the extension keeps its case. */
  lemma ExtensionKeptVerbatim()
    ensures ExtName("A b.PNG") == ".PNG" && Stem("A b.PNG") == "A b"
  {
    assert DropTrailingSlashes("A b.PNG") == "A b.PNG";
    LastIndexOfSpec("A b.PNG", '/');
    assert '/' !in "A b.PNG";
    assert Segment("A b.PNG") == "A b.PNG";
    assert LastIndexOf("A b.", '.') == 3;
    assert "A b.P"[..4] == "A b.";
    assert LastIndexOf("A b.P", '.') == 3;
    assert "A b.PN"[..5] == "A b.P";
    assert LastIndexOf("A b.PN", '.') == 3;
    assert "A b.PNG"[..6] == "A b.PN";
    assert LastIndexOf("A b.PNG", '.') == 3;
  }

  // ---------------------------------------------------------------------------
  // The basename sanitiser: `replace(/[^a-zA-Z0-9-_]/g, '-').toLowerCase()`
  // ---------------------------------------------------------------------------

  /** The class `[a-zA-Z0-9-_]`: the `-` after the range `0-9` is literal. */
  predicate IsKept(c: char) {
    IsAsciiLower(c) || IsAsciiUpper(c) || IsDigit(c) || c == '-' || c == '_'
  }

  /** Every character outside the class becomes one `-`. */
  function ReplaceDisallowed(s: string): (r: string)
    ensures |r| == |s|
    ensures forall i :: 0 <= i < |s| ==> r[i] == (if IsKept(s[i]) then s[i] else '-')
  {
    seq(|s|, i requires 0 <= i < |s| => if IsKept(s[i]) then s[i] else '-')
  }

  /** The sanitised basename: only ASCII is left to lower-case. */
  function SanitizeBasename(b: string): string {
    Lower(ReplaceDisallowed(b))
  }

  /** What a sanitised basename is made of. */
  predicate IsSanitized(c: char) {
    IsAsciiLower(c) || IsDigit(c) || c == '-' || c == '_'
  }

  /**
   * The result has the length of the input, contains only `[a-z0-9_-]`, and
   * at each position holds the lower-cased input letter or digit, or `-`.
   */
  lemma SanitizedShape(b: string)
    ensures |SanitizeBasename(b)| == |b|
    ensures forall c :: c in SanitizeBasename(b) ==> IsSanitized(c)
    ensures forall i :: 0 <= i < |b| ==>
      SanitizeBasename(b)[i] == (if IsKept(b[i]) then LowerChar(b[i]) else '-')
  {
    var r := SanitizeBasename(b);
    forall c | c in r ensures IsSanitized(c) {
      var i :| 0 <= i < |r| && r[i] == c;
    }
  }

  /** A basename that is already sanitised maps to itself. */
  lemma SanitizeKeepsSanitized(b: string)
    requires forall c :: c in b ==> IsSanitized(c)
    ensures SanitizeBasename(b) == b
  {
    var r := SanitizeBasename(b);
    forall i | 0 <= i < |b| ensures r[i] == b[i] {
      assert b[i] in b;
    }
  }

  /** Sanitising twice is sanitising once. */
  lemma SanitizeIdempotent(b: string)
    ensures SanitizeBasename(SanitizeBasename(b)) == SanitizeBasename(b)
  {
    SanitizedShape(b);
    SanitizeKeepsSanitized(SanitizeBasename(b));
  }

  // ---------------------------------------------------------------------------
  // The `filename` callback
  // ---------------------------------------------------------------------------

  /**
   * The stored file name for `originalname`, given the unique suffix
   * `<Date.now()>-<random>`: suffix, `-`, the sanitised stem, the original
   * extension unchanged.
   */
  function StoredFilename(suffix: string, originalname: string): (r: string)
    ensures |r| == |suffix| + 1 + |Segment(originalname)|
  {
    StemAndExtension(originalname);
    SanitizedShape(Stem(originalname));
    suffix + "-" + SanitizeBasename(Stem(originalname)) + ExtName(originalname)
  }

  /**
   * The stored name splits back into the suffix, a sanitised stem of the
   * original stem's length, and the original extension.
   */
  lemma StoredFilenameParts(suffix: string, originalname: string)
    ensures var r := StoredFilename(suffix, originalname);
      var stem := Stem(originalname);
      var ext := ExtName(originalname);
      && r[..|suffix| + 1] == suffix + "-"
      && r[|suffix| + 1..|suffix| + 1 + |stem|] == SanitizeBasename(stem)
      && r[|r| - |ext|..] == ext
      && (forall c :: c in r[|suffix| + 1..|suffix| + 1 + |stem|] ==> IsSanitized(c))
  {
    var stem := Stem(originalname);
    var ext := ExtName(originalname);
    SanitizedShape(stem);
    var clean := SanitizeBasename(stem);
    var r := StoredFilename(suffix, originalname);
    assert r == (suffix + "-") + clean + ext;
  }

  // ---------------------------------------------------------------------------
  // The file filter
  // ---------------------------------------------------------------------------

  const AllowedMimeTypes: seq<string> := [
    "image/jpeg", "image/jpg", "image/png", "image/gif", "image/webp",
    "image/svg+xml", "application/pdf", "video/mp4", "video/mpeg", "video/webm"]

  const NotAllowedMessage := "File type not allowed. Allowed types: " + JoinWith(AllowedMimeTypes, ", ")

  /** `fileFilter`: `cb(null, true)` for an allowed type, `cb(error)` for any other. */
  function FileFilter(mimetype: string): (r: Result<bool>)
    ensures r.Ok? <==> mimetype in AllowedMimeTypes
    ensures r.Ok? ==> r.value
    ensures r.Err? ==> r.message == NotAllowedMessage
  {
    if mimetype in AllowedMimeTypes then Ok(true) else Err(NotAllowedMessage)
  }

  /** Exactly ten types are accepted, none listed twice. */
  lemma TenTypesAllowed()
    ensures |AllowedMimeTypes| == 10
    ensures forall i, j :: 0 <= i < j < |AllowedMimeTypes| ==> AllowedMimeTypes[i] != AllowedMimeTypes[j]
  {
    forall i, j | 0 <= i < j < |AllowedMimeTypes|
      ensures AllowedMimeTypes[i] != AllowedMimeTypes[j]
    {
      var a, b := AllowedMimeTypes[i], AllowedMimeTypes[j];
      assert |a| != |b| || a[6] != b[6] || a[|a| - 1] != b[|b| - 1];
    }
  }

  /** The match is exact: a bitmap, or an allowed type written in capitals, is refused. */
  lemma FilterIsExact()
    ensures FileFilter("image/bmp").Err? && FileFilter("IMAGE/PNG").Err?
    ensures FileFilter("image/svg+xml") == Ok(true)
  {
    forall i | 0 <= i < |AllowedMimeTypes|
      ensures AllowedMimeTypes[i] != "image/bmp" && AllowedMimeTypes[i] != "IMAGE/PNG"
    {
      var a := AllowedMimeTypes[i];
      assert a[0] != 'I' && (|a| != 9 || a[6] != 'b');
    }
    assert AllowedMimeTypes[5] == "image/svg+xml";
  }
}
