/** The server's upload policy: the multer `fileFilter`, the size limit and
    the disk-storage file name. Both entry points use the same policy. */
module UploadPolicy {
  import opened Text

  /** multer's `limits.fileSize`: 10 MiB. */
  const MaxFileSize: nat := 10 * 1024 * 1024

  /** The alternatives of `/jpeg|jpg|png|gif|bmp|webp/`. */
  const AllowedTokens: seq<string> := ["jpeg", "jpg", "png", "gif", "bmp", "webp"]

  /** The message of the error the filter rejects with. */
  const FilterRejection: string := "Only image files are allowed!"

  /** The multer directory the file is written to. */
  const UploadDir: string := "uploads/"

  /** Some token of `tokens` occurs in `s`. */
  function AnyOccurs(s: string, tokens: seq<string>): (b: bool)
    ensures b <==> exists k :: 0 <= k < |tokens| && IsSubstring(tokens[k], s)
  {
    if tokens == [] then false
    else
      ContainsIsSubstring(s, tokens[0]);
      assert forall k :: 1 <= k < |tokens| ==> tokens[k] == tokens[1..][k - 1];
      Contains(s, tokens[0]) || AnyOccurs(s, tokens[1..])
  }

  /** `/jpeg|jpg|png|gif|bmp|webp/.test(s)`: the pattern is not anchored, so
      it holds as soon as one alternative occurs anywhere in `s`. */
  function MatchesAllowed(s: string): (b: bool)
    ensures b <==> exists k :: 0 <= k < |AllowedTokens| && IsSubstring(AllowedTokens[k], s)
  {
    AnyOccurs(s, AllowedTokens)
  }

  /** A token occurring at a known position makes the test hold. */
  lemma MatchAt(s: string, k: nat, i: nat)
    requires k < |AllowedTokens| && OccursAt(s, AllowedTokens[k], i)
    ensures MatchesAllowed(s)
  {
  }

  /** A text lacking, for each token, one of that token's characters makes
      the test fail. */
  lemma NoMatchByMissingChars(s: string, missing: seq<char>)
    requires |missing| == |AllowedTokens|
    requires forall k :: 0 <= k < |AllowedTokens| ==> missing[k] in AllowedTokens[k] && missing[k] !in s
    ensures !MatchesAllowed(s)
  {
    forall k, i: nat | 0 <= k < |AllowedTokens| ensures !OccursAt(s, AllowedTokens[k], i) {
    }
  }

  /** `p` without the slashes it ends with. */
  function TrimTrailingSlashes(p: string): (r: string)
    ensures |r| <= |p| && r == p[..|r|]
    ensures |r| > 0 ==> r[|r| - 1] != '/'
    ensures forall k :: |r| <= k < |p| ==> p[k] == '/'
  {
    if |p| > 0 && p[|p| - 1] == '/' then TrimTrailingSlashes(p[..|p| - 1]) else p
  }

  /** The part of `p` after its last slash. */
  function LastSegment(p: string): (r: string)
    ensures '/' !in r
    ensures |r| <= |p| && r == p[|p| - |r|..]
    ensures |r| < |p| ==> p[|p| - |r| - 1] == '/'
  {
    match LastIndex(p, '/')
    case None => p
    case Some(i) => p[i + 1..]
  }

  /** Node's `path.extname` (POSIX): the last segment's text from its last
      dot on; empty when the segment has no dot, when its only dot is its
      first character, or when the segment is "..". */
  function ExtName(p: string): (r: string)
    ensures r == "" || (r[0] == '.' && '.' !in r[1..] && '/' !in r)
  {
    var seg := LastSegment(TrimTrailingSlashes(p));
    match LastIndex(seg, '.')
    case None => ""
    case Some(d) =>
      if d == 0 || seg == ".." then ""
      else seg[d..]
  }

  /** The multer `fileFilter`: the lowercased extension of the declared name
      and the declared MIME type (not lowercased) must each contain one of
      the six tokens. */
  function FileFilter(originalname: string, mimetype: string): (ok: bool)
    ensures ok <==>
      (exists k :: 0 <= k < |AllowedTokens| && IsSubstring(AllowedTokens[k], Lower(ExtName(originalname))))
      && (exists k :: 0 <= k < |AllowedTokens| && IsSubstring(AllowedTokens[k], mimetype))
  {
    MatchesAllowed(Lower(ExtName(originalname))) && MatchesAllowed(mimetype)
  }

  /** A MIME type with no token in it is rejected whatever the name. */
  lemma MimeRejected(originalname: string, mimetype: string)
    requires !MatchesAllowed(mimetype)
    ensures !FileFilter(originalname, mimetype)
  {
  }

  /** The disk-storage `filename` callback: `Date.now() + '-' + originalname`,
      with the clock reading passed in. */
  function StoredFilename(timestamp: nat, originalname: string): (f: string)
    ensures |f| > |originalname| + 1 && f[|f| - |originalname| - 1..] == "-" + originalname
  {
    var f := NatToDecimal(timestamp) + "-" + originalname;
    assert f[|f| - |originalname| - 1..] == "-" + originalname;
    f
  }

  /** The stored name can be taken apart again: the text before its first
      '-' is the timestamp in decimal and the rest is the declared name. */
  lemma StoredFilenameParts(timestamp: nat, originalname: string)
    ensures var f := StoredFilename(timestamp, originalname);
      var i := |NatToDecimal(timestamp)|;
      FirstIndex(f, '-') == Some(i)
      && (forall k :: 0 <= k < i ==> IsDigit(f[k]))
      && DecimalValue(f[..i]) == timestamp
      && f[i + 1..] == originalname
  {
    var digits := NatToDecimal(timestamp);
    var f := StoredFilename(timestamp, originalname);
    assert f[..|digits|] == digits;
    assert f[|digits|] == '-';
    assert forall k :: 0 <= k < |digits| ==> f[k] == digits[k] && f[k] != '-';
    DecimalRoundTrip(timestamp);
  }

  /** So two uploads get the same stored name only if their timestamps and
      declared names are both equal. */
  lemma StoredFilenameInjective(t1: nat, n1: string, t2: nat, n2: string)
    requires StoredFilename(t1, n1) == StoredFilename(t2, n2)
    ensures t1 == t2 && n1 == n2
  {
    StoredFilenameParts(t1, n1);
    StoredFilenameParts(t2, n2);
  }

  /** multer's `path.join(destination, filename)`; the declared name holds
      no slash (the multipart parser keeps only its base name), so the join
      is a concatenation. */
  function StoredPath(filename: string): string
  {
    UploadDir + filename
  }

  /** A name `base.ext` has extension `.ext`. */
  lemma ExtNameOfPlainName(base: string, ext: string)
    requires base != "" && '/' !in base && '/' !in ext && '.' !in ext
    requires base + "." + ext != ".."
    ensures ExtName(base + "." + ext) == "." + ext
  {
    var p := base + "." + ext;
    PlainNameSegment(base, ext);
    PlainNameLastDot(base, ext);
    assert p[|base|..] == "." + ext;
  }

  /** A name `base.ext` with no slash in it is its own last segment. */
  lemma PlainNameSegment(base: string, ext: string)
    requires '/' !in base && '/' !in ext
    ensures LastSegment(TrimTrailingSlashes(base + "." + ext)) == base + "." + ext
  {
    var p := base + "." + ext;
    assert '/' !in base + ".";
    assert '/' !in p;
    assert p[|p| - 1] in p;
    assert TrimTrailingSlashes(p) == p;
  }

  /** The last dot of `base.ext` is the one after `base`. */
  lemma PlainNameLastDot(base: string, ext: string)
    requires '.' !in ext
    ensures LastIndex(base + "." + ext, '.') == Some(|base|)
  {
    LastIndexBeforeSuffix(base + ".", ext, '.');
  }

  /** A name whose only dot is its first character has no extension, so the
      filter rejects it whatever its MIME type. */
  lemma DotfileRejected(ext: string, mimetype: string)
    requires '/' !in ext && '.' !in ext
    ensures !FileFilter("." + ext, mimetype)
  {
    var p := "." + ext;
    assert TrimTrailingSlashes(p) == p by {
      if ext == "" { assert p[|p| - 1] == '.'; } else { assert p[|p| - 1] == ext[|ext| - 1]; }
    }
    assert forall k :: 0 < k < |p| ==> p[k] == ext[k - 1];
    assert LastSegment(p) == p;
    assert LastIndex(p, '.') == Some(0);
    assert ExtName(p) == "";
    assert Lower("") == "";
    NothingInEmpty();
  }

  lemma NothingInEmpty()
    ensures !MatchesAllowed("")
  {
    NoMatchByMissingChars("", "jjpgbw");
  }

  /** A part without a name has no extension and is rejected. */
  lemma EmptyNameRejected(mimetype: string)
    ensures !FileFilter("", mimetype)
  {
    assert TrimTrailingSlashes("") == "";
    assert ExtName("") == "";
    assert Lower("") == "";
    NothingInEmpty();
  }

  /** The MIME type is not lowercased: "image/JPEG" fails the filter
      whatever the name, ".jpg" names included. */
  lemma UppercaseMimeRejected(name: string)
    ensures !FileFilter(name, "image/JPEG")
  {
    NoMatchByMissingChars("image/JPEG", "jjpfbw");
    MimeRejected(name, "image/JPEG");
  }

  /** A plain name `base.ext` passes when a token occurs in the lowercased
      `.ext` and one occurs in the MIME type. */
  lemma PlainNameAccepted(base: string, ext: string, mimetype: string)
    requires base != "" && '/' !in base && '/' !in ext && '.' !in ext
    requires base + "." + ext != ".."
    requires MatchesAllowed(Lower("." + ext)) && MatchesAllowed(mimetype)
    ensures FileFilter(base + "." + ext, mimetype)
  {
    ExtNameOfPlainName(base, ext);
  }

  lemma JpgUppercaseMatches()
    ensures MatchesAllowed(Lower(".JPG"))
  {
    LowerOf(".JPG", ".jpg");
    assert AllowedTokens[1] == "jpg";
    assert ".jpg"[1..4] == "jpg";
    MatchAt(".jpg", 1, 1);
  }

  lemma JpegMimeMatches()
    ensures MatchesAllowed("image/jpeg")
  {
    assert AllowedTokens[0] == "jpeg";
    assert "image/jpeg"[6..10] == "jpeg";
    MatchAt("image/jpeg", 0, 6);
  }

  lemma XjpgxMatches()
    ensures MatchesAllowed(Lower(".xjpgx"))
  {
    LowerFixed(".xjpgx");
    assert AllowedTokens[1] == "jpg";
    assert ".xjpgx"[2..5] == "jpg";
    MatchAt(".xjpgx", 1, 2);
  }

  lemma PngMimeMatches()
    ensures MatchesAllowed("text/png")
  {
    assert AllowedTokens[2] == "png";
    assert "text/png"[5..8] == "png";
    MatchAt("text/png", 2, 5);
  }

  /** The extension is lowercased: any plain name ending in ".JPG" with
      "image/jpeg" passes. */
  lemma UppercaseExtensionAccepted(base: string)
    requires base != "" && '/' !in base
    ensures FileFilter(base + ".JPG", "image/jpeg")
  {
    var ext := "JPG";
    assert base + ".JPG" == base + "." + ext;
    assert |base + "." + ext| == |base| + 4;
    JpgUppercaseMatches();
    JpegMimeMatches();
    assert "." + ext == ".JPG";
    PlainNameAccepted(base, ext, "image/jpeg");
  }

  /** The test is a substring test: any plain name ending in ".xjpgx" and
      declared as "text/png" passes. */
  lemma UnanchoredMatchAccepted(base: string)
    requires base != "" && '/' !in base
    ensures FileFilter(base + ".xjpgx", "text/png")
  {
    var ext := "xjpgx";
    assert base + ".xjpgx" == base + "." + ext;
    assert |base + "." + ext| == |base| + 6;
    XjpgxMatches();
    PngMimeMatches();
    assert "." + ext == ".xjpgx";
    PlainNameAccepted(base, ext, "text/png");
  }
}
