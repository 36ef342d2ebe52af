/** `CloudinaryService`: the guards in front of the image upload, and the public id a stored image
  * URL is deleted under. The upload and destroy calls themselves belong to the Cloudinary client. */
module CloudinaryService {

  import opened Wrappers
  import opened JavaText

  // ---------------------------------------------------------------- uploadImage

  /** What `uploadImage` reads of a `MultipartFile` before the upload. */
  datatype UploadFile = UploadFile(isEmpty: bool, contentType: Option<string>)

  const FileEmpty := "File is empty"
  const NotAnImage := "File must be an image"

  /** `uploadImage`: an empty file or a content type that is missing or not `image/...` is refused
    * before the client is called; otherwise the client's answer is the result, an I/O failure
    * wrapped in "Failed to upload image: ". `client` is what the upload call would return. */
  function UploadImage(file: UploadFile, client: Result<string>): (r: Result<string>)
    ensures r.Ok? <==>
      !file.isEmpty && file.contentType.Some? && StartsWith(file.contentType.value, "image/") && client.Ok?
    ensures r.Ok? ==> r == client
  {
    if file.isEmpty then Err(FileEmpty)
    else if file.contentType.None? || !StartsWith(file.contentType.value, "image/") then Err(NotAnImage)
    else if client.Err? then Err("Failed to upload image: " + client.msg)
    else client
  }

  /** The guards come first: a refused file is refused with the same message whatever the client
    * would have answered, and the message names the first guard that fails. */
  lemma GuardsBeforeUpload(file: UploadFile, client: Result<string>, other: Result<string>)
    requires file.isEmpty || file.contentType.None? || !StartsWith(file.contentType.value, "image/")
    ensures UploadImage(file, client) == UploadImage(file, other)
    ensures UploadImage(file, client) == Err(if file.isEmpty then FileEmpty else NotAnImage)
  {
  }

  // ---------------------------------------------------------------- extractPublicId

  const UploadMarker := "/upload/"

  /** The pieces `String.split` cuts `s` into at each occurrence of the literal `sep`, scanning
    * left to right, before trailing empty pieces are dropped. */
  function SplitAll(s: string, sep: string): (r: seq<string>)
    requires sep != []
    ensures r != []
    decreases |s|
  {
    match IndexOf(s, sep)
    case None => [s]
    case Some(i) => [s[..i]] + SplitAll(s[i + |sep|..], sep)
  }

  function DropTrailingEmpty(parts: seq<string>): (r: seq<string>)
    ensures |r| <= |parts| && r == parts[..|r|]
    ensures r != [] ==> r[|r| - 1] != []
  {
    if parts == [] || parts[|parts| - 1] != [] then parts
    else DropTrailingEmpty(parts[..|parts| - 1])
  }

  /** `String.split(sep)` for a separator with no regex metacharacters: without a match the
    * string itself, otherwise the pieces less the trailing empty ones. */
  function JavaSplit(s: string, sep: string): seq<string>
    requires sep != []
  {
    if IndexOf(s, sep).None? then [s] else DropTrailingEmpty(SplitAll(s, sep))
  }

  /** The first position at or after `k` that does not hold a digit. */
  function DigitRunEnd(s: string, k: nat): (e: nat)
    requires k <= |s|
    ensures k <= e <= |s| && (e < |s| ==> !IsDigit(s[e])) && forall j :: k <= j < e ==> IsDigit(s[j])
    decreases |s| - k
  {
    if k == |s| || !IsDigit(s[k]) then k else DigitRunEnd(s, k + 1)
  }

  /** The regex `v\d+/` matches at `i`: since `\d+` is greedy and `/` is no digit, it matches
    * exactly when the whole digit run after the `v` is followed by `/`. */
  predicate VersionAt(s: string, i: nat)
  {
    i < |s| && s[i] == 'v' && DigitRunEnd(s, i + 1) > i + 1 && DigitRunEnd(s, i + 1) < |s| && s[DigitRunEnd(s, i + 1)] == '/'
  }

  /** Where `replaceFirst` matches `v\d+/` scanning from `from`: the leftmost match, or none when
    * no position from there on matches. */
  function FirstVersion(s: string, from: nat): (r: Option<nat>)
    requires from <= |s|
    ensures r.Some? ==> from <= r.value < |s| && VersionAt(s, r.value)
    ensures r.Some? ==> forall j :: from <= j < r.value ==> !VersionAt(s, j)
    ensures r.None? ==> forall j :: from <= j < |s| ==> !VersionAt(s, j)
    decreases |s| - from
  {
    if from == |s| then None
    else if VersionAt(s, from) then Some(from)
    else FirstVersion(s, from + 1)
  }

  /** `replaceFirst("v\\d+/", "")`. */
  function RemoveFirstVersion(s: string): (r: string)
    ensures |r| <= |s|
  {
    match FirstVersion(s, 0)
    case None => s
    case Some(i) => s[..i] + s[DigitRunEnd(s, i + 1) + 1..]
  }

  /** `String.lastIndexOf(c)`. */
  function LastIndexOf(s: string, c: char): (r: Option<nat>)
    ensures r.Some? ==> r.value < |s| && s[r.value] == c && forall j :: r.value < j < |s| ==> s[j] != c
    ensures r.None? ==> forall j :: 0 <= j < |s| ==> s[j] != c
  {
    if s == [] then None
    else if s[|s| - 1] == c then Some(|s| - 1)
    else LastIndexOf(s[..|s| - 1], c)
  }

  /** `extractPublicId`: nothing for a missing or non-Cloudinary URL or one with nothing after
    * "/upload/"; otherwise the piece after the first "/upload/", less its first `v<digits>/`, cut
    * at its last '.' unless that '.' opens the piece. */
  function ExtractPublicId(url: Option<string>): (r: Option<string>)
    ensures r.Some? ==> url.Some? && Contains(url.value, "cloudinary.com") && Contains(url.value, UploadMarker)
  {
    if url.None? || !Contains(url.value, "cloudinary.com") then None
    else
      var parts := JavaSplit(url.value, UploadMarker);
      if |parts| < 2 then None
      else
        var afterUpload := RemoveFirstVersion(parts[1]);
        match LastIndexOf(afterUpload, '.')
        case Some(dot) => if dot > 0 then Some(afterUpload[..dot]) else Some(afterUpload)
        case None => Some(afterUpload)
  }

  /** A match in a prefix is the first match in the whole string. */
  lemma {:induction false} IndexOfPrefix(x: string, y: string, t: string)
    requires IndexOf(x, t).Some?
    ensures IndexOf(x + y, t) == IndexOf(x, t)
  {
    if StartsWith(x, t) {
      assert (x + y)[..|t|] == x[..|t|];
    } else {
      assert x != [];
      assert (x + y)[1..] == x[1..] + y;
      IndexOfPrefix(x[1..], y, t);
    }
  }

  /** The URL of an upload, as the client returns it: a Cloudinary prefix, "/upload/", a version
    * `v<digits>/`, the public id (folders included), a '.' and the file extension. */
  function UploadUrl(prefix: string, version: string, publicId: string, ext: string): string
  {
    prefix + (UploadMarker + ("v" + version + "/" + (publicId + "." + ext)))
  }

  /** The public id of an uploaded image's URL is the one it was stored under. */
  lemma ExtractFromUploadUrl(prefix: string, version: string, publicId: string, ext: string)
    requires Contains(prefix, "cloudinary.com")
    requires IndexOf(prefix + UploadMarker, UploadMarker) == Some(|prefix|)
    requires version != [] && forall k :: 0 <= k < |version| ==> IsDigit(version[k])
    requires publicId != [] && forall k :: 0 <= k < |publicId| ==> publicId[k] != '.'
    requires forall k :: 0 <= k < |ext| ==> ext[k] != '.'
    requires !Contains("v" + version + "/" + (publicId + "." + ext), UploadMarker)
    ensures ExtractPublicId(Some(UploadUrl(prefix, version, publicId, ext))) == Some(publicId)
  {
    var cut := publicId + "." + ext;
    var rest := "v" + version + "/" + cut;
    var url := UploadUrl(prefix, version, publicId, ext);
    ContainsInPrefix(prefix, UploadMarker + rest, "cloudinary.com");
    SplitAtFirst(prefix, UploadMarker, rest);
    StripVersion(version, cut);
    LastDotAt(publicId, ext);
    assert JavaSplit(url, UploadMarker)[1] == rest;
    assert RemoveFirstVersion(rest) == cut;
    assert cut[..|publicId|] == publicId;
  }

  /** A URL that ends at its first "/upload/" has no public id. */
  lemma NothingAfterUpload(prefix: string)
    requires IndexOf(prefix + UploadMarker, UploadMarker) == Some(|prefix|)
    ensures ExtractPublicId(Some(prefix + UploadMarker)).None?
  {
    SplitAtEnd(prefix, UploadMarker);
    NoPublicIdWithoutSecondPiece(prefix + UploadMarker);
  }

  lemma NoPublicIdWithoutSecondPiece(url: string)
    requires |JavaSplit(url, UploadMarker)| < 2
    ensures ExtractPublicId(Some(url)).None?
  {
  }

  /** `split` cuts at the first separator and goes on with what follows it. */
  lemma SplitOnce(s: string, sep: string, i: nat)
    requires sep != [] && IndexOf(s, sep) == Some(i)
    ensures SplitAll(s, sep) == [s[..i]] + SplitAll(s[i + |sep|..], sep)
  {
  }

  /** `split` of a string that ends at its first separator keeps at most the piece before it. */
  lemma SplitAtEnd(prefix: string, sep: string)
    requires sep != [] && IndexOf(prefix + sep, sep) == Some(|prefix|)
    ensures |JavaSplit(prefix + sep, sep)| < 2
  {
    SplitAllAtEnd(prefix, sep);
    assert [prefix, []][..1] == [prefix];
  }

  lemma SplitAllAtEnd(prefix: string, sep: string)
    requires sep != [] && IndexOf(prefix + sep, sep) == Some(|prefix|)
    ensures SplitAll(prefix + sep, sep) == [prefix, []]
  {
    var s := prefix + sep;
    SplitOnce(s, sep, |prefix|);
    assert s[..|prefix|] == prefix;
    assert s[|prefix| + |sep|..] == [];
    assert IndexOf([], sep).None?;
  }

  /** A first separator at `|prefix|` stays the first one whatever follows it. */
  lemma FirstSeparatorKept(prefix: string, sep: string, rest: string)
    requires sep != [] && IndexOf(prefix + sep, sep) == Some(|prefix|)
    ensures IndexOf(prefix + (sep + rest), sep) == Some(|prefix|)
  {
    assert prefix + (sep + rest) == (prefix + sep) + rest;
    IndexOfPrefix(prefix + sep, rest, sep);
  }

  lemma SplitInTwo(prefix: string, sep: string, rest: string)
    requires sep != [] && IndexOf(prefix + (sep + rest), sep) == Some(|prefix|)
    requires IndexOf(rest, sep).None?
    ensures SplitAll(prefix + (sep + rest), sep) == [prefix, rest]
  {
    var url := prefix + (sep + rest);
    SplitOnce(url, sep, |prefix|);
    assert url[..|prefix|] == prefix;
    assert url[|prefix| + |sep|..] == rest;
  }

  /** `split` at a first separator after which no other one follows cuts the string in two. */
  lemma SplitAtFirst(prefix: string, sep: string, rest: string)
    requires sep != [] && IndexOf(prefix + sep, sep) == Some(|prefix|)
    requires rest != [] && !Contains(rest, sep)
    ensures JavaSplit(prefix + (sep + rest), sep) == [prefix, rest]
  {
    FirstSeparatorKept(prefix, sep, rest);
    SplitInTwo(prefix, sep, rest);
    assert DropTrailingEmpty([prefix, rest]) == [prefix, rest];
  }

  /** `replaceFirst("v\\d+/", "")` removes a leading version. */
  lemma StripVersion(version: string, tail: string)
    requires version != [] && forall k :: 0 <= k < |version| ==> IsDigit(version[k])
    ensures RemoveFirstVersion("v" + version + "/" + tail) == tail
  {
    var s := "v" + version + "/" + tail;
    var e := 1 + |version|;
    forall j | 1 <= j < e ensures IsDigit(s[j]) {
      assert s[j] == version[j - 1];
    }
    assert s[e] == '/';
    DigitRunEndAt(s, 1, e);
    assert VersionAt(s, 0);
    assert s[e + 1..] == tail;
  }

  /** `contains` of a prefix carries over to the whole string. */
  lemma ContainsInPrefix(x: string, y: string, t: string)
    requires Contains(x, t)
    ensures Contains(x + y, t)
  {
    IndexOfPrefix(x, y, t);
  }

  /** A digit run from `k` that stops at a non-digit at `m` ends at `m`. */
  lemma {:induction false} DigitRunEndAt(s: string, k: nat, m: nat)
    requires k <= m < |s| && !IsDigit(s[m]) && forall j :: k <= j < m ==> IsDigit(s[j])
    ensures DigitRunEnd(s, k) == m
    decreases m - k
  {
    if k < m {
      DigitRunEndAt(s, k + 1, m);
    }
  }

  /** The dot put before an extension without dots is the last dot of the name. */
  lemma LastDotAt(publicId: string, ext: string)
    requires forall k :: 0 <= k < |ext| ==> ext[k] != '.'
    ensures LastIndexOf(publicId + "." + ext, '.') == Some(|publicId|)
  {
    DotBeforeExtension(publicId, ext);
    LastOccurrence(publicId + "." + ext, '.', |publicId|);
  }

  lemma DotBeforeExtension(publicId: string, ext: string)
    requires forall k :: 0 <= k < |ext| ==> ext[k] != '.'
    ensures var s := publicId + "." + ext;
      |publicId| < |s| && s[|publicId|] == '.' && forall j :: |publicId| < j < |s| ==> s[j] != '.'
  {
    var s := publicId + "." + ext;
    var d := |publicId|;
    forall j | d < j < |s| ensures s[j] != '.' {
      assert s[j] == ext[j - d - 1];
    }
  }

  /** An occurrence of `c` with none after it is the last one. */
  lemma LastOccurrence(s: string, c: char, k: nat)
    requires k < |s| && s[k] == c && forall j :: k < j < |s| ==> s[j] != c
    ensures LastIndexOf(s, c) == Some(k)
  {
    var r := LastIndexOf(s, c);
    assert r.Some? && k <= r.value;
  }

  // ---------------------------------------------------------------- deleteImage

  /** `deleteImage` never throws: it answers the public id the client's `destroy` is called with,
    * or None when no call is made. */
  function DeleteImage(url: Option<string>): (destroyed: Option<string>)
    ensures destroyed.Some? ==> url.Some? && Contains(url.value, "cloudinary.com")
    ensures url.None? ==> destroyed.None?
  {
    ExtractPublicId(url)
  }
}
