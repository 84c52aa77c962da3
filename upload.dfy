/**
  The upload route: its guard chain (authentication, method, upload
  directory, file present, MIME allow-list, size limit) and the stored
  file's name and URL. The authentication result, the outcome of creating
  the upload directory and of moving the file, and uniqid's suffix come in
  as parameters; the filesystem itself is not modelled.
*/
module Upload {
  import opened Schema

  /** 5 * 1024 * 1024 bytes. */
  const MaxSize: int := 5 * 1024 * 1024
  const AllowedTypes: seq<string> := ["image/jpeg", "image/png", "image/gif", "image/webp"]
  const FilenamePrefix: string := "code_"
  const UrlPrefix: string := "/uploads/"

  /** What authenticate() produced: its 401 (with its message), or the id
      carried by the token. */
  datatype AuthResult = Rejected(message: string) | Authenticated(userId: nat)

  /** $_FILES['image']: client file name, client-declared MIME type, size, error code. */
  datatype UploadedFile = UploadedFile(name: string, mimeType: string, size: int, error: nat)

  datatype Stored = Stored(url: string, filename: string)

  /** A response, or the script ending with no body (exit() after an
      authenticate() that returned the falsy id 0). */
  datatype UploadResponse = Response(outcome: Outcome<Stored>) | Ended

  // ---- decimal rendering of integers (PHP's int-to-string) ----

  predicate IsDigit(c: char) { '0' <= c <= '9' }

  function Digit(d: nat): (c: char)
    requires d < 10
    ensures IsDigit(c)
  {
    ['0', '1', '2', '3', '4', '5', '6', '7', '8', '9'][d]
  }

  function DigitValue(c: char): nat
    requires IsDigit(c)
  {
    (c as int - '0' as int) as nat
  }

  lemma DigitRoundTrip(d: nat)
    requires d < 10
    ensures DigitValue(Digit(d)) == d
  {
  }

  function Decimal(n: nat): (s: string)
    ensures |s| > 0
    ensures forall i :: 0 <= i < |s| ==> IsDigit(s[i])
  {
    if n < 10 then [Digit(n)] else Decimal(n / 10) + [Digit(n % 10)]
  }

  function ParseDecimal(s: string): nat
    requires forall i :: 0 <= i < |s| ==> IsDigit(s[i])
  {
    if s == [] then 0 else 10 * ParseDecimal(s[..|s| - 1]) + DigitValue(s[|s| - 1])
  }

  lemma {:induction false} DecimalRoundTrip(n: nat)
    ensures ParseDecimal(Decimal(n)) == n
  {
    var s := Decimal(n);
    if n < 10 {
      DigitRoundTrip(n);
    } else {
      DecimalRoundTrip(n / 10);
      DigitRoundTrip(n % 10);
      assert s[..|s| - 1] == Decimal(n / 10);
    }
  }

  /** The longest run of digits at the start of s. */
  function LeadingDigits(s: string): (r: string)
    ensures r <= s
    ensures forall i :: 0 <= i < |r| ==> IsDigit(r[i])
  {
    if s != [] && IsDigit(s[0]) then [s[0]] + LeadingDigits(s[1..]) else []
  }

  lemma {:induction false} LeadingDigitsStopAtSeparator(d: string, rest: string)
    requires forall i :: 0 <= i < |d| ==> IsDigit(d[i])
    requires rest != [] && !IsDigit(rest[0])
    ensures LeadingDigits(d + rest) == d
  {
    if d != [] {
      assert (d + rest)[1..] == d[1..] + rest;
      LeadingDigitsStopAtSeparator(d[1..], rest);
    }
  }

  // ---- pathinfo($name, PATHINFO_EXTENSION) ----

  /** The part of s after its last c; all of s when c does not occur. */
  function AfterLast(s: string, c: char): (r: string)
    ensures |r| <= |s| && r == s[|s| - |r|..]
    ensures c !in r
    ensures |r| < |s| ==> s[|s| - |r| - 1] == c
  {
    if s == [] then []
    else if s[|s| - 1] == c then []
    else
      var r := AfterLast(s[..|s| - 1], c);
      assert s[..|s| - 1][|s| - 1 - |r|..] + [s[|s| - 1]] == s[|s| - 1 - |r|..];
      r + [s[|s| - 1]]
  }

  /** A suffix after the last '.' of a suffix of name sits right after a '.'
      of name. */
  lemma DotSuffix(name: string, base: string, ext: string)
    requires |base| <= |name| && base == name[|name| - |base|..]
    requires '.' in base && '.' !in ext
    requires |ext| <= |base| && ext == base[|base| - |ext|..]
    requires |ext| < |base| ==> base[|base| - |ext| - 1] == '.'
    ensures |ext| < |name| && name[|name| - |ext| - 1..] == ['.'] + ext
  {
    assert ext != base;
    assert base[|base| - |ext| - 1..] == ['.'] + ext;
    assert name[|name| - |ext| - 1..] == base[|base| - |ext| - 1..];
  }

  /** The extension of the file name: what follows the last '.' of its last
      path component, or nothing when that component has no '.'. */
  function Extension(name: string): (ext: string)
    ensures '.' !in ext && '/' !in ext
    ensures '.' in AfterLast(name, '/') ==> |ext| < |name| && name[|name| - |ext| - 1..] == ['.'] + ext
    ensures '.' !in AfterLast(name, '/') ==> ext == ""
  {
    var base := AfterLast(name, '/');
    if '.' in base then
      var ext := AfterLast(base, '.');
      DotSuffix(name, base, ext);
      ext
    else ""
  }

  /** uniqid('code_' . $userId . '_') . '.' . $extension, with uniq standing
      for uniqid's generated part. */
  function StoredName(userId: nat, uniq: string, ext: string): string {
    FilenamePrefix + Decimal(userId) + "_" + uniq + "." + ext
  }

  /** The upload route, top to bottom. */
  function HandleUpload(auth: AuthResult, requestMethod: string, dirReady: bool, file: Option<UploadedFile>,
                        uniq: string, moved: bool): (r: UploadResponse)
    ensures auth.Rejected? ==> r == Response(Fail(Unauthorized, auth.message))
    ensures auth == Authenticated(0) ==> r == Ended
    ensures auth.Authenticated? && auth.userId > 0 && requestMethod != "POST" ==>
      r == Response(Fail(MethodNotAllowed, "Method not allowed"))
    ensures auth.Authenticated? && auth.userId > 0 && requestMethod == "POST" && !dirReady ==>
      r == Response(Fail(InternalError, "Failed to create upload directory"))
    ensures auth.Authenticated? && auth.userId > 0 && requestMethod == "POST" && dirReady
            && (file.None? || file.value.error != 0) ==>
      r.Response? && r.outcome.Fail? && r.outcome.status == BadRequest
    ensures auth.Authenticated? && auth.userId > 0 && requestMethod == "POST" && dirReady
            && file.Some? && file.value.error == 0 && file.value.mimeType !in AllowedTypes ==>
      r == Response(Fail(BadRequest, "Invalid file type. Only JPEG, PNG, GIF, and WebP are allowed"))
    ensures auth.Authenticated? && auth.userId > 0 && requestMethod == "POST" && dirReady
            && file.Some? && file.value.error == 0 && file.value.mimeType in AllowedTypes && file.value.size > MaxSize ==>
      r == Response(Fail(BadRequest, "File size must be less than 5MB"))
    ensures auth.Authenticated? && auth.userId > 0 && requestMethod == "POST" && dirReady
            && file.Some? && file.value.error == 0 && file.value.mimeType in AllowedTypes && file.value.size <= MaxSize
            && !moved ==>
      r == Response(Fail(InternalError, "Failed to upload file"))
    ensures r.Response? && r.outcome.Ok? <==>
      && auth.Authenticated? && auth.userId > 0 && requestMethod == "POST" && dirReady
      && file.Some? && file.value.error == 0
      && file.value.mimeType in AllowedTypes && file.value.size <= MaxSize
      && moved
    ensures r.Response? && r.outcome.Ok? ==>
      && r.outcome.value.filename == StoredName(auth.userId, uniq, Extension(file.value.name))
      && r.outcome.value.url == UrlPrefix + r.outcome.value.filename
  {
    match auth
    case Rejected(message) => Response(Fail(Unauthorized, message))
    case Authenticated(userId) =>
      if userId == 0 then Ended
      else if requestMethod != "POST" then Response(Fail(MethodNotAllowed, "Method not allowed"))
      else if !dirReady then Response(Fail(InternalError, "Failed to create upload directory"))
      else if file.None? || file.value.error != 0 then
        var code := if file.None? then "No file" else Decimal(file.value.error);
        Response(Fail(BadRequest, "No image file provided or upload error: " + code))
      else if file.value.mimeType !in AllowedTypes then
        Response(Fail(BadRequest, "Invalid file type. Only JPEG, PNG, GIF, and WebP are allowed"))
      else if file.value.size > MaxSize then
        Response(Fail(BadRequest, "File size must be less than 5MB"))
      else
        var filename := StoredName(userId, uniq, Extension(file.value.name));
        if moved then Response(Ok(Stored(UrlPrefix + filename, filename)))
        else Response(Fail(InternalError, "Failed to upload file"))
  }

  /** The type check runs before the size check: an oversized file of a
      refused type is reported as a type error. */
  lemma TypeCheckedBeforeSize(userId: nat, dirReady: bool, f: UploadedFile, uniq: string, moved: bool)
    requires userId > 0 && dirReady && f.error == 0
    requires f.mimeType !in AllowedTypes && f.size > MaxSize
    ensures HandleUpload(Authenticated(userId), "POST", dirReady, Some(f), uniq, moved)
         == Response(Fail(BadRequest, "Invalid file type. Only JPEG, PNG, GIF, and WebP are allowed"))
  {
  }

  /** The limit is inclusive: a file of exactly 5 MiB is stored. */
  lemma ExactlyFiveMiBAccepted(userId: nat, name: string, mimeType: string, uniq: string)
    requires userId > 0 && mimeType in AllowedTypes
    ensures HandleUpload(Authenticated(userId), "POST", true, Some(UploadedFile(name, mimeType, MaxSize, 0)), uniq, true).outcome.Ok?
    ensures HandleUpload(Authenticated(userId), "POST", true, Some(UploadedFile(name, mimeType, MaxSize + 1, 0)), uniq, true)
         == Response(Fail(BadRequest, "File size must be less than 5MB"))
  {
  }

  lemma PhpExtension()
    ensures Extension("shell.php") == "php"
  {
    assert AfterLast("shell.php", '/') == "shell.php";
    assert AfterLast("shell.php", '.') == "php";
  }

  /** The stored extension is the client's, whatever MIME type was declared:
      an accepted image named "shell.php" is stored as a .php file. */
  lemma ExtensionNotCheckedAgainstType(userId: nat, mimeType: string, size: int, uniq: string)
    requires userId > 0 && mimeType in AllowedTypes && size <= MaxSize
    ensures var r := HandleUpload(Authenticated(userId), "POST", true,
                                  Some(UploadedFile("shell.php", mimeType, size, 0)), uniq, true);
      r.outcome.Ok? && r.outcome.value.filename == StoredName(userId, uniq, "php")
  {
    var f := UploadedFile("shell.php", mimeType, size, 0);
    var r := HandleUpload(Authenticated(userId), "POST", true, Some(f), uniq, true);
    assert r.Response? && r.outcome.Ok?;
    assert r.outcome.value.filename == StoredName(userId, uniq, Extension(f.name));
    PhpExtension();
  }

  /** The stored name records its uploader: the digits after "code_" read
      back as the user's id. */
  lemma {:induction false} StoredNameNamesUploader(userId: nat, uniq: string, ext: string)
    ensures var f := StoredName(userId, uniq, ext);
      FilenamePrefix <= f && ParseDecimal(LeadingDigits(f[|FilenamePrefix|..])) == userId
  {
    var f := StoredName(userId, uniq, ext);
    var d := Decimal(userId);
    var rest := "_" + uniq + "." + ext;
    assert f == FilenamePrefix + (d + rest);
    assert f[|FilenamePrefix|..] == d + rest;
    LeadingDigitsStopAtSeparator(d, rest);
    DecimalRoundTrip(userId);
  }
}
