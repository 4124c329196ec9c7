/** The S3 key check that guards every upload, and the two upload
    wrappers over a bucket modelled as a map from key to stored object.
    The network call itself is a boolean parameter: whether `put_object`
    succeeded. */
module S3Storage {
  import opened Wrappers
  import opened Strings
  import opened PyValues

  /** The number of bytes a character takes in UTF-8. */
  function Utf8Width(c: char): (w: nat)
    ensures 1 <= w <= 4
    ensures w == 1 <==> c as int < 0x80
  {
    if c as int < 0x80 then 1 else if c as int < 0x800 then 2 else if c as int < 0x10000 then 3 else 4
  }

  /** `len(s.encode("utf-8"))`. */
  function Utf8Len(s: string): nat
    decreases |s|
  {
    if s == [] then 0 else Utf8Width(s[0]) + Utf8Len(s[1..])
  }

  /** UTF-8 never takes fewer bytes than characters, and exactly as many
      for an ASCII string. */
  lemma {:induction false} Utf8LenBounds(s: string)
    ensures Utf8Len(s) >= |s|
    ensures (forall i :: 0 <= i < |s| ==> s[i] as int < 0x80) <==> Utf8Len(s) == |s|
    decreases |s|
  {
    if s != [] {
      Utf8LenBounds(s[1..]);
      if forall i :: 0 <= i < |s| ==> s[i] as int < 0x80 {
        assert forall i :: 0 <= i < |s[1..]| ==> s[1..][i] == s[i + 1];
      }
    }
  }

  /** `[a-zA-Z0-9/_.-]`. */
  predicate IsKeyChar(c: char) { IsAsciiAlnum(c) || c == '/' || c == '_' || c == '.' || c == '-' }

  /** The characters rejected outright: backslash, NUL, CR and LF. */
  predicate IsForbiddenChar(c: char) { c == '\\' || c as int == 0 || c == '\r' || c == '\n' }

  datatype KeyError = NotAString | PathTraversal | InvalidCharacters | TooLong | UnsupportedCharacters

  /** `validate_s3_key`: a truthy string, stripped of surrounding
      whitespace, then checked by CheckKey. */
  function ValidateS3Key(key: Json): Result<string, KeyError>
  {
    if !IsTruthy(key) || !key.Str? then Err(NotAString)
    else CheckKey(Strip(key.s))
  }

  /** The checks on the stripped key, in order: `..` and a leading or
      trailing `/`, the forbidden characters, more than 1000 UTF-8 bytes,
      and the key alphabet (at least one character). */
  function CheckKey(k: string): Result<string, KeyError>
  {
    if IsSubstring("..", k) || StartsWith(k, "/") || EndsWith(k, "/") then Err(PathTraversal)
    else if exists i :: 0 <= i < |k| && IsForbiddenChar(k[i]) then Err(InvalidCharacters)
    else if Utf8Len(k) > 1000 then Err(TooLong)
    else if !(|k| > 0 && forall i :: 0 <= i < |k| ==> IsKeyChar(k[i])) then Err(UnsupportedCharacters)
    else Ok(k)
  }

  /** The shape of a good key. */
  predicate SafeKey(k: string) {
    && 1 <= |k| <= 1000
    && (forall i :: 0 <= i < |k| ==> IsKeyChar(k[i]))
    && !IsSubstring("..", k)
    && k[0] != '/' && k[|k| - 1] != '/'
  }

  /** The ordered checks accept exactly the safe keys, unchanged: made of
      key characters only, free of `..`, with no `/` at either end, and at
      most 1000 characters (its UTF-8 length, as it is ASCII). */
  lemma CheckKeyAcceptsSafe(k: string)
    ensures CheckKey(k).Ok? <==> SafeKey(k)
    ensures CheckKey(k).Ok? ==> CheckKey(k).value == k
  {
    if |k| > 0 && forall i :: 0 <= i < |k| ==> IsKeyChar(k[i]) {
      Utf8LenBounds(k);
      assert forall i :: 0 <= i < |k| ==> !IsForbiddenChar(k[i]);
      assert StartsWith(k, "/") <==> k[0] == '/';
      assert EndsWith(k, "/") <==> k[|k| - 1] == '/';
    }
  }

  /** A key is accepted exactly when it is a string whose stripped form
      is safe, and the result is that stripped form. */
  lemma ValidateS3KeyAcceptsExactly(key: Json)
    ensures ValidateS3Key(key).Ok? <==> key.Str? && SafeKey(Strip(key.s))
    ensures ValidateS3Key(key).Ok? ==> ValidateS3Key(key).value == Strip(key.s)
  {
    if key.Str? {
      CheckKeyAcceptsSafe(Strip(key.s));
    }
  }

  /** A returned key validates again to itself. */
  lemma ValidateS3KeyIdempotent(key: Json)
    requires ValidateS3Key(key).Ok?
    ensures ValidateS3Key(Str(ValidateS3Key(key).value)) == ValidateS3Key(key)
  {
    var k := ValidateS3Key(key).value;
    ValidateS3KeyAcceptsExactly(key);
    assert !IsPyWhitespace(k[0]) && !IsPyWhitespace(k[|k| - 1]);
    StripUntouched(k);
    ValidateS3KeyAcceptsExactly(Str(k));
  }

  /** A key of nothing but whitespace is refused: as the empty string
      when it is empty, for its (empty) stripped alphabet otherwise. */
  lemma WhitespaceKeyRejected(s: string)
    requires forall i :: 0 <= i < |s| ==> IsPyWhitespace(s[i])
    ensures ValidateS3Key(Str(s)) == if s == "" then Err(NotAString) else Err(UnsupportedCharacters)
  {
    assert Strip(s) == "";
    assert !IsSubstring("..", "");
  }

  // --------------------------------------------------------------- uploads

  datatype Body = Text(text: string) | Binary(bytes: seq<bv8>)

  /** What `put_object` stores: the body and its content type. */
  datatype StoredObject = StoredObject(body: Body, contentType: string)

  type Bucket = map<string, StoredObject>

  /** The common shape of both wrappers: an invalid key answers False
      before any upload; otherwise the object is stored under the
      stripped key when the upload succeeds, and False is answered when
      it raises. */
  function Upload(bucket: Bucket, obj: StoredObject, key: string, uploadSucceeds: bool): (Bucket, bool)
  {
    match ValidateS3Key(Str(key))
    case Err(_) => (bucket, false)
    case Ok(k) => if uploadSucceeds then (bucket[k := obj], true) else (bucket, false)
  }

  /** `save_file_to_s3`: a text body, stored as `text/plain`. */
  function SaveFileToS3(bucket: Bucket, content: string, key: string, uploadSucceeds: bool): (Bucket, bool)
  {
    Upload(bucket, StoredObject(Text(content), "text/plain"), key, uploadSucceeds)
  }

  /** `save_binary_file_to_s3`: raw bytes, stored as
      `application/octet-stream`. */
  function SaveBinaryFileToS3(bucket: Bucket, content: seq<bv8>, key: string, uploadSucceeds: bool): (Bucket, bool)
  {
    Upload(bucket, StoredObject(Binary(content), "application/octet-stream"), key, uploadSucceeds)
  }

  /** An upload reports success exactly when the key is valid and the
      store accepted it; then the object sits under a safe key (the
      stripped one) and no other key changes; on failure the bucket is
      as it was. */
  lemma UploadContract(bucket: Bucket, obj: StoredObject, key: string, uploadSucceeds: bool)
    ensures var (after, ok) := Upload(bucket, obj, key, uploadSucceeds);
      && (ok <==> ValidateS3Key(Str(key)).Ok? && uploadSucceeds)
      && (!ok ==> after == bucket)
      && (ok ==> var k := Strip(key);
                 SafeKey(k) && k in after && after[k] == obj
                 && forall other :: other != k ==>
                      (other in after <==> other in bucket) && (other in bucket ==> after[other] == bucket[other]))
  {
    ValidateS3KeyAcceptsExactly(Str(key));
  }

  /** Neither wrapper writes anything under a key the check refuses. */
  lemma InvalidKeyNeverUploads(bucket: Bucket, text: string, bytes: seq<bv8>, key: string, uploadSucceeds: bool)
    requires ValidateS3Key(Str(key)).Err?
    ensures SaveFileToS3(bucket, text, key, uploadSucceeds) == (bucket, false)
    ensures SaveBinaryFileToS3(bucket, bytes, key, uploadSucceeds) == (bucket, false)
  {
  }
}
