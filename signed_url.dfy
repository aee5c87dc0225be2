/**
 * The admin endpoint that signs a URL for a stored attachment: the key-safety test and the
 * order of its answers (401, 400, 404, 500, 200). The signer and the session token are given.
 */
module SignedUrl {
  import opened Wrappers
  import opened Text
  import Register

  const UnauthorizedError: string := "Unauthorized"
  const InvalidKeyError: string := "Invalid key"
  const UnavailableError: string := "Attachment is unavailable"
  const SigningError: string := "Unable to generate signed URL"

  /**
   * `keyLooksSafe`: a present, non-empty key that has no "..", and starts with neither "/"
   * nor a backslash. `searchParams.get` yields a string or `null`, so `None` stands for every
   * non-string.
   */
  function KeyLooksSafe(key: Option<string>): (r: bool)
    ensures r <==> (key.Some? && key.value != "" && !Contains(key.value, "..")
      && !StartsWith(key.value, "/") && !StartsWith(key.value, "\\"))
  {
    if key.None? || key.value == "" then false
    else if Contains(key.value, "..") || StartsWith(key.value, "/") || StartsWith(key.value, "\\") then false
    else true
  }

  /** A request whose non-empty session cookie equals the expected token. */
  predicate Authorized(sessionToken: Option<string>, expectedToken: string) {
    sessionToken == Some(expectedToken) && expectedToken != ""
  }

  datatype ResponseBody = ErrorBody(error: string) | UrlBody(url: string)

  datatype Response = Response(status: nat, body: ResponseBody)

  /**
   * `GET`: `sessionToken` is the request's cookie, `expectedToken` the computed session token,
   * `key` the query parameter, and `sign` the signer's result (the URL or nothing), or the
   * error it threw.
   */
  function Get(sessionToken: Option<string>, expectedToken: string, key: Option<string>,
               sign: string -> Result<Option<string>, string>): (r: Response)
    ensures r.status in {401, 400, 404, 500, 200}
    ensures r.status == 401 <==> sessionToken.None? || sessionToken.value == "" || sessionToken.value != expectedToken
    ensures r.status == 401 <==> !Authorized(sessionToken, expectedToken)
    ensures r.status == 400 ==> sessionToken == Some(expectedToken) && !KeyLooksSafe(key)
    ensures r.status == 200 ==> (KeyLooksSafe(key) && sessionToken == Some(expectedToken)
      && sign(key.value).Success? && sign(key.value).value.Some?
      && r.body == UrlBody(sign(key.value).value.value) && r.body.url != "")
    ensures r.status == 404 <==> (r.body == ErrorBody(UnavailableError) && sessionToken == Some(expectedToken))
    ensures r.status == 500 ==> r.body == ErrorBody(SigningError)
    ensures Authorized(sessionToken, expectedToken) && !KeyLooksSafe(key) ==>
      r == Response(400, ErrorBody(InvalidKeyError))
    ensures Authorized(sessionToken, expectedToken) && KeyLooksSafe(key) && sign(key.value).Failure? ==>
      r == Response(500, ErrorBody(SigningError))
    ensures (Authorized(sessionToken, expectedToken) && KeyLooksSafe(key) && sign(key.value).Success?
      && (sign(key.value).value.None? || sign(key.value).value.value == "")) ==>
      r == Response(404, ErrorBody(UnavailableError))
    ensures (Authorized(sessionToken, expectedToken) && KeyLooksSafe(key) && sign(key.value).Success?
      && sign(key.value).value.Some? && sign(key.value).value.value != "") ==>
      r == Response(200, UrlBody(sign(key.value).value.value))
  {
    if sessionToken.None? || sessionToken.value == "" || sessionToken.value != expectedToken then
      Response(401, ErrorBody(UnauthorizedError))
    else if !KeyLooksSafe(key) then Response(400, ErrorBody(InvalidKeyError))
    else
      match sign(key.value)
      case Failure(_) => Response(500, ErrorBody(SigningError))
      case Success(url) =>
        if url.None? || url.value == "" then Response(404, ErrorBody(UnavailableError))
        else Response(200, UrlBody(url.value))
  }

  /** An unauthorized request is refused whatever its key and whatever the signer does. */
  lemma UnauthorizedIgnoresKey(sessionToken: Option<string>, expectedToken: string,
                               key1: Option<string>, key2: Option<string>,
                               sign1: string -> Result<Option<string>, string>,
                               sign2: string -> Result<Option<string>, string>)
    requires sessionToken != Some(expectedToken)
    ensures Get(sessionToken, expectedToken, key1, sign1) == Get(sessionToken, expectedToken, key2, sign2)
  {
  }

  /**
   * A key the registration route stores for an uploaded file whose sanitised name holds ".."
   * (say "a..b.jpg") is refused here: such an attachment cannot be signed.
   */
  lemma StoredKeyWithDotsRefused(folder: string, filename: Option<string>, now: nat, uuid: string)
    requires Contains(Register.SanitizeFilename(filename), "..")
    ensures !KeyLooksSafe(Some(Register.BuildStorageKey(folder, filename, now, uuid)))
  {
    var key := Register.BuildStorageKey(folder, filename, now, uuid);
    var name := Register.SanitizeFilename(filename);
    Register.StorageKeyInFolder(folder, filename, now, uuid);
    EndsWithDropFirst(key, "-", name);
    ContainsInSuffix(key, name, "..");
  }

  /** A string that ends with `a + b` ends with `b`. */
  lemma EndsWithDropFirst(s: string, a: string, b: string)
    requires EndsWith(s, a + b)
    ensures EndsWith(s, b)
  {
    assert s[|s| - |b|..] == s[|s| - |a + b|..][|a|..];
  }

  /** A word in the suffix of a string is in the string. */
  lemma ContainsInSuffix(s: string, suffix: string, w: string)
    requires EndsWith(s, suffix) && Contains(suffix, w)
    ensures Contains(s, w)
  {
    var k: nat :| k <= |suffix| && OccursAt(suffix, w, k);
    var start := |s| - |suffix|;
    assert s[start + k..start + k + |w|] == suffix[k..k + |w|];
    assert OccursAt(s, w, start + k);
  }
}
