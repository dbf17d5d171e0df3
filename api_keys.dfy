/** The two API-key checks: the server's header check against the list of
    configured keys, and the key-file check that compares a header with the
    key stored on disk. */
module ApiKeys {
  import opened Outcomes
  import opened Text

  // ---------------------------------------------------------------------------
  // The server's header check
  // ---------------------------------------------------------------------------

  function InvalidOrMissing(): Failure
  {
    HttpError(403, "Invalid or missing API key")
  }

  /** `get_api_key` of the server: with security on, a missing or empty key
      or one not configured is refused; otherwise the key, or its absence,
      passes through. */
  function ServerGetApiKey(enabled: bool, apiKeys: seq<string>, apiKey: Option<string>): (r: Result<Option<string>>)
    ensures r.Ok? ==> r.value == apiKey
    ensures r.Err? ==> r.error == InvalidOrMissing()
  {
    if enabled && (apiKey.None? || apiKey.value == [] || apiKey.value !in apiKeys) then Err(InvalidOrMissing())
    else Ok(apiKey)
  }

  /** With security on, exactly the non-empty configured keys pass. */
  lemma EnabledAcceptsConfigured(apiKeys: seq<string>, apiKey: Option<string>)
    ensures ServerGetApiKey(true, apiKeys, apiKey).Ok?
        <==> apiKey.Some? && apiKey.value != [] && apiKey.value in apiKeys
  {
  }

  /** An empty header is refused even when the empty string is configured. */
  lemma EmptyKeyRefused(apiKeys: seq<string>)
    ensures ServerGetApiKey(true, apiKeys, Some("")) == Err(InvalidOrMissing())
  {
  }

  /** With security off, every key, and its absence, passes unchanged. */
  lemma DisabledPassesThrough(apiKeys: seq<string>, apiKey: Option<string>)
    ensures ServerGetApiKey(false, apiKeys, apiKey) == Ok(apiKey)
  {
  }

  // ---------------------------------------------------------------------------
  // The key file
  // ---------------------------------------------------------------------------

  function KeyNotFound(): Failure
  {
    HttpError(500, "API key not found. Please generate one.")
  }

  function InvalidApiKey(): Failure
  {
    HttpError(401, "Invalid API Key")
  }

  function NonAscii(): Failure
  {
    TypeError("comparing strings with non-ASCII characters is not supported")
  }

  /** `get_api_key` of the key-file module: `keyFile` is the text
      `read_text()` returns for the key file (line endings already
      translated), or `None` when it is not a file. */
  function StoredKey(keyFile: Option<string>): (r: Result<string>)
    ensures r.Err? <==> keyFile.None?
    ensures r.Err? ==> r.error == KeyNotFound()
    ensures r.Ok? ==> r.value == Strip(keyFile.value)
  {
    match keyFile
    case None => Err(KeyNotFound())
    case Some(text) => Ok(Strip(text))
  }

  predicate IsAscii(s: string)
  {
    forall i :: 0 <= i < |s| ==> s[i] as int < 128
  }

  /** `secrets.compare_digest` on two `str` values: equality, but a
      `TypeError` when either holds a non-ASCII character. */
  function CompareDigest(a: string, b: string): (r: Result<bool>)
    ensures r.Ok? <==> IsAscii(a) && IsAscii(b)
    ensures r.Ok? ==> (r.value <==> a == b)
    ensures r.Err? ==> r.error == NonAscii()
  {
    if !IsAscii(a) || !IsAscii(b) then Err(NonAscii()) else Ok(a == b)
  }

  /** `verify_api_key(apiKey)` against the key file's text. */
  function VerifyApiKey(apiKey: string, keyFile: Option<string>): (r: Result<string>)
    ensures r.Ok? ==> r.value == apiKey
  {
    match StoredKey(keyFile)
    case Err(e) => Err(e)
    case Ok(stored) =>
      match CompareDigest(apiKey, stored)
      case Err(e) => Err(e)
      case Ok(same) => if same then Ok(apiKey) else Err(InvalidApiKey())
  }

  /** The header is accepted exactly when the key file exists and its
      stripped text is the header, in ASCII. A missing file is the 500; a
      different key is the 401 when both keys are ASCII, and the
      `TypeError` of `compare_digest` when either is not. */
  lemma VerifyAcceptsExactly(apiKey: string, keyFile: Option<string>)
    ensures VerifyApiKey(apiKey, keyFile).Ok?
        <==> keyFile.Some? && IsAscii(apiKey) && apiKey == Strip(keyFile.value)
    ensures keyFile.None? ==> VerifyApiKey(apiKey, keyFile) == Err(KeyNotFound())
    ensures keyFile.Some? && IsAscii(apiKey) && IsAscii(Strip(keyFile.value)) && apiKey != Strip(keyFile.value)
        ==> VerifyApiKey(apiKey, keyFile) == Err(InvalidApiKey())
    ensures keyFile.Some? && !(IsAscii(apiKey) && IsAscii(Strip(keyFile.value)))
        ==> VerifyApiKey(apiKey, keyFile) == Err(NonAscii())
  {
  }

  // ---------------------------------------------------------------------------
  // Generating a key
  // ---------------------------------------------------------------------------

  /** The alphabet of `secrets.token_urlsafe`. */
  predicate UrlSafe(c: char)
  {
    ('A' <= c <= 'Z') || ('a' <= c <= 'z') || ('0' <= c <= '9') || c == '-' || c == '_'
  }

  predicate UrlSafeToken(token: string)
  {
    token != [] && forall i :: 0 <= i < |token| ==> UrlSafe(token[i])
  }

  /** `generate_api_key()` with the random token given: the file text it
      writes and the key it returns. The file holds the key, and reading
      it back yields the key again. */
  function GenerateApiKey(token: string): (r: (string, string))
    ensures r.0 == r.1
    ensures UrlSafeToken(token) ==> IsAscii(r.1) && StoredKey(Some(r.0)) == Ok(r.1)
  {
    if UrlSafeToken(token) then UrlSafeKey(token); (token, token)
    else (token, token)
  }

  /** A URL-safe token is ASCII and has no surrounding whitespace. */
  lemma UrlSafeKey(token: string)
    requires UrlSafeToken(token)
    ensures IsAscii(token) && Strip(token) == token
    ensures !IsSpace(token[0]) && !IsSpace(token[|token| - 1])
  {
    assert IsAscii(token) by {
      forall i | 0 <= i < |token| ensures token[i] as int < 128 {
        assert UrlSafe(token[i]);
      }
    }
    assert !IsSpace(token[0]) && !IsSpace(token[|token| - 1]) by {
      assert UrlSafe(token[0]) && UrlSafe(token[|token| - 1]);
    }
    StripUnchanged(token);
  }

  /** A generated key verifies, also after the file picks up surrounding
      whitespace such as a trailing newline; no other key does. */
  lemma GenerateThenVerify(token: string, other: string, before: string, after: string)
    requires UrlSafeToken(token) && AllSpace(before) && AllSpace(after)
    ensures var (written, key) := GenerateApiKey(token);
            VerifyApiKey(key, Some(written)) == Ok(key)
            && VerifyApiKey(key, Some(before + written + after)) == Ok(key)
            && (VerifyApiKey(other, Some(before + written + after)).Ok? ==> other == key)
  {
    UrlSafeKey(token);
    StripPadded(before, token, after);
    StoredKeyVerifies(token, token);
    StoredKeyVerifies(token, before + token + after);
    VerifyAcceptsExactly(other, Some(before + token + after));
  }

  /** An ASCII key verifies against any file text that strips to it. */
  lemma StoredKeyVerifies(key: string, text: string)
    requires IsAscii(key) && Strip(text) == key
    ensures VerifyApiKey(key, Some(text)) == Ok(key)
  {
    VerifyAcceptsExactly(key, Some(text));
  }
}
