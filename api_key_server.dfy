/** Server-side API-key helpers (apps/web/src/lib/api-key-server.ts): the
    SHA-256 hex hash stored in the `api_keys` table, and random strings drawn
    from `randomBytes`. SHA-256 and the random bytes are parameters. */
module ApiKeyServer {
  import opened Encoding
  import ApiKey

  /** `hashApiKey`: `createHash('sha256').update(apiKey).digest('hex')`, where
      `update` encodes the string as UTF-8 and `sha256` stands for the digest. */
  function HashApiKey(sha256: seq<Byte> -> seq<Byte>, apiKey: string): (h: string)
    ensures |h| == 2 * |sha256(Utf8(apiKey))|
    ensures forall k :: 0 <= k < |h| ==> IsLowerHexDigit(h[k])
  {
    HexOfBytes(sha256(Utf8(apiKey)))
  }

  /** The stored hash is the digest itself, written in hex: two keys share a
      stored hash exactly when their digests are equal. */
  lemma HashApiKeyDeterminesDigest(sha256: seq<Byte> -> seq<Byte>, a: string, b: string)
    ensures HashApiKey(sha256, a) == HashApiKey(sha256, b) <==> sha256(Utf8(a)) == sha256(Utf8(b))
  {
    HexRoundTrip(sha256(Utf8(a)));
    HexRoundTrip(sha256(Utf8(b)));
  }

  /** The server hash and the browser's Web Crypto hash agree on every key. */
  lemma HashApiKeyMatchesBrowser(sha256: seq<Byte> -> seq<Byte>, apiKey: string)
    ensures ApiKey.HashApiKeyAsync(apiKey, true, sha256) == ApiKey.Hashed(HashApiKey(sha256, apiKey))
  {
  }

  /** `generateSecureRandomString(length)`; `bytes` is `randomBytes(length)`.
      The local alphabet literal is the same 62 characters as `ApiKey.Alphanumeric`. */
  method GenerateSecureRandomString(length: nat, bytes: seq<Byte>) returns (result: string)
    requires |bytes| == length
    ensures |result| == length
    ensures forall i :: 0 <= i < length ==> ApiKey.IsAlnum(result[i])
    ensures forall i :: 0 <= i < length ==> result[i] == ApiKey.Alphanumeric[bytes[i] % 62]
  {
    ApiKey.AlphanumericLayout();
    result := "";
    for i := 0 to length
      invariant |result| == i
      invariant forall k :: 0 <= k < i ==> result[k] == ApiKey.Alphanumeric[bytes[k] % 62]
    {
      result := result + [ApiKey.Alphanumeric[bytes[i] % 62]];
    }
  }
}
