/** Client-side API-key helpers (apps/web/src/lib/api-key.ts): key generation
    from a base-36 timestamp and 32 random alphanumerics, the key format check,
    the display prefix and mask, and the hex rendering of a Web Crypto digest.
    The clock, the random sources and the digest are parameters. */
module ApiKey {
  import opened Strings
  import opened Encoding

  const KeyPrefix: string := "sd_"
  const RandomPartLength: nat := 32
  const DisplayPrefixLength: nat := 12
  const DisplaySuffixLength: nat := 4
  const MinLengthForMasking: nat := 20
  const ServerHashingError: string := "Server-side hashing should be done in API routes"

  // ------------------------------------------------------------ alphabet

  /** Character `k` of 'A'-'Z', 'a'-'z', '0'-'9'. */
  function AlphabetChar(k: nat): (c: char)
    requires k < 62
    ensures IsAlnum(c)
  {
    if k < 26 then ('A' as int + k) as char
    else if k < 52 then ('a' as int + k - 26) as char
    else ('0' as int + k - 52) as char
  }

  const UpperLetters: string := "ABCDEFGHIJKLMNOPQRSTUVWXYZ"
  const LowerLetters: string := "abcdefghijklmnopqrstuvwxyz"
  const DecimalDigits: string := "0123456789"

  /** The 62-character alphabet the random part is drawn from. */
  const Alphanumeric: string := UpperLetters + LowerLetters + DecimalDigits

  /** Position `k` of the alphabet holds `AlphabetChar(k)`. */
  lemma AlphanumericLayout()
    ensures |Alphanumeric| == 62
    ensures forall k :: 0 <= k < 62 ==> Alphanumeric[k] == AlphabetChar(k)
  {
    UpperLayout();
    LowerLayout();
    DigitLayout();
    forall k | 0 <= k < 62 ensures Alphanumeric[k] == AlphabetChar(k) {
      if k < 26 {
        assert Alphanumeric[k] == UpperLetters[k];
      } else if k < 52 {
        assert Alphanumeric[k] == LowerLetters[k - 26];
      } else {
        assert Alphanumeric[k] == DecimalDigits[k - 52];
      }
    }
  }

  lemma UpperLayout()
    ensures forall k :: 0 <= k < 26 ==> UpperLetters[k] == AlphabetChar(k)
  {
    forall k | 0 <= k < 26 ensures UpperLetters[k] == AlphabetChar(k) {
      if k < 13 {
        if k < 6 { assert k in {0, 1, 2, 3, 4, 5}; } else { assert k in {6, 7, 8, 9, 10, 11, 12}; }
      } else {
        if k < 19 { assert k in {13, 14, 15, 16, 17, 18}; } else { assert k in {19, 20, 21, 22, 23, 24, 25}; }
      }
    }
  }

  lemma LowerLayout()
    ensures forall k :: 0 <= k < 26 ==> LowerLetters[k] == AlphabetChar(k + 26)
  {
    forall k | 0 <= k < 26 ensures LowerLetters[k] == AlphabetChar(k + 26) {
      if k < 13 {
        if k < 6 { assert k in {0, 1, 2, 3, 4, 5}; } else { assert k in {6, 7, 8, 9, 10, 11, 12}; }
      } else {
        if k < 19 { assert k in {13, 14, 15, 16, 17, 18}; } else { assert k in {19, 20, 21, 22, 23, 24, 25}; }
      }
    }
  }

  lemma DigitLayout()
    ensures forall k :: 0 <= k < 10 ==> DecimalDigits[k] == AlphabetChar(k + 52)
  {
    forall k | 0 <= k < 10 ensures DecimalDigits[k] == AlphabetChar(k + 52) {
      if k < 5 { assert k in {0, 1, 2, 3, 4}; } else { assert k in {5, 6, 7, 8, 9}; }
    }
  }

  predicate IsAlnum(c: char) {
    ('A' <= c <= 'Z') || ('a' <= c <= 'z') || ('0' <= c <= '9')
  }

  predicate IsLowerAlnum(c: char) {
    ('a' <= c <= 'z') || ('0' <= c <= '9')
  }

  /** The position of an alphanumeric character in the alphabet. */
  function AlphabetIndex(c: char): (k: nat)
    requires IsAlnum(c)
    ensures k < 62 && Alphanumeric[k] == c
  {
    AlphanumericLayout();
    if 'A' <= c <= 'Z' then c as int - 'A' as int
    else if 'a' <= c <= 'z' then c as int - 'a' as int + 26
    else c as int - '0' as int + 52
  }

  /** `chars[bytes[i] % chars.length]` for every byte, in order. */
  function MapToAlphabet(bytes: seq<Byte>): (r: string)
    ensures |r| == |bytes|
    ensures forall i :: 0 <= i < |r| ==> IsAlnum(r[i])
  {
    AlphanumericLayout();
    seq(|bytes|, i requires 0 <= i < |bytes| => Alphanumeric[bytes[i] % 62])
  }

  /** Every alphanumeric string is the image of some bytes (each character's own
      index), so no character of the alphabet is unreachable. */
  lemma MapToAlphabetOnto(s: string)
    requires forall i :: 0 <= i < |s| ==> IsAlnum(s[i])
    ensures exists bytes: seq<Byte> :: |bytes| == |s| && MapToAlphabet(bytes) == s
  {
    var bytes: seq<Byte> := seq(|s|, i requires 0 <= i < |s| => AlphabetIndex(s[i]));
    var r := MapToAlphabet(bytes);
    forall i | 0 <= i < |s| ensures r[i] == s[i] {
      assert bytes[i] % 62 == bytes[i];
    }
    assert r == s;
  }

  // ------------------------------------------------------------ generation

  /** `generateRandomString(length)`. With Web Crypto available the array holds
      `cryptoBytes`; otherwise slot i is `floor(mathRandom[i] * 256)`. The second
      loop maps each byte onto the alphabet. */
  method GenerateRandomString(length: nat, cryptoAvailable: bool, cryptoBytes: seq<Byte>, mathRandom: seq<real>)
    returns (result: string)
    requires cryptoAvailable ==> |cryptoBytes| == length
    requires !cryptoAvailable ==> |mathRandom| == length
    requires forall i :: 0 <= i < |mathRandom| ==> 0.0 <= mathRandom[i] < 1.0
    ensures |result| == length
    ensures forall i :: 0 <= i < length ==> IsAlnum(result[i])
    ensures cryptoAvailable ==> result == MapToAlphabet(cryptoBytes)
    ensures !cryptoAvailable ==> result == MapToAlphabet(FloorBytes(mathRandom))
  {
    var filled: seq<Byte>;
    if cryptoAvailable {
      filled := cryptoBytes;
    } else {
      filled := [];
      for i := 0 to length
        invariant filled == FloorBytes(mathRandom[..i])
      {
        FloorBytesSnoc(mathRandom, i);
        filled := filled + [ByteOfRandom(mathRandom[i])];
      }
      assert mathRandom[..length] == mathRandom;
    }
    result := "";
    for i := 0 to length
      invariant result == MapToAlphabet(filled[..i])
    {
      MapToAlphabetSnoc(filled, i);
      result := result + [Alphanumeric[filled[i] % 62]];
    }
    assert filled[..length] == filled;
  }

  /** `Math.floor(x * 256)` for `x` in [0, 1). */
  function ByteOfRandom(x: real): (b: Byte)
    requires 0.0 <= x < 1.0
  {
    (x * 256.0).Floor
  }

  function FloorBytes(xs: seq<real>): (r: seq<Byte>)
    requires forall i :: 0 <= i < |xs| ==> 0.0 <= xs[i] < 1.0
    ensures |r| == |xs|
  {
    if |xs| == 0 then [] else FloorBytes(xs[..|xs| - 1]) + [ByteOfRandom(xs[|xs| - 1])]
  }

  lemma FloorBytesSnoc(xs: seq<real>, i: nat)
    requires i < |xs| && forall k :: 0 <= k < |xs| ==> 0.0 <= xs[k] < 1.0
    ensures FloorBytes(xs[..i + 1]) == FloorBytes(xs[..i]) + [ByteOfRandom(xs[i])]
  {
    assert xs[..i + 1][..i] == xs[..i];
  }

  lemma MapToAlphabetSnoc(bytes: seq<Byte>, i: nat)
    requires i < |bytes|
    ensures MapToAlphabet(bytes[..i + 1]) == MapToAlphabet(bytes[..i]) + [Alphanumeric[bytes[i] % 62]]
  {
  }

  /** `generateApiKey()`: 'sd_', the clock `now` in base 36, '_', 32 random characters. */
  method GenerateApiKey(now: nat, cryptoAvailable: bool, cryptoBytes: seq<Byte>, mathRandom: seq<real>)
    returns (key: string)
    requires cryptoAvailable ==> |cryptoBytes| == RandomPartLength
    requires !cryptoAvailable ==> |mathRandom| == RandomPartLength
    requires forall i :: 0 <= i < |mathRandom| ==> 0.0 <= mathRandom[i] < 1.0
    ensures exists random :: |random| == RandomPartLength && key == KeyPrefix + ToRadix(now, 36) + "_" + random
    ensures cryptoAvailable ==> key == KeyPrefix + ToRadix(now, 36) + "_" + MapToAlphabet(cryptoBytes)
    ensures !cryptoAvailable ==> key == KeyPrefix + ToRadix(now, 36) + "_" + MapToAlphabet(FloorBytes(mathRandom))
    ensures IsValidKeyFormat(key)
  {
    var timestamp := ToRadix(now, 36);
    var randomPart := GenerateRandomString(RandomPartLength, cryptoAvailable, cryptoBytes, mathRandom);
    key := KeyPrefix + timestamp + "_" + randomPart;
    GeneratedKeyValid(timestamp, randomPart);
  }

  /** A base-36 rendering followed by 32 alphanumerics always passes the format check. */
  lemma GeneratedKeyValid(timestamp: string, randomPart: string)
    requires |timestamp| >= 1 && forall k :: 0 <= k < |timestamp| ==> IsRadixDigit(timestamp[k], 36)
    requires |randomPart| == RandomPartLength && forall k :: 0 <= k < |randomPart| ==> IsAlnum(randomPart[k])
    ensures IsValidKeyFormat(KeyPrefix + timestamp + "_" + randomPart)
  {
    var key := KeyPrefix + timestamp + "_" + randomPart;
    forall k | 0 <= k < |timestamp| ensures IsLowerAlnum(timestamp[k]) {
      assert IsRadixDigit(timestamp[k], 36);
    }
    MatchesPatternIsValid(key, timestamp, randomPart);
  }

  // ------------------------------------------------------------ format

  /** `^sd_[a-z0-9]+_[A-Za-z0-9]{32}$`, read directly: 'sd_', then a non-empty
      run of lowercase alphanumerics up to the '_' that sits 33 characters from
      the end, then 32 alphanumerics. */
  predicate IsValidKeyFormat(s: string) {
    && |s| >= |KeyPrefix| + 1 + 1 + RandomPartLength
    && s[..3] == KeyPrefix
    && s[|s| - 33] == '_'
    && (forall k :: 3 <= k < |s| - 33 ==> IsLowerAlnum(s[k]))
    && (forall k :: |s| - 32 <= k < |s| ==> IsAlnum(s[k]))
  }

  /** The regular expression as a decomposition of the string into its parts. */
  ghost predicate MatchesPattern(s: string) {
    exists middle, random :: IsPatternSplit(s, middle, random)
  }

  ghost predicate IsPatternSplit(s: string, middle: string, random: string) {
    && s == KeyPrefix + middle + "_" + random
    && |middle| >= 1 && (forall k :: 0 <= k < |middle| ==> IsLowerAlnum(middle[k]))
    && |random| == RandomPartLength && (forall k :: 0 <= k < |random| ==> IsAlnum(random[k]))
  }

  lemma MatchesPatternIsValid(s: string, middle: string, random: string)
    requires IsPatternSplit(s, middle, random)
    ensures IsValidKeyFormat(s)
  {
    assert s[..3] == KeyPrefix;
    assert s[|s| - 33] == '_';
    forall k | 3 <= k < |s| - 33 ensures IsLowerAlnum(s[k]) {
      assert s[k] == middle[k - 3];
    }
    forall k | |s| - 32 <= k < |s| ensures IsAlnum(s[k]) {
      assert s[k] == random[k - (|s| - 32)];
    }
  }

  /** `validateApiKey` accepts exactly the strings the pattern matches. */
  lemma ValidKeyFormatIffPattern(s: string)
    ensures IsValidKeyFormat(s) <==> MatchesPattern(s)
  {
    if IsValidKeyFormat(s) {
      var middle, random := s[3..|s| - 33], s[|s| - 32..];
      assert s == s[..3] + middle + [s[|s| - 33]] + random;
      assert IsPatternSplit(s, middle, random);
    }
    if MatchesPattern(s) {
      var middle, random :| IsPatternSplit(s, middle, random);
      MatchesPatternIsValid(s, middle, random);
    }
  }

  /** `validateApiKey(apiKey)`. */
  function ValidateApiKey(apiKey: string): (ok: bool)
    ensures ok ==> |apiKey| >= 37 && StartsWith(apiKey, KeyPrefix)
    ensures ok <==> MatchesPattern(apiKey)
  {
    ValidKeyFormatIffPattern(apiKey);
    IsValidKeyFormat(apiKey)
  }

  // ------------------------------------------------------------ display

  /** `getApiKeyPrefix`: the first 12 characters (fewer if the key is shorter) and '...'. */
  function ApiKeyPrefix(apiKey: string): (r: string)
    ensures |r| == (if |apiKey| < DisplayPrefixLength then |apiKey| else DisplayPrefixLength) + 3
    ensures StartsWith(apiKey, r[..|r| - 3]) && EndsWith(r, "...")
  {
    Substring(apiKey, 0, DisplayPrefixLength) + "..."
  }

  /** `formatApiKeyForDisplay`: keys shorter than 20 characters are shown whole;
      longer ones as the first 12, '...', and the last 4. */
  function FormatApiKeyForDisplay(apiKey: string): (r: string)
    ensures |apiKey| < MinLengthForMasking ==> r == apiKey
    ensures |apiKey| >= MinLengthForMasking ==>
      && |r| == DisplayPrefixLength + 3 + DisplaySuffixLength
      && r[..DisplayPrefixLength] == apiKey[..DisplayPrefixLength]
      && r[DisplayPrefixLength..DisplayPrefixLength + 3] == "..."
      && r[DisplayPrefixLength + 3..] == apiKey[|apiKey| - DisplaySuffixLength..]
  {
    if |apiKey| < MinLengthForMasking then apiKey
    else
      var head, tail := Substring(apiKey, 0, DisplayPrefixLength), Substring(apiKey, |apiKey| - DisplaySuffixLength, |apiKey|);
      assert head == apiKey[..DisplayPrefixLength] && tail == apiKey[|apiKey| - DisplaySuffixLength..];
      head + "..." + tail
  }

  /** A masked key hides everything between its first 12 and last 4 characters:
      two keys that agree there are shown alike. */
  lemma MaskedKeysAgree(a: string, b: string)
    requires |a| >= MinLengthForMasking && |b| >= MinLengthForMasking
    requires a[..DisplayPrefixLength] == b[..DisplayPrefixLength]
    requires a[|a| - DisplaySuffixLength..] == b[|b| - DisplaySuffixLength..]
    ensures FormatApiKeyForDisplay(a) == FormatApiKeyForDisplay(b)
  {
    var ra, rb := FormatApiKeyForDisplay(a), FormatApiKeyForDisplay(b);
    assert ra == ra[..12] + ra[12..15] + ra[15..];
    assert rb == rb[..12] + rb[12..15] + rb[15..];
  }

  // ------------------------------------------------------------ hashing

  datatype HashResult = Hashed(hex: string) | Thrown(message: string)

  /** `hashApiKeyAsync`: in a browser with Web Crypto, the SHA-256 digest of the
      key's UTF-8 bytes rendered as two lowercase hex digits per byte; anywhere
      else it throws. `digest` stands for `crypto.subtle.digest('SHA-256', _)`. */
  function HashApiKeyAsync(apiKey: string, webCryptoAvailable: bool, digest: seq<Byte> -> seq<Byte>): (r: HashResult)
    ensures r.Thrown? <==> !webCryptoAvailable
    ensures r.Thrown? ==> r.message == ServerHashingError
    ensures r.Hashed? ==> |r.hex| == 2 * |digest(Utf8(apiKey))|
    ensures r.Hashed? ==> forall k :: 0 <= k < |r.hex| ==> IsLowerHexDigit(r.hex[k])
  {
    if webCryptoAvailable then Hashed(HexOfBytes(digest(Utf8(apiKey)))) else Thrown(ServerHashingError)
  }

  /** The hex string determines the digest: it reads back to the digest bytes. */
  lemma HashApiKeyAsyncReadsBack(apiKey: string, digest: seq<Byte> -> seq<Byte>)
    ensures BytesOfHex(HashApiKeyAsync(apiKey, true, digest).hex) == digest(Utf8(apiKey))
  {
    HexRoundTrip(digest(Utf8(apiKey)));
  }
}
