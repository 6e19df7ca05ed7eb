/** The Redis-backed cache (packages/db/src/cache.ts): key layout, the 32-bit
    polynomial string hash, the order-insensitive keyword hash, and the
    get/set/batch/clear operations over a store whose entries expire. Values
    are kept as the JSON they are serialised to; `JSON.stringify` and
    `JSON.parse` are taken to be inverse. Time is in whole seconds. */
module Cache {
  import opened Strings
  import Encoding
  import Sorting
  import Generation

  const KeyPrefix := "smart-domain:"
  const DefaultTtl := 3600
  const AnalysisType := "analysis"
  const ProjectNamesType := "projectnames"
  const DomainType := "domain"

  // ------------------------------------------------------------------ keys

  /** `getKey(type, id)`. */
  function GetKey(kind: string, id: string): (key: string)
    ensures StartsWith(key, TypePattern(kind))
    ensures key[|TypePattern(kind)|..] == id
  {
    var key := KeyPrefix + kind + ":" + id;
    assert key[..|TypePattern(kind)|] == TypePattern(kind);
    key
  }

  /** The part of a key before the id: the pattern `clearCache` deletes by. */
  function TypePattern(kind: string): string {
    KeyPrefix + kind + ":"
  }

  predicate IsCacheType(kind: string) {
    kind in {AnalysisType, ProjectNamesType, DomainType}
  }

  /** Keys of one type never fall under another type's pattern, and the key
      gives back its id. */
  lemma KeysSeparateTypes(kind: string, other: string, id: string)
    requires IsCacheType(kind) && IsCacheType(other)
    ensures StartsWith(GetKey(kind, id), TypePattern(other)) <==> kind == other
    ensures forall id2 :: GetKey(kind, id) == GetKey(kind, id2) ==> id == id2
  {
    var key := GetKey(kind, id);
    if kind != other {
      // the three type names differ in their first character
      var n := |KeyPrefix|;
      assert key[n] == kind[0] && TypePattern(other)[n] == other[0] && kind[0] != other[0];
      assert |TypePattern(other)| <= |key| ==> key[..|TypePattern(other)|][n] != TypePattern(other)[n];
    }
    forall id2 | GetKey(kind, id) == GetKey(kind, id2) ensures id == id2 {
      assert GetKey(kind, id)[|TypePattern(kind)|..] == GetKey(kind, id2)[|TypePattern(kind)|..];
    }
  }

  // ------------------------------------------------------------- the hash

  const TwoTo31 := 0x8000_0000
  const TwoTo32 := 0x1_0000_0000

  /** The signed 32-bit integer a number converts to (`x | 0`, `x & x`). */
  function ToInt32(x: int): (r: int)
    ensures -TwoTo31 <= r < TwoTo31
    ensures (x - r) % TwoTo32 == 0
  {
    (x + TwoTo31) % TwoTo32 - TwoTo31
  }

  lemma ToInt32Congruent(x: int, y: int)
    requires (x - y) % TwoTo32 == 0
    ensures ToInt32(x) == ToInt32(y)
  {
    var k := (x - y) / TwoTo32;
    assert x + TwoTo31 == (y + TwoTo31) + k * TwoTo32;
  }

  /** The polynomial hash of a sequence of UTF-16 code units:
      h := int32(31 * h + unit), starting from 0. */
  function HashCode(units: seq<int>): (h: int)
    ensures -TwoTo31 <= h < TwoTo31
  {
    if |units| == 0 then 0 else ToInt32(31 * HashCode(units[..|units| - 1]) + units[|units| - 1])
  }

  function Abs(x: int): nat {
    if x < 0 then -x else x
  }

  /** `hashString(str)`: `Math.abs(hash).toString(16)`. */
  function HashStringOf(str: string): string {
    Encoding.ToRadix(Abs(HashCode(Encoding.Utf16(str))), 16)
  }

  /** `hashString`: the loop over the code units, one shift-and-subtract step
      and one 32-bit truncation per unit. */
  method HashString(str: string) returns (h: string)
    ensures h == HashStringOf(str)
  {
    var units := Encoding.Utf16(str);
    var hash := 0;
    for i := 0 to |units|
      invariant hash == HashCode(units[..i])
    {
      var unit := units[i];
      var shifted := ToInt32(hash * 32);
      ShiftSubtract(hash, unit);
      HashCodeSnoc(units, i);
      hash := ToInt32(shifted - hash + unit);
    }
    assert units[..|units|] == units;
    h := Encoding.ToRadix(Abs(hash), 16);
  }

  /** `(hash << 5) - hash + unit`, truncated to 32 bits, is the step of
      `HashCode`. */
  lemma ShiftSubtract(hash: int, unit: int)
    ensures ToInt32(ToInt32(hash * 32) - hash + unit) == ToInt32(31 * hash + unit)
  {
    var shifted := ToInt32(hash * 32);
    assert (shifted - hash + unit) - (31 * hash + unit) == shifted - hash * 32;
    ToInt32Congruent(shifted - hash + unit, 31 * hash + unit);
  }

  lemma HashCodeSnoc(units: seq<int>, i: nat)
    requires i < |units|
    ensures HashCode(units[..i + 1]) == ToInt32(31 * HashCode(units[..i]) + units[i])
  {
    assert units[..i + 1][..i] == units[..i];
  }

  /** Every hash is one to eight lowercase hex digits, without a leading zero
      unless it is "0", and the empty string hashes to "0". */
  lemma HashStringShape(str: string)
    ensures 1 <= |HashStringOf(str)| <= 8
    ensures forall k :: 0 <= k < |HashStringOf(str)| ==> Encoding.IsLowerHexDigit(HashStringOf(str)[k])
    ensures |HashStringOf(str)| > 1 ==> HashStringOf(str)[0] != '0'
    ensures str == "" ==> HashStringOf(str) == "0"
  {
    var n := Abs(HashCode(Encoding.Utf16(str)));
    assert Encoding.Pow(16, 8) == TwoTo32 by {
      assert Encoding.Pow(16, 2) == 256;
      assert Encoding.Pow(16, 4) == 16 * (16 * Encoding.Pow(16, 2));
      assert Encoding.Pow(16, 6) == 16 * (16 * Encoding.Pow(16, 4));
      assert Encoding.Pow(16, 8) == 16 * (16 * Encoding.Pow(16, 6));
    }
    Encoding.ToRadixLength(n, 16, 8);
    var h := HashStringOf(str);
    forall k | 0 <= k < |h| ensures Encoding.IsLowerHexDigit(h[k]) {
      assert Encoding.IsRadixDigit(h[k], 16);
    }
  }

  /** The order `Array.prototype.sort` uses without a comparator: strings
      compared by their UTF-16 code units, a proper prefix first. */
  predicate UnitLe(a: string, b: string) {
    if |a| == 0 then true
    else if |b| == 0 then false
    else if a[0] == b[0] then UnitLe(a[1..], b[1..])
    else Encoding.UnitOrderKey(a[0]) < Encoding.UnitOrderKey(b[0])
  }

  lemma {:induction false} UnitLeTotal(a: string, b: string)
    ensures UnitLe(a, b) || UnitLe(b, a)
  {
    if |a| > 0 && |b| > 0 {
      if a[0] == b[0] {
        UnitLeTotal(a[1..], b[1..]);
      } else if Encoding.UnitOrderKey(a[0]) == Encoding.UnitOrderKey(b[0]) {
        Encoding.UnitOrderKeyInjective(a[0], b[0]);
      }
    }
  }

  lemma {:induction false} UnitLeTransitive(a: string, b: string, c: string)
    requires UnitLe(a, b) && UnitLe(b, c)
    ensures UnitLe(a, c)
  {
    if |a| > 0 && |b| > 0 && |c| > 0 && a[0] == b[0] && b[0] == c[0] {
      UnitLeTransitive(a[1..], b[1..], c[1..]);
    }
  }

  lemma {:induction false} UnitLeAntisymmetric(a: string, b: string)
    requires UnitLe(a, b) && UnitLe(b, a)
    ensures a == b
  {
    if |a| > 0 && |b| > 0 {
      if a[0] == b[0] {
        UnitLeAntisymmetric(a[1..], b[1..]);
        assert a == [a[0]] + a[1..] && b == [b[0]] + b[1..];
      }
    }
  }

  /** The code-unit order is a total order on strings. */
  lemma UnitLeIsTotalOrder()
    ensures Sorting.TotalPreorder(UnitLe) && Sorting.Antisymmetric(UnitLe)
  {
    forall a, b ensures UnitLe(a, b) || UnitLe(b, a) {
      UnitLeTotal(a, b);
    }
    forall a, b, c | UnitLe(a, b) && UnitLe(b, c) ensures UnitLe(a, c) {
      UnitLeTransitive(a, b, c);
    }
    forall a, b | UnitLe(a, b) && UnitLe(b, a) ensures a == b {
      UnitLeAntisymmetric(a, b);
    }
  }

  function SortStrings(arr: seq<string>): seq<string> {
    Sorting.Sort(arr, UnitLe)
  }

  /** `hashArray(arr)` as a value: the hash of the sorted strings joined by ','. */
  function HashArrayOf(arr: seq<string>): string {
    HashStringOf(Join(SortStrings(arr), ","))
  }

  /** `hashArray`: `arr.sort()` reorders the caller's array in place, then the
      joined result is hashed. */
  method HashArray(arr: array<string>) returns (h: string)
    modifies arr
    ensures arr[..] == SortStrings(old(arr[..]))
    ensures h == HashArrayOf(old(arr[..]))
  {
    var sorted := SortStrings(arr[..]);
    forall i | 0 <= i < arr.Length {
      arr[i] := sorted[i];
    }
    h := HashString(Join(arr[..], ","));
  }

  /** The keyword hash ignores the order of the keywords. */
  lemma HashArrayPermutation(a: seq<string>, b: seq<string>)
    requires multiset(a) == multiset(b)
    ensures HashArrayOf(a) == HashArrayOf(b)
  {
    UnitLeIsTotalOrder();
    Sorting.SortForgetsOrder(a, b, UnitLe);
  }

  /** After `hashArray` the caller's array is in code-unit order and holds the
      same strings. */
  lemma SortStringsOrders(arr: seq<string>)
    ensures Sorting.Sorted(SortStrings(arr), UnitLe)
    ensures multiset(SortStrings(arr)) == multiset(arr)
  {
    UnitLeIsTotalOrder();
    Sorting.SortSorted(arr, UnitLe);
  }

  // ------------------------------------------------------------ the store

  datatype Entry = Entry(value: Generation.Json, expiresAt: int)

  /** The value a `GET` sees at time `now`: entries vanish when their TTL runs out. */
  function Lookup(entries: map<string, Entry>, key: string, now: int): (r: Option<Generation.Json>)
    ensures r.Some? <==> key in entries && now < entries[key].expiresAt
  {
    if key in entries && now < entries[key].expiresAt then Some(entries[key].value) else None
  }

  /** A value set with a TTL is read back until the TTL has passed, and never after. */
  lemma SetThenGet(entries: map<string, Entry>, key: string, value: Generation.Json, ttl: nat, setAt: int, now: int)
    requires setAt <= now
    ensures Lookup(entries[key := Entry(value, setAt + ttl)], key, now)
         == if now < setAt + ttl then Some(value) else None
  {
  }

  /** Setting one key leaves every other key's value as it was. */
  lemma SetLeavesOthers(entries: map<string, Entry>, key: string, other: string, e: Entry, now: int)
    requires other != key
    ensures Lookup(entries[key := e], other, now) == Lookup(entries, other, now)
  {
  }

  /** The key/value server the client talks to. */
  class Store {
    var entries: map<string, Entry>

    constructor()
      ensures entries == map[]
    {
      entries := map[];
    }

    /** `SETEX key ttl value`. */
    method SetEx(key: string, ttl: nat, value: Generation.Json, now: int)
      modifies this
      ensures entries == old(entries)[key := Entry(value, now + ttl)]
    {
      entries := entries[key := Entry(value, now + ttl)];
    }

    /** `GET key`. */
    method Get(key: string, now: int) returns (r: Option<Generation.Json>)
      ensures r == Lookup(entries, key, now)
    {
      r := Lookup(entries, key, now);
    }

    /** `MGET keys`: one answer per key, in order. */
    method MGet(keys: seq<string>, now: int) returns (values: seq<Option<Generation.Json>>)
      ensures |values| == |keys|
      ensures forall i :: 0 <= i < |keys| ==> values[i] == Lookup(entries, keys[i], now)
    {
      values := [];
      for i := 0 to |keys|
        invariant |values| == i
        invariant forall j :: 0 <= j < i ==> values[j] == Lookup(entries, keys[j], now)
      {
        values := values + [Lookup(entries, keys[i], now)];
      }
    }

    /** `KEYS prefix*`: the live keys starting with `prefix`. */
    method Keys(prefix: string, now: int) returns (keys: set<string>)
      ensures forall k :: k in keys <==> Lookup(entries, k, now).Some? && StartsWith(k, prefix)
    {
      keys := set k | k in entries && now < entries[k].expiresAt && StartsWith(k, prefix);
    }

    /** `DEL keys`. */
    method Del(keys: set<string>)
      modifies this
      ensures entries == map k | k in old(entries) && k !in keys :: old(entries)[k]
    {
      entries := map k | k in entries && k !in keys :: entries[k];
    }
  }

  // ----------------------------------------------------- the cache manager

  /** `cacheAnalysis`: the result under the description's hash, for an hour. */
  method CacheAnalysis(store: Store, description: string, result: Generation.Json, now: int)
    modifies store
    ensures store.entries == old(store.entries)[GetKey(AnalysisType, HashStringOf(description)) := Entry(result, now + DefaultTtl)]
  {
    var h := HashString(description);
    store.SetEx(GetKey(AnalysisType, h), DefaultTtl, result, now);
  }

  method GetAnalysis(store: Store, description: string, now: int) returns (r: Option<Generation.Json>)
    ensures r == Lookup(store.entries, GetKey(AnalysisType, HashStringOf(description)), now)
  {
    var h := HashString(description);
    r := store.Get(GetKey(AnalysisType, h), now);
  }

  /** `cacheProjectNames`: the names under the keywords' hash; the keyword
      array is left sorted. */
  method CacheProjectNames(store: Store, keywords: array<string>, results: Generation.Json, now: int)
    modifies store, keywords
    ensures keywords[..] == SortStrings(old(keywords[..]))
    ensures store.entries == old(store.entries)[GetKey(ProjectNamesType, HashArrayOf(old(keywords[..]))) := Entry(results, now + DefaultTtl)]
  {
    var h := HashArray(keywords);
    store.SetEx(GetKey(ProjectNamesType, h), DefaultTtl, results, now);
  }

  method GetProjectNames(store: Store, keywords: array<string>, now: int) returns (r: Option<Generation.Json>)
    modifies keywords
    ensures keywords[..] == SortStrings(old(keywords[..]))
    ensures r == Lookup(store.entries, GetKey(ProjectNamesType, HashArrayOf(old(keywords[..]))), now)
  {
    var h := HashArray(keywords);
    r := store.Get(GetKey(ProjectNamesType, h), now);
  }

  /** `cacheDomainCheck`: the domain's result for half the default TTL. */
  method CacheDomainCheck(store: Store, domain: string, result: Generation.Json, now: int)
    modifies store
    ensures store.entries == old(store.entries)[GetKey(DomainType, domain) := Entry(result, now + DefaultTtl / 2)]
  {
    store.SetEx(GetKey(DomainType, domain), DefaultTtl / 2, result, now);
  }

  method GetDomainCheck(store: Store, domain: string, now: int) returns (r: Option<Generation.Json>)
    ensures r == Lookup(store.entries, GetKey(DomainType, domain), now)
  {
    r := store.Get(GetKey(DomainType, domain), now);
  }

  /** A cached domain check is seen for 1800 seconds and then no longer. */
  lemma DomainCheckLifetime(entries: map<string, Entry>, domain: string, result: Generation.Json, setAt: int, now: int)
    requires setAt <= now
    ensures Lookup(entries[GetKey(DomainType, domain) := Entry(result, setAt + DefaultTtl / 2)], GetKey(DomainType, domain), now)
         == if now < setAt + 1800 then Some(result) else None
  {
  }

  /** `batchGetDomainChecks`: one `MGET`, then every domain whose value came
      back is mapped to it. */
  method BatchGetDomainChecks(store: Store, domains: seq<string>, now: int) returns (results: map<string, Generation.Json>)
    ensures forall d :: d in results <==> d in domains && Lookup(store.entries, GetKey(DomainType, d), now).Some?
    ensures forall d :: d in results ==> results[d] == Lookup(store.entries, GetKey(DomainType, d), now).value
  {
    var keys := seq(|domains|, i requires 0 <= i < |domains| => GetKey(DomainType, domains[i]));
    var values := store.MGet(keys, now);
    results := map[];
    for index := 0 to |values|
      invariant forall d :: d in results <==> d in domains[..index] && Lookup(store.entries, GetKey(DomainType, d), now).Some?
      invariant forall d :: d in results ==> results[d] == Lookup(store.entries, GetKey(DomainType, d), now).value
    {
      if values[index].Some? {
        results := results[domains[index] := values[index].value];
      }
      assert domains[..index + 1] == domains[..index] + [domains[index]];
    }
    assert domains[..|values|] == domains;
  }

  /** `clearCache(type)`: delete every live key under the type's pattern. */
  method ClearCache(store: Store, kind: string, now: int)
    modifies store
    ensures forall k :: Lookup(store.entries, k, now)
                     == if StartsWith(k, TypePattern(kind)) then None else Lookup(old(store.entries), k, now)
  {
    var keys := store.Keys(TypePattern(kind), now);
    if |keys| > 0 {
      store.Del(keys);
    }
  }

  /** Clearing one type keeps the entries of the other types: a domain
      check survives clearing the analyses. */
  lemma ClearKeepsOtherTypes(entries: map<string, Entry>, cleared: map<string, Entry>, kind: string, other: string, id: string, now: int)
    requires IsCacheType(kind) && IsCacheType(other) && kind != other
    requires forall k :: Lookup(cleared, k, now) == if StartsWith(k, TypePattern(kind)) then None else Lookup(entries, k, now)
    ensures Lookup(cleared, GetKey(other, id), now) == Lookup(entries, GetKey(other, id), now)
    ensures Lookup(cleared, GetKey(kind, id), now) == None
  {
    KeysSeparateTypes(other, kind, id);
    assert Lookup(cleared, GetKey(other, id), now) == Lookup(entries, GetKey(other, id), now);
    assert Lookup(cleared, GetKey(kind, id), now) == None;
  }
}
