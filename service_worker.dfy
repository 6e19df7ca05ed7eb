/** The service worker of the web app (apps/web/public/sw.js): which
    requests it answers, what it writes into its cache, and the cache
    clean-up on activation. `CacheStorage` is the class `Caches`: the named
    caches in creation order, each a map from request URL to the stored
    response. Fetches become `FetchResult` parameters. */
module ServiceWorker {
  import opened Strings

  const CacheName := "smart-domain-v3"

  /** The pages and icons pre-cached on install. */
  const UrlsToCache: seq<string> := ["/", "/manifest.json", "/favicon.ico", "/favicon.svg"]

  datatype Url = Url(href: string, protocol: string, origin: string, pathname: string)

  datatype Request = Request(url: Url, verb: string)

  /** A response: its status, its `type` ("basic", "cors", "opaque", ...)
      and whether it came through a redirect. */
  datatype Response = Response(status: int, kind: string, redirected: bool)

  /** What `fetch` produced: a response, or a rejection. */
  datatype FetchResult = Fetched(response: Response) | NetworkError

  /** How a `fetch` event ended: not intercepted (the browser handles it),
      answered from the cache, answered from the network, or failed. */
  datatype Outcome = PassThrough | FromCache(cached: Response) | FromNetwork(fetched: Response) | Failed

  /** The requests the fetch handler answers: http(s) GETs outside `/api/`
      and `/auth/`. */
  predicate Intercepted(req: Request) {
    && StartsWith(req.url.protocol, "http")
    && req.verb == "GET"
    && !StartsWith(req.url.pathname, "/api/")
    && !StartsWith(req.url.pathname, "/auth/")
  }

  /** The tests a fetched response passes before it is written to the cache. */
  predicate Storable(resp: Response, url: Url, selfOrigin: string) {
    && resp.status == 200
    && resp.kind == "basic"
    && !(resp.redirected || (300 <= resp.status < 400))
    && url.origin == selfOrigin
  }

  /** Only a same-origin, non-redirected, basic response with status 200 is
      stored; the test for a 3xx status never decides anything once the
      status is 200. */
  lemma StorableExactly(resp: Response, url: Url, selfOrigin: string)
    ensures Storable(resp, url, selfOrigin)
        <==> resp.status == 200 && resp.kind == "basic" && !resp.redirected && url.origin == selfOrigin
  {
  }

  /** Nothing the handler stores carries a redirect or an error status. */
  lemma StoredIsPlainSuccess(resp: Response, url: Url, selfOrigin: string)
    requires Storable(resp, url, selfOrigin)
    ensures 200 <= resp.status < 300 && !resp.redirected
  {
  }

  /** `caches.match(request)`: the response stored under the URL in the
      first cache, in creation order, that holds one. */
  function Match(names: seq<string>, stores: map<string, map<string, Response>>, href: string): (r: Option<Response>)
    ensures r.None? <==> forall i :: 0 <= i < |names| ==> !(names[i] in stores && href in stores[names[i]])
    ensures r.Some? ==> exists i :: 0 <= i < |names| && names[i] in stores && href in stores[names[i]]
                                    && stores[names[i]][href] == r.value
  {
    if |names| == 0 then None
    else if names[0] in stores && href in stores[names[0]] then Some(stores[names[0]][href])
    else
      var r := Match(names[1..], stores, href);
      if r.Some? then
        var i :| 0 <= i < |names[1..]| && names[1..][i] in stores && href in stores[names[1..][i]]
                 && stores[names[1..][i]][href] == r.value;
        assert names[i + 1] == names[1..][i];
        r
      else r
  }

  /** A response `addAll` accepts: fetched, with an ok status. */
  predicate Usable(f: FetchResult) {
    f.Fetched? && 200 <= f.response.status < 300
  }

  /** The URLs the pre-cache list resolves to on the worker's origin. */
  function PrecacheKeys(selfOrigin: string): seq<string> {
    [selfOrigin + UrlsToCache[0], selfOrigin + UrlsToCache[1], selfOrigin + UrlsToCache[2], selfOrigin + UrlsToCache[3]]
  }

  /** The entries `cache.addAll` writes: each URL with its response. */
  function AddAll(keys: seq<string>, results: seq<FetchResult>): (m: map<string, Response>)
    requires |keys| == |results|
    requires forall k :: 0 <= k < |results| ==> results[k].Fetched?
    ensures m.Keys == set k | 0 <= k < |keys| :: keys[k]
  {
    if |keys| == 0 then map[]
    else
      var n := |keys| - 1;
      var m := AddAll(keys[..n], results[..n])[keys[n] := results[n].response];
      assert m.Keys == set k | 0 <= k < |keys| :: keys[k] by {
        forall key ensures key in m.Keys <==> key in set k | 0 <= k < |keys| :: keys[k] {
          if key in AddAll(keys[..n], results[..n]).Keys {
            var k :| 0 <= k < n && keys[..n][k] == key;
            assert keys[k] == key;
          }
          if key in set k | 0 <= k < |keys| :: keys[k] {
            var k :| 0 <= k < |keys| && keys[k] == key;
            if k < n {
              assert keys[..n][k] == key;
            }
          }
        }
      }
      m
  }

  /** Install pre-caches exactly the four URLs: the root page, the manifest
      and the two icons. */
  lemma PrecacheExactlyFour(selfOrigin: string, results: seq<FetchResult>)
    requires |results| == |UrlsToCache|
    requires forall k :: 0 <= k < |results| ==> results[k].Fetched?
    ensures AddAll(PrecacheKeys(selfOrigin), results).Keys
         == {selfOrigin + "/", selfOrigin + "/manifest.json", selfOrigin + "/favicon.ico", selfOrigin + "/favicon.svg"}
  {
    var keys := PrecacheKeys(selfOrigin);
    assert (set k | 0 <= k < |keys| :: keys[k])
        == {selfOrigin + "/", selfOrigin + "/manifest.json", selfOrigin + "/favicon.ico", selfOrigin + "/favicon.svg"} by {
      assert keys[0] == selfOrigin + "/" && keys[1] == selfOrigin + "/manifest.json";
      assert keys[2] == selfOrigin + "/favicon.ico" && keys[3] == selfOrigin + "/favicon.svg";
    }
  }

  /** The names `activate` keeps: those equal to the current cache name. */
  function Kept(names: seq<string>): (r: seq<string>)
    ensures forall k :: 0 <= k < |r| ==> r[k] == CacheName
    ensures CacheName in names <==> CacheName in r
  {
    if |names| == 0 then []
    else Kept(names[..|names| - 1]) + (if names[|names| - 1] == CacheName then [CacheName] else [])
  }

  predicate Distinct(names: seq<string>) {
    forall i, j :: 0 <= i < j < |names| ==> names[i] != names[j]
  }

  /** With distinct names, activation leaves one cache, the current one, or none. */
  lemma {:induction false} KeptIsCurrent(names: seq<string>)
    requires Distinct(names)
    ensures Kept(names) == if CacheName in names then [CacheName] else []
  {
    if |names| > 0 {
      var n := |names| - 1;
      assert Distinct(names[..n]);
      KeptIsCurrent(names[..n]);
      if names[n] == CacheName {
        assert CacheName !in names[..n];
      }
      assert CacheName in names <==> CacheName in names[..n] || names[n] == CacheName;
    }
  }

  /** The cache store the worker sees. */
  class Caches {
    var names: seq<string>
    var stores: map<string, map<string, Response>>

    ghost predicate Valid()
      reads this
    {
      Distinct(names) && forall n :: n in stores <==> n in names
    }

    constructor()
      ensures Valid() && names == [] && stores == map[]
    {
      names, stores := [], map[];
    }

    /** `caches.open(name)`: the named cache, created empty at the end of
        the order when it does not exist. */
    method Open(name: string)
      modifies this
      requires Valid()
      ensures Valid()
      ensures names == if name in old(names) then old(names) else old(names) + [name]
      ensures stores == if name in old(stores) then old(stores) else old(stores)[name := map[]]
    {
      if name !in names {
        names := names + [name];
        stores := stores[name := map[]];
      }
    }

    /** The install event: opens the current cache and runs `addAll` on the
        four URLs. `addAll` is all or nothing: one rejected or non-ok fetch
        and no entry is written. */
    method Install(selfOrigin: string, results: seq<FetchResult>) returns (installed: bool)
      modifies this
      requires Valid() && |results| == |UrlsToCache|
      ensures Valid()
      ensures installed <==> forall k :: 0 <= k < |results| ==> Usable(results[k])
      ensures CacheName in stores && CacheName in names
      ensures forall n :: n != CacheName ==> (n in stores <==> n in old(stores))
      ensures forall n :: n != CacheName && n in stores ==> stores[n] == old(stores)[n]
      ensures installed ==> stores[CacheName] == OpenedStore(old(stores)) + AddAll(PrecacheKeys(selfOrigin), results)
      ensures !installed ==> stores[CacheName] == OpenedStore(old(stores))
    {
      Open(CacheName);
      var keys := PrecacheKeys(selfOrigin);
      var store;
      installed, store := CollectAll(keys, results);
      if installed {
        stores := stores[CacheName := stores[CacheName] + store];
      }
    }

    /** The fetches `addAll` waits for, in order: the first unusable one
        stops it, and only when all are usable are their entries written. */
    static method CollectAll(keys: seq<string>, results: seq<FetchResult>)
      returns (ok: bool, store: map<string, Response>)
      requires |keys| == |results|
      ensures ok <==> forall k :: 0 <= k < |results| ==> Usable(results[k])
      ensures ok ==> store == AddAll(keys, results)
    {
      store := map[];
      ok := true;
      var i := 0;
      while i < |keys| && ok
        invariant 0 <= i <= |keys|
        invariant ok <==> forall k :: 0 <= k < i ==> Usable(results[k])
        invariant ok ==> store == AddAll(keys[..i], results[..i])
      {
        if Usable(results[i]) {
          assert keys[..i + 1][..i] == keys[..i] && results[..i + 1][..i] == results[..i];
          store := store[keys[i] := results[i].response];
        } else {
          ok := false;
        }
        i := i + 1;
      }
      if ok {
        assert keys[..i] == keys && results[..i] == results;
      }
    }

    /** The fetch event. Requests that are not intercepted are left to the
        browser. A cache hit is answered without touching the network;
        otherwise the network's response is returned whether or not it is
        stored, and it is stored under the request URL in the current cache
        exactly when `Storable` holds. */
    method HandleFetch(req: Request, selfOrigin: string, network: FetchResult) returns (outcome: Outcome)
      modifies this
      requires Valid()
      ensures Valid()
      ensures !Intercepted(req) ==> outcome == PassThrough
      ensures Intercepted(req) && Match(old(names), old(stores), req.url.href).Some? ==>
        outcome == FromCache(Match(old(names), old(stores), req.url.href).value)
      ensures Intercepted(req) && Match(old(names), old(stores), req.url.href).None? ==>
        outcome == if network.Fetched? then FromNetwork(network.response) else Failed
      ensures outcome.FromNetwork? && Storable(outcome.fetched, req.url, selfOrigin) ==>
        && names == (if CacheName in old(names) then old(names) else old(names) + [CacheName])
        && stores == old(stores)[CacheName := OpenedStore(old(stores))[req.url.href := outcome.fetched]]
      ensures !(outcome.FromNetwork? && Storable(outcome.fetched, req.url, selfOrigin)) ==>
        names == old(names) && stores == old(stores)
    {
      if !Intercepted(req) {
        return PassThrough;
      }
      var hit := Match(names, stores, req.url.href);
      if hit.Some? {
        return FromCache(hit.value);
      }
      if network.NetworkError? {
        return Failed;
      }
      var response := network.response;
      if Storable(response, req.url, selfOrigin) {
        Open(CacheName);
        stores := stores[CacheName := stores[CacheName][req.url.href := response]];
      }
      outcome := FromNetwork(response);
    }

    /** The activate event: every cache whose name is not the current one
        is deleted. */
    method Activate()
      modifies this
      requires Valid()
      ensures Valid()
      ensures names == Kept(old(names))
      ensures forall n :: n in stores <==> n == CacheName && n in old(stores)
      ensures CacheName in stores ==> stores[CacheName] == old(stores)[CacheName]
    {
      var kept: seq<string> := [];
      var remaining := stores;
      var i := 0;
      while i < |names|
        invariant 0 <= i <= |names|
        invariant kept == Kept(names[..i])
        invariant forall n :: n in remaining <==> n in stores && (n == CacheName || n !in names[..i])
        invariant forall n :: n in remaining ==> remaining[n] == stores[n]
        modifies {}
      {
        assert names[..i + 1][..i] == names[..i];
        if names[i] != CacheName {
          remaining := remaining - {names[i]};
        } else {
          kept := kept + [CacheName];
        }
        i := i + 1;
      }
      assert names[..i] == names;
      KeptIsCurrent(names);
      names := kept;
      stores := remaining;
    }
  }

  /** The current cache as `caches.open` yields it: the stored one, or a
      new empty one. */
  function OpenedStore(stores: map<string, map<string, Response>>): map<string, Response> {
    if CacheName in stores then stores[CacheName] else map[]
  }

  /** After activation only the current cache answers: a lookup finds
      exactly what that cache holds. */
  lemma {:induction false} MatchAfterActivate(names: seq<string>, stores: map<string, map<string, Response>>, href: string)
    requires forall k :: 0 <= k < |names| ==> names[k] == CacheName
    ensures Match(names, stores, href)
         == if CacheName in names && CacheName in stores && href in stores[CacheName]
            then Some(stores[CacheName][href]) else None
  {
    if |names| > 0 {
      MatchAfterActivate(names[1..], stores, href);
      assert CacheName in names <==> |names| > 0;
      assert CacheName in names[1..] <==> |names[1..]| > 0;
    }
  }
}
