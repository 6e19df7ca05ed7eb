/** Domain candidate checking (packages/domain/src/checker.ts): expanding a
    project name into candidate domains, checking them in chunks, turning each
    registrar outcome into a DomainInfo, and the price fallback chain.
    The registrar (GoDaddy) is an oracle: its availability answers and its
    suggested TLD prices are function parameters. */
module DomainChecker {
  import opened Strings

  datatype DomainInfo = DomainInfo(
    domain: string,
    available: bool,
    price: Option<real>,
    registrar: Option<string>,
    purchaseUrl: Option<string>,
    error: Option<string>,
    message: Option<string>)

  /** Absent strings and flags are None / false. */
  datatype CheckOptions = CheckOptions(
    includePricing: bool,
    godaddyApiKey: Option<string>,
    godaddyApiSecret: Option<string>,
    useGoDaddyAPI: bool)

  /** The registrar's availability answer for one domain; `price` in micro-units. */
  datatype Availability = Availability(available: bool, price: Option<real>)

  /** The outcome of asking the registrar about one domain. */
  datatype RegistrarReply = Answered(answer: Availability) | Failed

  /** The outcome of asking the registrar for a TLD's suggested price. */
  datatype PriceQuote = Quoted(amount: real) | QuoteFailed

  const NoApiError := "Domain check requires API configuration"
  const NoApiMessage := "需要配置域名注册商 API（如 GoDaddy）才能检查域名可用性"
  const ApiFailedError := "API check failed"
  const RegistrarName := "GoDaddy"
  const PurchaseUrlPrefix := "https://www.godaddy.com/domainsearch/find?domainToCheck="

  // ---------------------------------------------------------- base name

  predicate IsLowerAlnum(c: char) {
    ('a' <= c <= 'z') || ('0' <= c <= '9')
  }

  /** What `c.toLowerCase()` leaves after removing everything outside [a-z0-9]:
      A-Z become a-z, U+0130 lowers to "i" + U+0307 and U+212A (Kelvin sign)
      to "k"; no other character lowers to anything in [a-z0-9]. */
  function LowerKeep(c: char): (r: string)
    ensures |r| <= 1
    ensures forall k :: 0 <= k < |r| ==> IsLowerAlnum(r[k])
    ensures IsLowerAlnum(c) ==> r == [c]
  {
    if 'A' <= c <= 'Z' then [(c as int + 32) as char]
    else if IsLowerAlnum(c) then [c]
    else if c == '\U{0130}' then "i"
    else if c == '\U{212A}' then "k"
    else ""
  }

  /** `projectName.toLowerCase().replace(/[^a-z0-9]/g, '')`. */
  function BaseName(name: string): (r: string)
    ensures |r| <= |name|
    ensures forall k :: 0 <= k < |r| ==> IsLowerAlnum(r[k])
  {
    if |name| == 0 then "" else LowerKeep(name[0]) + BaseName(name[1..])
  }

  /** The base name is empty exactly when no character survives lowering and filtering. */
  lemma {:induction false} BaseNameEmpty(name: string)
    ensures BaseName(name) == "" <==> forall k :: 0 <= k < |name| ==> LowerKeep(name[k]) == ""
  {
    if |name| > 0 {
      BaseNameEmpty(name[1..]);
      assert forall k :: 1 <= k < |name| ==> name[k] == name[1..][k - 1];
    }
  }

  /** A name already in [a-z0-9] is its own base name, so BaseName is idempotent. */
  lemma {:induction false} BaseNameFixed(name: string)
    requires forall k :: 0 <= k < |name| ==> IsLowerAlnum(name[k])
    ensures BaseName(name) == name
  {
    if |name| > 0 {
      BaseNameFixed(name[1..]);
      assert name == [name[0]] + name[1..];
    }
  }

  lemma BaseNameIdempotent(name: string)
    ensures BaseName(BaseName(name)) == BaseName(name)
  {
    BaseNameFixed(BaseName(name));
  }

  // ---------------------------------------------------------- variants

  function Variants(base: string): seq<string> {
    [base, base + "app", "get" + base]
  }

  /** `v + tld` for every TLD, in order. */
  function Suffixed(v: string, tlds: seq<string>): (r: seq<string>)
    ensures |r| == |tlds|
  {
    seq(|tlds|, i requires 0 <= i < |tlds| => v + tlds[i])
  }

  /** Every variant followed by every TLD, variant-major. */
  function Cross(variants: seq<string>, tlds: seq<string>): (r: seq<string>)
    ensures |r| == |variants| * |tlds|
  {
    if |variants| == 0 then []
    else Cross(variants[..|variants| - 1], tlds) + Suffixed(variants[|variants| - 1], tlds)
  }

  /** The candidate list for a project name. */
  function DomainVariants(projectName: string, tlds: seq<string>): seq<string> {
    Cross(Variants(BaseName(projectName)), tlds)
  }

  lemma {:induction false} CrossAt(variants: seq<string>, tlds: seq<string>, v: nat, t: nat)
    requires v < |variants| && t < |tlds|
    ensures v * |tlds| + t < |Cross(variants, tlds)|
    ensures Cross(variants, tlds)[v * |tlds| + t] == variants[v] + tlds[t]
  {
    var n, m := |variants|, |tlds|;
    var init := variants[..n - 1];
    var before, last := Cross(init, tlds), Suffixed(variants[n - 1], tlds);
    assert Cross(variants, tlds) == before + last;
    if v < n - 1 {
      CrossAt(init, tlds, v, t);
      assert (before + last)[v * m + t] == before[v * m + t];
    } else {
      assert v * m == |before|;
      assert (before + last)[|before| + t] == last[t];
    }
  }

  /** There are exactly 3 x |tlds| candidates: base, base+"app", "get"+base,
      each followed by every TLD in the given order. */
  lemma DomainVariantsLayout(projectName: string, tlds: seq<string>, v: nat, t: nat)
    requires v < 3 && t < |tlds|
    ensures |DomainVariants(projectName, tlds)| == 3 * |tlds|
    ensures DomainVariants(projectName, tlds)[v * |tlds| + t]
         == Variants(BaseName(projectName))[v] + tlds[t]
  {
    CrossAt(Variants(BaseName(projectName)), tlds, v, t);
  }

  /** `generateDomainVariants`: nested loops pushing `variant + tld`. */
  method GenerateDomainVariants(projectName: string, tlds: seq<string>) returns (domains: seq<string>)
    ensures domains == DomainVariants(projectName, tlds)
    ensures |domains| == 3 * |tlds|
  {
    var variants := Variants(BaseName(projectName));
    domains := [];
    for v := 0 to 3
      invariant domains == Cross(variants[..v], tlds)
    {
      for t := 0 to |tlds|
        invariant domains == Cross(variants[..v], tlds) + Suffixed(variants[v], tlds[..t])
      {
        assert Suffixed(variants[v], tlds[..t + 1]) == Suffixed(variants[v], tlds[..t]) + [variants[v] + tlds[t]];
        domains := domains + [variants[v] + tlds[t]];
      }
      assert tlds[..|tlds|] == tlds;
      assert variants[..v + 1][..v] == variants[..v];
    }
    assert variants[..3] == variants;
  }

  // ---------------------------------------------------------- batching

  /** `processBatch`: handles the items in consecutive chunks of `batchSize`
      (the chunk's items are independent, so handling them one by one gives
      the same list) and returns one result per item, in item order. */
  method ProcessBatch<T, R>(items: seq<T>, processor: T -> R, batchSize: nat) returns (results: seq<R>)
    requires batchSize >= 1
    ensures |results| == |items|
    ensures forall k :: 0 <= k < |items| ==> results[k] == processor(items[k])
  {
    results := [];
    var i := 0;
    while i < |items|
      invariant i <= |items| && |results| == i
      invariant forall k :: 0 <= k < i ==> results[k] == processor(items[k])
    {
      var hi := if i + batchSize < |items| then i + batchSize else |items|;
      var batch := items[i..hi];
      var batchResults := seq(|batch|, k requires 0 <= k < |batch| => processor(batch[k]));
      results := results + batchResults;
      i := hi;
    }
  }

  // ---------------------------------------------------------- prices

  /** `domain.substring(domain.lastIndexOf('.'))`: from the last dot on, or the
      whole domain when it has no dot (substring clamps -1 to 0). */
  function Tld(domain: string): (r: string)
    ensures '.' in domain ==> |r| >= 1 && r[0] == '.' && '.' !in r[1..]
    ensures '.' !in domain ==> r == domain
  {
    var i := LastIndexOf(domain, '.');
    var r := Substring(domain, i, |domain|);
    assert i >= 0 ==> r == domain[i..] && r[1..] == domain[i + 1..];
    r
  }

  /** `getDomainPrice`: the static table, 15.99 for any other TLD. */
  function DomainPrice(domain: string): (r: real)
    ensures r > 0.0
    ensures Tld(domain) == ".com" ==> r == 12.99
    ensures Tld(domain) == ".net" ==> r == 11.99
    ensures Tld(domain) == ".org" ==> r == 10.99
    ensures Tld(domain) == ".io" ==> r == 39.99
    ensures Tld(domain) == ".app" ==> r == 19.99
    ensures (r == 15.99) <==> Tld(domain) !in {".com", ".net", ".org", ".io", ".app"}
  {
    match Tld(domain)
    case ".com" => 12.99
    case ".net" => 11.99
    case ".org" => 10.99
    case ".io" => 39.99
    case ".app" => 19.99
    case _ => 15.99
  }

  /** The price fallback chain when pricing is requested: the registrar's price
      (micro-units) when positive, else the suggested TLD price when positive,
      else the static table; a failed suggestion also falls back to the table. */
  function ChainPrice(registrarPrice: Option<real>, quote: PriceQuote, domain: string): (r: real)
    ensures r > 0.0
    ensures registrarPrice.Some? && registrarPrice.value > 0.0 ==> r * 1000000.0 == registrarPrice.value
    ensures !(registrarPrice.Some? && registrarPrice.value > 0.0) && quote.Quoted? && quote.amount > 0.0
            ==> r == quote.amount
    ensures !(registrarPrice.Some? && registrarPrice.value > 0.0) && !(quote.Quoted? && quote.amount > 0.0)
            ==> r == DomainPrice(domain)
  {
    if registrarPrice.Some? && registrarPrice.value > 0.0 then registrarPrice.value / 1000000.0
    else match quote
      case Quoted(q) => if q > 0.0 then q else DomainPrice(domain)
      case QuoteFailed => DomainPrice(domain)
  }

  // ---------------------------------------------------------- one domain

  /** The registrar client exists only with the flag and both credentials non-empty. */
  predicate HasApi(opts: CheckOptions) {
    && opts.useGoDaddyAPI
    && opts.godaddyApiKey.Some? && opts.godaddyApiKey.value != ""
    && opts.godaddyApiSecret.Some? && opts.godaddyApiSecret.value != ""
  }

  /** The per-domain body of `checkDomainAvailability`. With a registrar client
      present, the registrar is always "GoDaddy"; the outer "Check failed" catch
      cannot be reached because every registrar failure is caught inside. */
  function CheckOne(opts: CheckOptions, registrar: string -> RegistrarReply,
                    suggest: string -> PriceQuote, domain: string): (info: DomainInfo)
    ensures info.domain == domain
    ensures !HasApi(opts) ==>
      !info.available && info.error == Some(NoApiError) && info.message == Some(NoApiMessage) && info.price.None?
    ensures HasApi(opts) && registrar(domain).Failed? ==>
      !info.available && info.error == Some(ApiFailedError) && info.price.None?
    ensures HasApi(opts) && registrar(domain).Answered? ==>
      && info.available == registrar(domain).answer.available
      && info.error.None?
      && (info.price.Some? <==> opts.includePricing)
      && (info.price.Some? ==> info.price.value > 0.0)
      && (opts.includePricing ==>
            info.price == Some(ChainPrice(registrar(domain).answer.price, suggest(Tld(domain)), domain)))
    ensures info.registrar.Some? <==> info.available
    ensures info.purchaseUrl.Some? <==> info.available
    ensures info.available ==>
      info.registrar == Some(RegistrarName) && info.purchaseUrl == Some(PurchaseUrlPrefix + domain)
  {
    if !HasApi(opts) then
      DomainInfo(domain, false, None, None, None, Some(NoApiError), Some(NoApiMessage))
    else match registrar(domain)
      case Failed => DomainInfo(domain, false, None, None, None, Some(ApiFailedError), None)
      case Answered(a) =>
        var price := if opts.includePricing then Some(ChainPrice(a.price, suggest(Tld(domain)), domain)) else None;
        DomainInfo(domain, a.available, price,
          if a.available then Some(RegistrarName) else None,
          if a.available then Some(PurchaseUrlPrefix + domain) else None,
          None, None)
  }

  /** `checkDomainAvailability`: one DomainInfo per candidate, in candidate order. */
  method CheckDomainAvailability(projectName: string, tlds: seq<string>, opts: CheckOptions,
                                 registrar: string -> RegistrarReply, suggest: string -> PriceQuote)
    returns (results: seq<DomainInfo>)
    ensures |results| == 3 * |tlds|
    ensures forall k :: 0 <= k < |results| ==>
      results[k] == CheckOne(opts, registrar, suggest, DomainVariants(projectName, tlds)[k])
    ensures !HasApi(opts) ==> forall k :: 0 <= k < |results| ==>
      !results[k].available && results[k].error == Some(NoApiError)
  {
    var domains := GenerateDomainVariants(projectName, tlds);
    results := ProcessBatch(domains, d => CheckOne(opts, registrar, suggest, d), 5);
  }
}
