/** The sitemap (apps/web/src/app/sitemap.ts): each path listed once without a
    locale prefix and once under each of the locales zh, en and ja. `baseUrl` is
    the configured site URL and `clock(i)` the date read by the i-th call of
    `generateLocalizedUrls`. */
module Sitemap {
  const DefaultBaseUrl := "https://smart-domain.com"
  const Locales := ["zh", "en", "ja"]
  const LocalizedPriorityFactor := 0.9

  datatype ChangeFrequency = Daily | Weekly | Monthly
  datatype Entry = Entry(url: string, lastModified: int, changeFrequency: ChangeFrequency, priority: real)

  /** The unprefixed URL of a path: the base URL itself for '/'. */
  function DefaultUrl(baseUrl: string, path: string): string {
    if path == "/" then baseUrl else baseUrl + path
  }

  /** The URL of a path under a locale: `${baseUrl}/${locale}` followed by the
      path, which is dropped for '/'. */
  function LocalizedUrl(baseUrl: string, locale: string, path: string): string {
    baseUrl + "/" + locale + (if path == "/" then "" else path)
  }

  /** Entry `k` (0..3) of one path's group: the unprefixed entry first, then
      one per locale at 0.9 times the priority. */
  function GroupEntry(baseUrl: string, path: string, freq: ChangeFrequency, priority: real, date: int, k: nat): Entry
    requires k < 4
  {
    if k == 0 then Entry(DefaultUrl(baseUrl, path), date, freq, priority)
    else Entry(LocalizedUrl(baseUrl, Locales[k - 1], path), date, freq, priority * LocalizedPriorityFactor)
  }

  /** `generateLocalizedUrls(path, changeFrequency, priority)`. */
  method GenerateLocalizedUrls(baseUrl: string, path: string, freq: ChangeFrequency, priority: real, currentDate: int)
    returns (urls: seq<Entry>)
    ensures |urls| == 4
    ensures forall k :: 0 <= k < 4 ==> urls[k] == GroupEntry(baseUrl, path, freq, priority, currentDate, k)
  {
    urls := [];
    if path == "/" {
      urls := urls + [Entry(baseUrl, currentDate, freq, priority)];
    } else {
      urls := urls + [Entry(baseUrl + path, currentDate, freq, priority)];
    }
    for i := 0 to |Locales|
      invariant |urls| == i + 1
      invariant forall k :: 0 <= k <= i ==> urls[k] == GroupEntry(baseUrl, path, freq, priority, currentDate, k)
    {
      var locale := Locales[i];
      urls := urls + [Entry(baseUrl + "/" + locale + (if path == "/" then "" else path), currentDate, freq,
                            priority * LocalizedPriorityFactor)];
    }
  }

  /** The six paths, in the order `sitemap` lists them, with their settings. */
  const Paths := ["/", "/api-docs", "/help", "/privacy", "/terms", "/auth/login"]
  const Frequencies := [Daily, Weekly, Weekly, Monthly, Monthly, Monthly]
  const Priorities := [1.0, 0.8, 0.7, 0.6, 0.6, 0.5]

  /** `sitemap()`: 24 entries, four per path, paths in the fixed order. */
  method BuildSitemap(baseUrl: string, clock: nat -> int) returns (routes: seq<Entry>)
    ensures |routes| == 4 * |Paths|
    ensures forall g, k :: 0 <= g < |Paths| && 0 <= k < 4 ==>
      routes[4 * g + k] == GroupEntry(baseUrl, Paths[g], Frequencies[g], Priorities[g], clock(g), k)
  {
    routes := [];
    var home := GenerateLocalizedUrls(baseUrl, "/", Daily, 1.0, clock(0));
    routes := routes + home;
    var apiDocs := GenerateLocalizedUrls(baseUrl, "/api-docs", Weekly, 0.8, clock(1));
    routes := routes + apiDocs;
    var help := GenerateLocalizedUrls(baseUrl, "/help", Weekly, 0.7, clock(2));
    routes := routes + help;
    var privacy := GenerateLocalizedUrls(baseUrl, "/privacy", Monthly, 0.6, clock(3));
    routes := routes + privacy;
    var terms := GenerateLocalizedUrls(baseUrl, "/terms", Monthly, 0.6, clock(4));
    routes := routes + terms;
    var login := GenerateLocalizedUrls(baseUrl, "/auth/login", Monthly, 0.5, clock(5));
    routes := routes + login;
    forall g, k | 0 <= g < |Paths| && 0 <= k < 4
      ensures routes[4 * g + k] == GroupEntry(baseUrl, Paths[g], Frequencies[g], Priorities[g], clock(g), k)
    {
      var groups := [home, apiDocs, help, privacy, terms, login];
      assert routes == groups[0] + groups[1] + groups[2] + groups[3] + groups[4] + groups[5];
      assert routes[4 * g + k] == groups[g][k];
    }
  }

  /** Every group shares one date, the unprefixed entry keeps the path's
      priority and the localized ones get 0.9 of it, and the home page's URLs
      carry no trailing path. */
  lemma GroupFacts(baseUrl: string, path: string, freq: ChangeFrequency, priority: real, date: int)
    ensures forall k :: 0 <= k < 4 ==> GroupEntry(baseUrl, path, freq, priority, date, k).lastModified == date
    ensures GroupEntry(baseUrl, path, freq, priority, date, 0).priority == priority
    ensures forall k :: 1 <= k < 4 ==> GroupEntry(baseUrl, path, freq, priority, date, k).priority == 0.9 * priority
    ensures path == "/" ==> GroupEntry(baseUrl, path, freq, priority, date, 0).url == baseUrl
    ensures path == "/" ==> forall k :: 1 <= k < 4 ==>
      GroupEntry(baseUrl, path, freq, priority, date, k).url == baseUrl + "/" + Locales[k - 1]
  {
  }

  /** Within one path's group the four URLs are different. */
  lemma GroupUrlsDistinct(baseUrl: string, path: string, freq: ChangeFrequency, priority: real, date: int, j: nat, k: nat)
    requires j < k < 4
    ensures GroupEntry(baseUrl, path, freq, priority, date, j).url != GroupEntry(baseUrl, path, freq, priority, date, k).url
  {
    var u := GroupEntry(baseUrl, path, freq, priority, date, j).url;
    var v := GroupEntry(baseUrl, path, freq, priority, date, k).url;
    var n := |baseUrl|;
    if j == 0 {
      // a localized URL is three characters longer: '/' and the locale
      assert |u| < |v|;
    } else {
      assert u[n + 1..n + 3] == Locales[j - 1] && v[n + 1..n + 3] == Locales[k - 1];
    }
  }
}
