/** Page metadata helpers (apps/web/src/lib/seo.ts): description truncation,
    keyword de-duplication, breadcrumbs, canonical URLs, and the title, URL and
    image parts of the page metadata. `baseUrl` is the configured site URL
    (`NEXT_PUBLIC_APP_URL`, else the default), passed in. Lengths are counted in
    characters. */
module Seo {
  import opened Strings

  const DefaultBaseUrl := "https://smart-domain.com"
  const SiteName := "Smart Domain Generator"
  const DefaultDescription := "智能域名生成器 - AI驱动的项目命名和域名建议系统"
  const DefaultAuthors := ["Smart Domain Team"]
  const DescriptionMaxLength := 160
  const TruncateSuffix := "..."
  const TruncateOffset := 3
  const WordBreakThreshold := 0.8
  const OgImageWidth := 1200
  const OgImageHeight := 630
  const FaviconSvg := "/favicon.svg"
  const LocaleZhCn := "zh-CN"
  const WebsiteType := "website"
  const ArticleType := "article"
  const IndexFollow := "index, follow"
  const NoindexNofollow := "noindex, nofollow"
  const SeoKeywords := ["智能域名生成器", "AI域名生成", "项目命名", "域名查询", "域名建议", "批量域名查询", "API接口", "域名可用性检查"]
  const SchemaContext := "https://schema.org"
  const BreadcrumbType := "BreadcrumbList"
  const ListItemType := "ListItem"

  /** `process.env.NEXT_PUBLIC_APP_URL || SITE_INFO.DEFAULT_URL`. */
  function BaseUrl(appUrlEnv: Option<string>): (url: string)
    ensures Truthy(appUrlEnv) ==> url == appUrlEnv.value
    ensures !Truthy(appUrlEnv) ==> url == DefaultBaseUrl
  {
    if Truthy(appUrlEnv) then appUrlEnv.value else DefaultBaseUrl
  }

  // ------------------------------------------------------------ description

  /** `generateDescription(content, maxLength)`: short content unchanged;
      otherwise the first `maxLength - 3` characters, cut back to the last space
      when that space lies beyond 80% of `maxLength`, followed by '...'. */
  function GenerateDescription(content: string, maxLength: int): (r: string)
    ensures |content| <= maxLength ==> r == content
    ensures |content| > maxLength ==>
      && EndsWith(r, TruncateSuffix)
      && StartsWith(content, r[..|r| - |TruncateSuffix|])
    ensures |content| > maxLength >= TruncateOffset ==> |r| <= maxLength
  {
    if |content| <= maxLength then content
    else
      var truncated := Substring(content, 0, maxLength - TruncateOffset);
      var lastSpaceIndex := LastIndexOf(truncated, ' ');
      var kept := if lastSpaceIndex as real > maxLength as real * WordBreakThreshold
                  then Substring(truncated, 0, lastSpaceIndex) else truncated;
      assert Substring(truncated, 0, lastSpaceIndex) == truncated[..Clamp(lastSpaceIndex, |truncated|)];
      assert (kept + TruncateSuffix)[..|kept|] == kept;
      kept + TruncateSuffix
  }

  /** Where a long description is cut: at the last space of the first
      `maxLength - 3` characters when that space lies beyond 80% of `maxLength`
      (so no space follows it in that window), otherwise right after those
      characters. */
  lemma DescriptionCut(content: string, maxLength: int)
    requires |content| > maxLength >= TruncateOffset
    ensures var r := GenerateDescription(content, maxLength);
      var window := content[..maxLength - TruncateOffset];
      var cut := |r| - |TruncateSuffix|;
      if (LastIndexOf(window, ' ') as real > maxLength as real * WordBreakThreshold) then
        && cut == LastIndexOf(window, ' ')
        && cut as real > maxLength as real * WordBreakThreshold
        && content[cut] == ' ' && ' ' !in window[cut + 1..]
      else
        r == window + TruncateSuffix
  {
  }

  /** With room for fewer than three characters, a long content becomes just '...'. */
  lemma DescriptionTinyLimit(content: string, maxLength: int)
    requires maxLength < TruncateOffset < |content| && maxLength < |content|
    ensures GenerateDescription(content, maxLength) == TruncateSuffix
  {
  }

  // --------------------------------------------------------------- keywords

  predicate NoDuplicates(s: seq<string>) {
    forall i, j :: 0 <= i < j < |s| ==> s[i] != s[j]
  }

  /** `Array.from(new Set(s))`: each value once, at the place it first occurs. */
  function Distinct(s: seq<string>): (r: seq<string>)
    ensures forall x :: x in r <==> x in s
    ensures NoDuplicates(r)
  {
    if |s| == 0 then []
    else
      var init, last := s[..|s| - 1], s[|s| - 1];
      assert s == init + [last];
      var r := Distinct(init);
      if last in r then r else r + [last]
  }

  /** Values seen earlier keep their places: the de-duplication of a prefix is
      a prefix of the de-duplication. */
  lemma {:induction false} DistinctPrefix(a: seq<string>, b: seq<string>)
    ensures |Distinct(a)| <= |Distinct(a + b)|
    ensures Distinct(a + b)[..|Distinct(a)|] == Distinct(a)
    decreases |b|
  {
    if |b| == 0 {
      assert a + b == a;
    } else {
      var b0 := b[..|b| - 1];
      DistinctPrefix(a, b0);
      assert (a + b)[..|a + b| - 1] == a + b0;
    }
  }

  lemma {:induction false} NonEmptyAppend(a: seq<string>, b: seq<string>)
    ensures NonEmpty(a + b) == NonEmpty(a) + NonEmpty(b)
  {
    if |a| == 0 {
      assert a + b == b;
    } else {
      var ab := a + b;
      assert ab[0] == a[0] && ab[1..] == a[1..] + b;
      NonEmptyAppend(a[1..], b);
      if a[0] == "" {
        assert NonEmpty(ab) == NonEmpty(ab[1..]);
      } else {
        assert NonEmpty(ab) == [a[0]] + NonEmpty(ab[1..]);
        assert NonEmpty(a) == [a[0]] + NonEmpty(a[1..]);
      }
    }
  }

  /** `generateKeywords(base, additional)`: empty strings dropped, duplicates removed. */
  function GenerateKeywords(base: seq<string>, additional: seq<string>): (r: seq<string>)
    ensures NoDuplicates(r)
    ensures forall x :: x in r <==> (x in base || x in additional) && x != ""
  {
    Distinct(NonEmpty(base + additional))
  }

  /** The base keywords come first, de-duplicated, before any additional one. */
  lemma KeywordsBaseFirst(base: seq<string>, additional: seq<string>)
    ensures var r := GenerateKeywords(base, additional);
      |Distinct(NonEmpty(base))| <= |r| && r[..|Distinct(NonEmpty(base))|] == Distinct(NonEmpty(base))
  {
    NonEmptyAppend(base, additional);
    DistinctPrefix(NonEmpty(base), NonEmpty(additional));
  }

  // ------------------------------------------------------------ breadcrumbs

  datatype Crumb = Crumb(name: string, url: Option<string>)
  datatype ListItem = ListItem(position: nat, name: string, item: Option<string>)
  datatype BreadcrumbList = BreadcrumbList(context: string, listType: string, itemListElement: seq<ListItem>)

  /** The list items for `items`, numbered from `start + 1`. */
  function ListItems(baseUrl: string, items: seq<Crumb>, start: nat): (r: seq<ListItem>)
    ensures |r| == |items|
    ensures forall i :: 0 <= i < |items| ==>
      && r[i].position == start + i + 1
      && r[i].name == items[i].name
      && (r[i].item.Some? <==> Truthy(items[i].url))
      && (r[i].item.Some? ==> r[i].item.value == baseUrl + items[i].url.value)
  {
    if |items| == 0 then []
    else
      var c := items[0];
      [ListItem(start + 1, c.name, if Truthy(c.url) then Some(baseUrl + c.url.value) else None)]
        + ListItems(baseUrl, items[1..], start + 1)
  }

  /** `generateBreadcrumbs(items)`: positions 1..n in input order; an `item`
      URL only for entries with a non-empty url. */
  function GenerateBreadcrumbs(baseUrl: string, items: seq<Crumb>): (r: BreadcrumbList)
    ensures r.context == SchemaContext && r.listType == BreadcrumbType
    ensures |r.itemListElement| == |items|
    ensures forall i :: 0 <= i < |items| ==> r.itemListElement[i].position == i + 1
  {
    BreadcrumbList(SchemaContext, BreadcrumbType, ListItems(baseUrl, items, 0))
  }

  /** Breadcrumbs of a longer trail start with those of its first part. */
  lemma BreadcrumbsExtend(baseUrl: string, items: seq<Crumb>, more: seq<Crumb>)
    ensures GenerateBreadcrumbs(baseUrl, items + more).itemListElement[..|items|]
         == GenerateBreadcrumbs(baseUrl, items).itemListElement
  {
  }

  // ---------------------------------------------------------- canonical URL

  /** `canonicalUrl(path)`: the base URL followed by the path, with a '/'
      put in front of a path that lacks one. */
  function CanonicalUrl(baseUrl: string, path: string): (r: string)
    ensures StartsWith(r, baseUrl) && |r| > |baseUrl| && r[|baseUrl|] == '/'
    ensures StartsWith(path, "/") ==> r[|baseUrl|..] == path
    ensures !StartsWith(path, "/") ==> r[|baseUrl|..] == "/" + path
  {
    var cleanPath := if StartsWith(path, "/") then path else "/" + path;
    var r := baseUrl + cleanPath;
    assert r[..|baseUrl|] == baseUrl && r[|baseUrl|..] == cleanPath;
    r
  }

  /** A missing leading slash makes no difference, and the default path gives
      the site root with a trailing slash. */
  lemma CanonicalUrlSlash(baseUrl: string, path: string)
    ensures !StartsWith(path, "/") ==> CanonicalUrl(baseUrl, path) == CanonicalUrl(baseUrl, "/" + path)
    ensures CanonicalUrl(baseUrl, "") == baseUrl + "/"
  {
    assert StartsWith("/" + path, "/");
  }

  // --------------------------------------------------------------- metadata

  datatype SeoProps = SeoProps(
    title: Option<string>,
    description: Option<string>,
    keywords: Option<seq<string>>,
    canonical: Option<string>,
    images: Option<seq<string>>,
    noIndex: Option<bool>,
    pageType: Option<string>,
    publishedTime: Option<string>,
    modifiedTime: Option<string>,
    authors: Option<seq<string>>,
    section: Option<string>,
    tags: Option<seq<string>>)

  datatype OgImage = OgImage(url: string, width: nat, height: nat, alt: string)

  datatype ArticleInfo = ArticleInfo(
    publishedTime: Option<string>, modifiedTime: Option<string>, authors: seq<string>,
    section: Option<string>, tags: seq<string>)

  datatype Metadata = Metadata(
    title: string,
    description: string,
    keywords: string,
    authors: seq<string>,
    robots: string,
    canonical: string,
    ogUrl: string,
    ogType: string,
    ogLocale: string,
    ogImages: seq<OgImage>,
    twitterImages: seq<string>,
    article: Option<ArticleInfo>)

  /** `title ? `${title} | ${siteName}` : siteName`. */
  function FullTitle(title: Option<string>): (t: string)
    ensures Truthy(title) ==> t == title.value + " | " + SiteName
    ensures !Truthy(title) ==> t == SiteName
  {
    if Truthy(title) then title.value + " | " + SiteName else SiteName
  }

  /** `canonical ? `${baseUrl}${canonical}` : baseUrl` (no slash is inserted here). */
  function PageUrl(baseUrl: string, canonical: Option<string>): (u: string)
    ensures StartsWith(u, baseUrl)
    ensures Truthy(canonical) ==> u == baseUrl + canonical.value
    ensures !Truthy(canonical) ==> u == baseUrl
  {
    var u := if Truthy(canonical) then baseUrl + canonical.value else baseUrl;
    assert u[..|baseUrl|] == baseUrl;
    u
  }

  /** An Open Graph image URL: absolute ones (starting with 'http') as given,
      others prefixed with the base URL. */
  function ImageUrl(baseUrl: string, image: string): string {
    if StartsWith(image, "http") then image else baseUrl + image
  }

  function OgImages(baseUrl: string, images: seq<string>, alt: string): (r: seq<OgImage>)
    ensures |r| == |images|
    ensures forall i :: 0 <= i < |images| ==> r[i] == OgImage(ImageUrl(baseUrl, images[i]), OgImageWidth, OgImageHeight, alt)
  {
    if |images| == 0 then []
    else [OgImage(ImageUrl(baseUrl, images[0]), OgImageWidth, OgImageHeight, alt)] + OgImages(baseUrl, images[1..], alt)
  }

  function Or<T>(o: Option<T>, default: T): T {
    if o.Some? then o.value else default
  }

  /** `generateMetadata(props)`: the parts a page's head is built from. */
  function GenerateMetadata(baseUrl: string, props: SeoProps): (m: Metadata)
    ensures m.title == FullTitle(props.title)
    ensures m.canonical == m.ogUrl == PageUrl(baseUrl, props.canonical)
    ensures m.robots == if Or(props.noIndex, false) then NoindexNofollow else IndexFollow
    ensures |m.ogImages| == |m.twitterImages| >= 1
    ensures m.article.Some? <==>
      Or(props.pageType, WebsiteType) == ArticleType && (Truthy(props.publishedTime) || Truthy(props.modifiedTime))
  {
    var fullTitle := FullTitle(props.title);
    var url := PageUrl(baseUrl, props.canonical);
    var description := Or(props.description, DefaultDescription);
    var keywords := Or(props.keywords, []);
    var images := Or(props.images, []);
    var pageType := Or(props.pageType, WebsiteType);
    var authors := Or(props.authors, DefaultAuthors);
    var allImages := if |images| > 0 then images else [baseUrl + FaviconSvg];
    var isArticle := pageType == ArticleType && (Truthy(props.publishedTime) || Truthy(props.modifiedTime));
    Metadata(
      fullTitle, description, Join(SeoKeywords + keywords, ", "), authors,
      if Or(props.noIndex, false) then NoindexNofollow else IndexFollow,
      url, url, pageType, LocaleZhCn,
      OgImages(baseUrl, allImages, fullTitle), allImages,
      if isArticle then Some(ArticleInfo(props.publishedTime, props.modifiedTime, authors, props.section, Or(props.tags, [])))
      else None)
  }

  /** Given images are passed through in order, relative ones made absolute;
      with none, the single default is the site's favicon.svg, prefixed once
      more only when the base URL itself does not start with 'http'. */
  lemma MetadataImages(baseUrl: string, props: SeoProps)
    ensures var m := GenerateMetadata(baseUrl, props);
      var images := Or(props.images, []);
      && (|images| > 0 ==> m.twitterImages == images)
      && (|images| > 0 ==> forall i :: 0 <= i < |images| ==> m.ogImages[i].url == ImageUrl(baseUrl, images[i]))
      && (|images| == 0 && StartsWith(baseUrl, "http") ==> m.ogImages[0].url == baseUrl + FaviconSvg)
      && (|images| == 0 && !StartsWith(baseUrl, "http") ==> m.ogImages[0].url == baseUrl + baseUrl + FaviconSvg)
      && forall i :: 0 <= i < |m.ogImages| ==> m.ogImages[i].alt == m.title
  {
    var images := Or(props.images, []);
    if |images| == 0 && StartsWith(baseUrl, "http") {
      assert (baseUrl + FaviconSvg)[..4] == baseUrl[..4];
    }
    if |images| == 0 && !StartsWith(baseUrl, "http") {
      assert !StartsWith(baseUrl + FaviconSvg, "http") by {
        if |baseUrl| >= 4 {
          assert (baseUrl + FaviconSvg)[..4] == baseUrl[..4];
        } else {
          assert (baseUrl + FaviconSvg)[|baseUrl|] == '/';
        }
      }
    }
  }

  /** The metadata URL agrees with `canonicalUrl` for paths that start with
      '/'; a canonical path without one is appended as is. */
  lemma PageUrlVersusCanonicalUrl(baseUrl: string, canonical: string)
    requires canonical != ""
    ensures StartsWith(canonical, "/") ==> PageUrl(baseUrl, Some(canonical)) == CanonicalUrl(baseUrl, canonical)
    ensures !StartsWith(canonical, "/") ==> PageUrl(baseUrl, Some(canonical)) != CanonicalUrl(baseUrl, canonical)
  {
    if !StartsWith(canonical, "/") {
      var p := PageUrl(baseUrl, Some(canonical));
      var c := CanonicalUrl(baseUrl, canonical);
      assert p[|baseUrl|] == canonical[0] != '/';
    }
  }
}
