/**
 * The page head: absolute URLs for images, the schema.org JSON-LD graph chosen by the page type,
 * and the Open Graph, Twitter and article meta tags.
 */
module MetaConfig {
  import opened Wrappers
  import Strings
  import SiteConfig

  /** `value.replace(/\/$/, "")`: one trailing slash removed. */
  function StripTrailingSlash(s: string): (r: string)
    ensures |s| > 0 && s[|s| - 1] == '/' ==> r + "/" == s
    ensures !(|s| > 0 && s[|s| - 1] == '/') ==> r == s
  {
    if |s| > 0 && s[|s| - 1] == '/' then s[..|s| - 1] else s
  }

  /** `/^https?:\/\//i`. */
  predicate HasScheme(s: string) {
    Strings.StartsWith(Strings.ToLower(s), "http://") || Strings.StartsWith(Strings.ToLower(s), "https://")
  }

  /** `ensureAbsoluteUrl(pathOrUrl)` against the site link. */
  function EnsureAbsoluteUrl(pathOrUrl: Option<string>, link: string): (r: Option<string>)
    ensures r.None? <==> pathOrUrl.None? || pathOrUrl == Some("")
    ensures r.Some? && HasScheme(pathOrUrl.value) ==> r == pathOrUrl
    ensures r.Some? && !HasScheme(pathOrUrl.value) ==>
      exists path | path in {pathOrUrl.value, "/" + pathOrUrl.value} ::
        path[0] == '/' && r.value == StripTrailingSlash(link) + path
  {
    if pathOrUrl.None? || pathOrUrl.value == "" then None
    else
      var s := pathOrUrl.value;
      if HasScheme(s) then Some(s)
      else
        var path := if s[0] == '/' then s else "/" + s;
        Some(StripTrailingSlash(link) + path)
  }

  /** A relative path with or without its leading slash resolves to the same URL. */
  lemma LeadingSlashIrrelevant(a: string, link: string)
    requires a != "" && a[0] != '/' && !HasScheme(a)
    ensures EnsureAbsoluteUrl(Some(a), link) == EnsureAbsoluteUrl(Some("/" + a), link)
    ensures EnsureAbsoluteUrl(Some(a), link) == Some(StripTrailingSlash(link) + "/" + a)
  {
    assert Strings.ToLower("/" + a)[0] == '/';
    assert StripTrailingSlash(link) + ("/" + a) == StripTrailingSlash(link) + "/" + a;
  }

  /** A link with a trailing slash resolves like the link without it. */
  lemma TrailingSlashIrrelevant(p: string, link: string)
    requires !(|link| > 0 && link[|link| - 1] == '/')
    ensures EnsureAbsoluteUrl(Some(p), link + "/") == EnsureAbsoluteUrl(Some(p), link)
  {
    assert (link + "/")[..|link + "/"| - 1] == link;
  }

  /** The page's own meta data. */
  datatype Props = Props(title: string, description: string, pageType: string, date: Option<string>, image: Option<string>, url: string)

  datatype Publisher = Publisher(name: string, url: string, logo: Option<string>)

  datatype ListItem = ListItem(position: int, name: string, item: string)

  /** The schema.org objects of the graph. */
  datatype Node =
    | WebSite(name: string, alternateName: Option<string>, url: string, inLanguage: string,
              searchTarget: string, publisher: Publisher)
    | BlogPosting(headline: string, description: string, url: string, mainEntityOfPage: string,
                  inLanguage: string, author: string, publisher: Publisher,
                  datePublished: Option<string>, dateModified: Option<string>, image: seq<string>)
    | BreadcrumbList(items: seq<ListItem>)
    | WebPage(name: string, description: string, url: string, inLanguage: string,
              partOfUrl: string, partOfName: string, datePublished: Option<string>,
              dateModified: Option<string>, publisher: Publisher)

  /** The script body: one object or an array of them. */
  datatype JsonLd = Single(node: Node) | Graph(nodes: seq<Node>)

  /** `CONFIG.lang || "ko-KR"`. */
  function Language(cfg: SiteConfig.Config): string {
    if cfg.lang.Some? && cfg.lang.value != "" then cfg.lang.value else "ko-KR"
  }

  /** `(CONFIG.link || props.url)` without one trailing slash. */
  function SiteUrl(cfg: SiteConfig.Config, props: Props): string {
    StripTrailingSlash(if cfg.link != "" then cfg.link else props.url)
  }

  /** `CONFIG.blog.title || CONFIG.profile.name`. */
  function SiteName(cfg: SiteConfig.Config): string {
    if cfg.blogTitle != "" then cfg.blogTitle else cfg.profileName
  }

  function SitePublisher(cfg: SiteConfig.Config, props: Props): Publisher {
    Publisher(cfg.profileName, SiteUrl(cfg, props), EnsureAbsoluteUrl(cfg.profileImage, cfg.link))
  }

  function WebSiteSchema(cfg: SiteConfig.Config, props: Props): (n: Node)
    ensures n.WebSite?
    ensures n.alternateName.Some? <==> cfg.blogTitle != cfg.profileName
    ensures n.alternateName.Some? ==> n.alternateName.value == cfg.profileName
  {
    var site := SiteUrl(cfg, props);
    WebSite(SiteName(cfg), if cfg.blogTitle != cfg.profileName then Some(cfg.profileName) else None,
            site + "/", Language(cfg), site + "/?q={search_term_string}", SitePublisher(cfg, props))
  }

  /** `buildJsonLd(props)`: the graph, chosen by the lower-cased page type. */
  function BuildJsonLd(cfg: SiteConfig.Config, props: Props): (r: JsonLd)
    ensures var t := Strings.ToLower(props.pageType);
      && ((t == "post" || t == "paper") <==> r.Graph? && |r.nodes| == 3)
      && (t == "website" <==> r.Single?)
      && (t != "post" && t != "paper" && t != "website" <==> r.Graph? && |r.nodes| == 2)
    ensures r.Single? ==> r.node.WebSite?
    ensures r.Graph? ==> r.nodes[0] == WebSiteSchema(cfg, props)
    ensures r.Graph? && |r.nodes| == 3 ==> r.nodes[1].BlogPosting? && r.nodes[2].BreadcrumbList?
    ensures r.Graph? && |r.nodes| == 2 ==> r.nodes[1].WebPage?
  {
    var lang := Language(cfg);
    var site := SiteUrl(cfg, props);
    var publisher := SitePublisher(cfg, props);
    var website := WebSiteSchema(cfg, props);
    var t := Strings.ToLower(props.pageType);
    if t == "post" || t == "paper" then
      var imageUrl := EnsureAbsoluteUrl(props.image, cfg.link);
      var posting := BlogPosting(props.title, props.description, props.url, props.url, lang, cfg.profileName,
                                 publisher, props.date, props.date, if imageUrl.Some? then [imageUrl.value] else []);
      var crumbs := BreadcrumbList([ListItem(1, "Home", site + "/"), ListItem(2, props.title, props.url)]);
      Graph([website, posting, crumbs])
    else if t == "website" then Single(website)
    else
      Graph([website, WebPage(props.title, props.description, props.url, lang, site + "/", SiteName(cfg),
                              props.date, props.date, publisher)])
  }

  /** A post's breadcrumb is the site root at position 1 and the page at position 2. */
  lemma BreadcrumbTwoLevels(cfg: SiteConfig.Config, props: Props)
    requires Strings.ToLower(props.pageType) in {"post", "paper"}
    ensures var r := BuildJsonLd(cfg, props);
      && r.Graph? && |r.nodes| == 3
      && r.nodes[2] == BreadcrumbList([ListItem(1, "Home", SiteUrl(cfg, props) + "/"), ListItem(2, props.title, props.url)])
  {
  }

  /** The type test of the graph ignores case: `Post`, `POST` and `post` build the same graph. */
  lemma DispatchIgnoresCase(cfg: SiteConfig.Config, props: Props, other: string)
    requires Strings.ToLower(other) == Strings.ToLower(props.pageType)
    ensures BuildJsonLd(cfg, props.(pageType := other)) == BuildJsonLd(cfg, props)
  {
  }

  /** The `name`/`property` of a head tag. */
  datatype TagKey =
    | Description | OgType | OgTitle | OgSiteName | OgDescription | OgUrl | OgUpdatedTime | OgLocale | OgImage
    | TwitterTitle | TwitterDescription | TwitterCard | TwitterImage | ArticlePublishedTime | ArticleAuthor

  /** A head tag: its key and its content. */
  datatype Tag = Tag(key: TagKey, content: Option<string>)

  /** The keys whose tag is rendered only under a condition. */
  predicate Conditional(k: TagKey) {
    k.OgLocale? || k.OgImage? || k.TwitterImage? || k.ArticlePublishedTime? || k.ArticleAuthor?
  }

  /** The meta tags present, in page order: the conditional ones only when their value is truthy or the type is exactly `Post`/`Paper`. */
  function HeadTags(cfg: SiteConfig.Config, props: Props): seq<Tag> {
    OpenGraphTags(props, cfg.profileName) + LocaleTags(cfg.lang) + ImageTag(OgImage, props.image)
      + TwitterTags(props) + ImageTag(TwitterImage, props.image) + ArticleTags(props, cfg.profileName)
  }

  /** Each conditional tag is present exactly when its condition holds. */
  lemma HeadTagsConditions(cfg: SiteConfig.Config, props: Props)
    ensures Tag(OgLocale, cfg.lang) in HeadTags(cfg, props) <==> cfg.lang.Some? && cfg.lang.value != ""
    ensures Tag(OgImage, props.image) in HeadTags(cfg, props) <==> props.image.Some? && props.image.value != ""
    ensures Tag(TwitterImage, props.image) in HeadTags(cfg, props) <==> props.image.Some? && props.image.value != ""
    ensures Tag(ArticleAuthor, Some(cfg.profileName)) in HeadTags(cfg, props)
        <==> props.pageType == "Post" || props.pageType == "Paper"
    ensures Tag(ArticlePublishedTime, props.date) in HeadTags(cfg, props)
        <==> props.pageType == "Post" || props.pageType == "Paper"
  {
    InHeadTags(cfg, props, Tag(OgLocale, cfg.lang));
    InHeadTags(cfg, props, Tag(OgImage, props.image));
    InHeadTags(cfg, props, Tag(TwitterImage, props.image));
    InHeadTags(cfg, props, Tag(ArticleAuthor, Some(cfg.profileName)));
    InHeadTags(cfg, props, Tag(ArticlePublishedTime, props.date));
  }

  /** A conditional tag is in the head exactly when it is in its own group. */
  lemma InHeadTags(cfg: SiteConfig.Config, props: Props, t: Tag)
    requires Conditional(t.key)
    ensures t in HeadTags(cfg, props) <==>
      (t.key.OgLocale? && t in LocaleTags(cfg.lang))
      || (t.key.OgImage? && t in ImageTag(OgImage, props.image))
      || (t.key.TwitterImage? && t in ImageTag(TwitterImage, props.image))
      || ((t.key.ArticlePublishedTime? || t.key.ArticleAuthor?) && t in ArticleTags(props, cfg.profileName))
  {
    assert t !in OpenGraphTags(props, cfg.profileName);
    assert t !in TwitterTags(props);
  }

  function OpenGraphTags(props: Props, siteName: string): (r: seq<Tag>)
    ensures forall t | t in r :: !Conditional(t.key)
  {
    [Tag(Description, Some(props.description)), Tag(OgType, Some(props.pageType)),
     Tag(OgTitle, Some(props.title)), Tag(OgSiteName, Some(siteName)),
     Tag(OgDescription, Some(props.description)), Tag(OgUrl, Some(props.url)),
     Tag(OgUpdatedTime, props.date)]
  }

  function TwitterTags(props: Props): (r: seq<Tag>)
    ensures forall t | t in r :: !Conditional(t.key)
  {
    [Tag(TwitterTitle, Some(props.title)), Tag(TwitterDescription, Some(props.description)),
     Tag(TwitterCard, Some("summary_large_image"))]
  }

  function LocaleTags(lang: Option<string>): (r: seq<Tag>)
    ensures forall t | t in r :: t.key.OgLocale?
    ensures Tag(OgLocale, lang) in r <==> lang.Some? && lang.value != ""
  {
    if lang.Some? && lang.value != "" then [Tag(OgLocale, lang)] else []
  }

  /** The `og:image` or `twitter:image` tag, when the image is truthy. */
  function ImageTag(key: TagKey, image: Option<string>): (r: seq<Tag>)
    ensures forall t | t in r :: t.key == key
    ensures Tag(key, image) in r <==> image.Some? && image.value != ""
  {
    if image.Some? && image.value != "" then [Tag(key, image)] else []
  }

  function ArticleTags(props: Props, author: string): (r: seq<Tag>)
    ensures forall t | t in r :: t.key.ArticlePublishedTime? || t.key.ArticleAuthor?
    ensures Tag(ArticleAuthor, Some(author)) in r <==> props.pageType == "Post" || props.pageType == "Paper"
    ensures Tag(ArticlePublishedTime, props.date) in r <==> props.pageType == "Post" || props.pageType == "Paper"
  {
    if props.pageType == "Post" || props.pageType == "Paper"
    then [Tag(ArticlePublishedTime, props.date), Tag(ArticleAuthor, Some(author))] else []
  }

  /** The article tags test is case-sensitive while the graph's is not: a `post` page gets a posting but no article tags. */
  lemma LowerCasePostHasNoArticleTags(cfg: SiteConfig.Config, props: Props)
    requires props.pageType == "post"
    ensures BuildJsonLd(cfg, props).Graph? && |BuildJsonLd(cfg, props).nodes| == 3
    ensures Tag(ArticleAuthor, Some(cfg.profileName)) !in HeadTags(cfg, props)
  {
    LowerPost();
    InHeadTags(cfg, props, Tag(ArticleAuthor, Some(cfg.profileName)));
  }

  lemma LowerPost()
    ensures Strings.ToLower("post") == "post"
    ensures "post" != "Post" && "post" != "Paper"
  {
    var r := Strings.ToLower("post");
    assert r[0] == 'p' && r[1] == 'o' && r[2] == 's' && r[3] == 't';
  }
}
