/**
 * The sitemap: one `<url>` entry for the site root followed by one per visible post, in the order
 * the post list arrives, with the five predefined entities of section 4.6 of XML 1.0 escaped in
 * every location and date. Formatting an instant as ISO 8601 and percent-encoding a URL are
 * library calls, so they are parameters.
 */
module Sitemap {
  import opened Wrappers
  import Seqs
  import Strings
  import SiteConfig
  import Posts

  /** `s.replace(/c/g, entity)`. */
  function ReplaceAll(s: string, c: char, entity: string): (r: string)
    ensures c !in s ==> r == s
  {
    if |s| == 0 then "" else (if s[0] == c then entity else [s[0]]) + ReplaceAll(s[1..], c, entity)
  }

  lemma {:induction false} ReplaceAllAppend(a: string, b: string, c: char, entity: string)
    ensures ReplaceAll(a + b, c, entity) == ReplaceAll(a, c, entity) + ReplaceAll(b, c, entity)
    decreases |a|
  {
    if |a| == 0 {
      assert a + b == b;
    } else {
      ReplaceAllAppend(a[1..], b, c, entity);
      ReplaceAllAppendStep(a, b, c, entity);
    }
  }

  lemma ReplaceAllAppendStep(a: string, b: string, c: char, entity: string)
    requires |a| > 0
    requires ReplaceAll(a[1..] + b, c, entity) == ReplaceAll(a[1..], c, entity) + ReplaceAll(b, c, entity)
    ensures ReplaceAll(a + b, c, entity) == ReplaceAll(a, c, entity) + ReplaceAll(b, c, entity)
  {
    var x, tail := a[0], a[1..];
    var head := if x == c then entity else [x];
    Seqs.ConsAppend(x, tail, b);
    ReplaceAllCons(x, tail + b, c, entity);
    Seqs.ConsSplit(a);
    ReplaceAllCons(x, tail, c, entity);
    Seqs.Associative(head, ReplaceAll(tail, c, entity), ReplaceAll(b, c, entity));
  }

  lemma ReplaceAllCons(x: char, t: string, c: char, entity: string)
    ensures ReplaceAll([x] + t, c, entity) == (if x == c then entity else [x]) + ReplaceAll(t, c, entity)
  {
    assert ([x] + t)[0] == x && ([x] + t)[1..] == t;
  }

  /** `escapeXml` as written: five global replacements, `&` first. */
  function EscapeXmlChain(s: string): string {
    ReplaceAll(ReplaceAll(ReplaceAll(ReplaceAll(ReplaceAll(s, '&', "&amp;"), '<', "&lt;"), '>', "&gt;"), '"', "&quot;"), '\'', "&apos;")
  }

  /** The entity for one character, or the character itself. */
  function EscapeOne(c: char): (r: string)
    ensures |r| >= 1
  {
    match c
    case '&' => "&amp;"
    case '<' => "&lt;"
    case '>' => "&gt;"
    case '"' => "&quot;"
    case '\'' => "&apos;"
    case _ => [c]
  }

  predicate IsMarkup(c: char) {
    c == '<' || c == '>' || c == '"' || c == '\''
  }

  /** Each character escaped on its own: what the chain computes, as `ChainIsPerCharacter` shows. */
  function EscapeXml(s: string): (r: string)
    ensures forall i | 0 <= i < |r| :: !IsMarkup(r[i])
    ensures |r| >= |s|
  {
    if |s| == 0 then "" else EscapeOne(s[0]) + EscapeXml(s[1..])
  }

  lemma ReplaceSingle(c: char, x: char, entity: string)
    ensures ReplaceAll([c], x, entity) == if c == x then entity else [c]
  {
    assert [c][1..] == [];
  }

  /** `ReplaceAll` of the four markup characters after the first step, on a string free of them. */
  function AfterAmp(s: string): string {
    ReplaceAll(ReplaceAll(ReplaceAll(ReplaceAll(s, '<', "&lt;"), '>', "&gt;"), '"', "&quot;"), '\'', "&apos;")
  }

  lemma AfterAmpPlain(s: string)
    requires '<' !in s && '>' !in s && '"' !in s && '\'' !in s
    ensures AfterAmp(s) == s
  {
  }

  /** On a single character the chain yields one entity: no later replacement touches an earlier entity. */
  lemma ChainOne(c: char)
    ensures EscapeXmlChain([c]) == EscapeOne(c)
  {
    ReplaceSingle(c, '&', "&amp;");
    if c == '&' {
      AfterAmpPlain("&amp;");
    } else if c == '<' {
      ChainLessThan(c);
    } else {
      ChainOther(c);
    }
  }

  lemma ChainLessThan(c: char)
    requires c == '<'
    ensures AfterAmp([c]) == "&lt;"
  {
    ReplaceSingle(c, '<', "&lt;");
    AfterAmpTail("&lt;");
  }

  lemma ChainOther(c: char)
    requires c != '&' && c != '<'
    ensures AfterAmp([c]) == EscapeOne(c)
  {
    ReplaceSingle(c, '<', "&lt;");
    ReplaceSingle(c, '>', "&gt;");
    if c == '>' {
      ChainGreaterThan();
    } else {
      ChainAfterGreater(c);
    }
  }

  lemma ChainGreaterThan()
    ensures ReplaceAll(ReplaceAll("&gt;", '"', "&quot;"), '\'', "&apos;") == "&gt;"
  {
  }

  lemma ChainAfterGreater(c: char)
    requires c != '&' && c != '<' && c != '>'
    ensures ReplaceAll(ReplaceAll([c], '"', "&quot;"), '\'', "&apos;") == EscapeOne(c)
  {
    ReplaceSingle(c, '"', "&quot;");
    if c == '"' {
      assert ReplaceAll("&quot;", '\'', "&apos;") == "&quot;";
    } else {
      ReplaceSingle(c, '\'', "&apos;");
    }
  }

  lemma AfterAmpTail(e: string)
    requires '>' !in e && '"' !in e && '\'' !in e
    ensures ReplaceAll(ReplaceAll(ReplaceAll(e, '>', "&gt;"), '"', "&quot;"), '\'', "&apos;") == e
  {
  }

  lemma ChainAppend(a: string, b: string)
    ensures EscapeXmlChain(a + b) == EscapeXmlChain(a) + EscapeXmlChain(b)
  {
    var a1, b1 := ReplaceAll(a, '&', "&amp;"), ReplaceAll(b, '&', "&amp;");
    ReplaceAllAppend(a, b, '&', "&amp;");
    var a2, b2 := ReplaceAll(a1, '<', "&lt;"), ReplaceAll(b1, '<', "&lt;");
    ReplaceAllAppend(a1, b1, '<', "&lt;");
    var a3, b3 := ReplaceAll(a2, '>', "&gt;"), ReplaceAll(b2, '>', "&gt;");
    ReplaceAllAppend(a2, b2, '>', "&gt;");
    var a4, b4 := ReplaceAll(a3, '"', "&quot;"), ReplaceAll(b3, '"', "&quot;");
    ReplaceAllAppend(a3, b3, '"', "&quot;");
    ReplaceAllAppend(a4, b4, '\'', "&apos;");
  }

  /** Because `&` is replaced first, no entity is escaped twice: the chain escapes each character independently. */
  lemma {:induction false} ChainIsPerCharacter(s: string)
    ensures EscapeXmlChain(s) == EscapeXml(s)
    decreases |s|
  {
    if |s| > 0 {
      ChainIsPerCharacter(s[1..]);
      ChainStep(s);
    }
  }

  lemma ChainStep(s: string)
    requires |s| > 0 && EscapeXmlChain(s[1..]) == EscapeXml(s[1..])
    ensures EscapeXmlChain(s) == EscapeXml(s)
  {
    Seqs.ConsSplit(s);
    ChainAppend([s[0]], s[1..]);
    ChainOne(s[0]);
  }

  /** Reads entities back: the inverse of `EscapeXml`. */
  function UnescapeXml(s: string): (r: string)
    decreases |s|
  {
    if |s| == 0 then ""
    else if Strings.StartsWith(s, "&amp;") then "&" + UnescapeXml(s[5..])
    else if Strings.StartsWith(s, "&lt;") then "<" + UnescapeXml(s[4..])
    else if Strings.StartsWith(s, "&gt;") then ">" + UnescapeXml(s[4..])
    else if Strings.StartsWith(s, "&quot;") then "\"" + UnescapeXml(s[6..])
    else if Strings.StartsWith(s, "&apos;") then "'" + UnescapeXml(s[6..])
    else [s[0]] + UnescapeXml(s[1..])
  }

  lemma DiffersAt(s: string, lit: string, i: nat)
    requires i < |lit| && i < |s| && s[i] != lit[i]
    ensures !Strings.StartsWith(s, lit)
  {
    if |lit| <= |s| {
      assert s[..|lit|][i] != lit[i];
    }
  }

  lemma UnescapeOne(c: char, t: string)
    ensures UnescapeXml(EscapeOne(c) + t) == [c] + UnescapeXml(t)
  {
    var e := EscapeOne(c);
    var s := e + t;
    assert s[..|e|] == e && s[|e|..] == t;
    if !(c in "&<>\"'") {
      assert s[0] == c;
      DiffersAt(s, "&amp;", 0);
      DiffersAt(s, "&lt;", 0);
      DiffersAt(s, "&gt;", 0);
      DiffersAt(s, "&quot;", 0);
      DiffersAt(s, "&apos;", 0);
      assert s[1..] == t;
    } else if c != '&' {
      assert s[1] == e[1] && s[2] == e[2];
      DiffersAt(s, "&amp;", if c == '\'' then 2 else 1);
      if c != '<' {
        DiffersAt(s, "&lt;", 1);
        if c != '>' {
          DiffersAt(s, "&gt;", 1);
          if c != '"' {
            DiffersAt(s, "&quot;", 1);
          }
        }
      }
    }
  }

  /** Unescaping recovers the input. */
  lemma {:induction false} UnescapeEscape(s: string)
    ensures UnescapeXml(EscapeXml(s)) == s
    decreases |s|
  {
    if |s| > 0 {
      UnescapeEscape(s[1..]);
      UnescapeOne(s[0], EscapeXml(s[1..]));
      assert [s[0]] + s[1..] == s;
    }
  }

  /** One `<url>` entry. */
  datatype Url = Url(loc: string, lastmod: string, changefreq: string, priority: string)

  /** A post appears when it has a slug and is public. */
  predicate IsVisible(p: Posts.Post) {
    p.slug != "" && Posts.IsPublic(p)
  }

  function Visible(posts: seq<Posts.Post>): (r: seq<Posts.Post>)
    ensures forall p | p in r :: p in posts && IsVisible(p)
    ensures forall p | p in posts && IsVisible(p) :: p in r
  {
    Seqs.Filter(posts, IsVisible)
  }

  /**
   * `start_date || createdTime || Date.now()`. A post's `createdTime` is the text of a date,
   * never empty, so the clock is never reached: a post is dated by the key the sorts use.
   */
  function Lastmod(p: Posts.Post): (t: int)
    ensures t == Posts.SortTime(p)
  {
    if p.startDate.Some? then p.startDate.value else p.createdTime
  }

  function PostUrl(cfg: SiteConfig.Config, p: Posts.Post, now: int, iso: int -> string, encodeUri: string -> string): Url {
    Url(encodeUri(cfg.link + "/" + p.slug), iso(Lastmod(p)), "daily", "0.7")
  }

  /** The entry list: the root first, dated by the first visible post (or now), then each visible post. */
  function Urls(cfg: SiteConfig.Config, posts: seq<Posts.Post>, now: int, iso: int -> string, encodeUri: string -> string): (r: seq<Url>)
    ensures |r| == |Visible(posts)| + 1
    ensures r[0].loc == cfg.link && r[0].priority == "1.0" && r[0].changefreq == "daily"
    ensures r[0].lastmod == iso(if |Visible(posts)| > 0 then Lastmod(Visible(posts)[0]) else now)
    ensures forall i | 1 <= i < |r| ::
      r[i] == Url(encodeUri(cfg.link + "/" + Visible(posts)[i - 1].slug),
                  iso(Lastmod(Visible(posts)[i - 1])), "daily", "0.7")
  {
    UrlsOf(cfg, Visible(posts), now, iso, encodeUri)
  }

  function UrlsOf(cfg: SiteConfig.Config, visible: seq<Posts.Post>, now: int, iso: int -> string,
                  encodeUri: string -> string): (r: seq<Url>)
    ensures |r| == |visible| + 1
    ensures r[0] == Url(cfg.link, iso(if |visible| > 0 then Lastmod(visible[0]) else now), "daily", "1.0")
    ensures forall i | 1 <= i < |r| :: r[i] == PostUrl(cfg, visible[i - 1], now, iso, encodeUri)
  {
    var latest := if |visible| > 0 then Lastmod(visible[0]) else now;
    [Url(cfg.link, iso(latest), "daily", "1.0")]
      + seq(|visible|, i requires 0 <= i < |visible| => PostUrl(cfg, visible[i], now, iso, encodeUri))
  }

  const Head := "<?xml version=\"1.0\" encoding=\"UTF-8\"?>\n<urlset xmlns=\"http://www.sitemaps.org/schemas/sitemap/0.9\">"
  const Tail := "\n</urlset>"

  /** The `<url>` element with the given, already escaped where needed, field texts. */
  function UrlElement(loc: string, lastmod: string, changefreq: string, priority: string): string {
    "\n  <url>" + "\n    <loc>" + loc + "</loc>" + "\n    <lastmod>" + lastmod + "</lastmod>"
      + "\n    <changefreq>" + changefreq + "</changefreq>" + "\n    <priority>" + priority + "</priority>" + "\n  </url>"
  }

  function RenderUrl(u: Url): string {
    UrlElement(EscapeXml(u.loc), EscapeXml(u.lastmod), u.changefreq, u.priority)
  }

  function RenderUrls(urls: seq<Url>): string {
    if |urls| == 0 then "" else RenderUrl(urls[0]) + RenderUrls(urls[1..])
  }

  function Render(urls: seq<Url>): string {
    Head + RenderUrls(urls) + Tail
  }

  /** The body written when fetching the posts throws: the root alone, dated now, its date not escaped. */
  function Fallback(cfg: SiteConfig.Config, now: int, iso: int -> string): string {
    Head + UrlElement(EscapeXml(cfg.link), iso(now), "daily", "1.0") + Tail
  }

  datatype SitemapResponse = SitemapResponse(body: string, sMaxAge: int, staleWhileRevalidate: int)

  /** The page: the entry list when the posts arrive (`None` when fetching them throws), else the fallback; the same CDN header either way. */
  function Page(cfg: SiteConfig.Config, fetched: Option<seq<Posts.Post>>, now: int, iso: int -> string, encodeUri: string -> string): (r: SitemapResponse)
    ensures (r.sMaxAge, r.staleWhileRevalidate) == SiteConfig.CdnCacheControl(cfg)
    ensures fetched.Some? ==> r.body == Render(Urls(cfg, fetched.value, now, iso, encodeUri))
    ensures fetched.None? ==> r.body == Fallback(cfg, now, iso)
  {
    var (sMaxAge, swr) := SiteConfig.CdnCacheControl(cfg);
    var body := if fetched.Some? then Render(Urls(cfg, fetched.value, now, iso, encodeUri)) else Fallback(cfg, now, iso);
    SitemapResponse(body, sMaxAge, swr)
  }

  /** An ISO date carries no character that needs escaping. */
  predicate PlainText(s: string) {
    forall i | 0 <= i < |s| :: EscapeOne(s[i]) == [s[i]]
  }

  lemma {:induction false} EscapePlain(s: string)
    requires PlainText(s)
    ensures EscapeXml(s) == s
    decreases |s|
  {
    if |s| > 0 {
      EscapePlain(s[1..]);
      assert [s[0]] + s[1..] == s;
    }
  }

  /** The fallback is exactly the rendering of the root entry alone, as if no post were visible. */
  lemma FallbackIsRootOnly(cfg: SiteConfig.Config, now: int, iso: int -> string, encodeUri: string -> string)
    requires PlainText(iso(now))
    ensures Fallback(cfg, now, iso) == Render(Urls(cfg, [], now, iso, encodeUri))
  {
    EscapePlain(iso(now));
    var urls := Urls(cfg, [], now, iso, encodeUri);
    assert urls == [Url(cfg.link, iso(now), "daily", "1.0")];
    assert RenderUrls(urls) == RenderUrl(urls[0]) + RenderUrls([]);
  }

  /** Hidden posts never reach the sitemap: a post without a slug or not public leaves the entry list unchanged. */
  lemma HiddenPostsIgnored(cfg: SiteConfig.Config, posts: seq<Posts.Post>, p: Posts.Post, now: int, iso: int -> string, encodeUri: string -> string)
    requires !IsVisible(p)
    ensures Urls(cfg, posts + [p], now, iso, encodeUri) == Urls(cfg, posts, now, iso, encodeUri)
  {
    FilterAppendHidden(posts, p);
  }

  lemma {:induction false} FilterAppendHidden(posts: seq<Posts.Post>, p: Posts.Post)
    requires !IsVisible(p)
    ensures Visible(posts + [p]) == Visible(posts)
    decreases |posts|
  {
    if |posts| == 0 {
      assert posts + [p] == [p];
    } else {
      FilterAppendHidden(posts[1..], p);
      assert (posts + [p])[1..] == posts[1..] + [p];
    }
  }
}
