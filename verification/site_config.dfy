/** The site configuration values the core reads (`CONFIG` and the shared constants). */
module SiteConfig {
  import opened Wrappers

  datatype Config = Config(
    link: string,                  // CONFIG.link, the site's base URL
    blogTitle: string,             // CONFIG.blog.title
    profileName: string,           // CONFIG.profile.name
    profileImage: Option<string>,  // CONFIG.profile.image
    lang: Option<string>,          // CONFIG.lang
    revalidateTime: int,           // CONFIG.revalidateTime, in seconds (0 when unset)
    postsPerPage: nat,             // CONFIG.postsPerPage
    defaultCategory: string        // DEFAULT_CATEGORY, the "all categories" sentinel
  )

  /**
   * `Math.max(60, Number(CONFIG.revalidateTime || 0))`: the revalidation period in seconds,
   * used as the post cache TTL and as the CDN `s-maxage`.
   */
  function RevalidateSeconds(c: Config): (r: int)
    ensures r >= 60 && r >= c.revalidateTime
    ensures r == 60 || r == c.revalidateTime
  {
    if c.revalidateTime > 60 then c.revalidateTime else 60
  }

  /** `stale-while-revalidate=Math.max(60, Math.floor(swr / 2))` for an `s-maxage` of `swr`. */
  function StaleWhileRevalidate(swr: int): (r: int)
    requires swr >= 60
    ensures r >= 60
    ensures r == 60 || (2 * r <= swr < 2 * r + 2)
    ensures swr >= 122 ==> 2 * r <= swr < 2 * r + 2
    ensures swr < 122 ==> r == 60
  {
    if swr / 2 > 60 then swr / 2 else 60
  }

  /** The CDN header pair `(s-maxage, stale-while-revalidate)` of the home page and the sitemap. */
  function CdnCacheControl(c: Config): (r: (int, int))
    ensures r.0 >= 60 && r.1 >= 60
    ensures r.1 <= r.0
    ensures r.0 == RevalidateSeconds(c)
  {
    var swr := RevalidateSeconds(c);
    (swr, StaleWhileRevalidate(swr))
  }
}
