/** `usePostQuery`: the post slug taken from the router, and the slug its query key is built from. */
module PostQuery {
  import opened Wrappers
  import Strings

  /** `router.query.slug`: absent, one string, or a list of strings. */
  datatype SlugParam = NoSlug | SlugText(text: string) | SlugList(items: seq<string>)

  /** The slug the query names: the string itself, or the first element of a non-empty list. */
  function QuerySlug(raw: SlugParam): (r: Option<string>)
    ensures r.Some? <==> raw.SlugText? || (raw.SlugList? && |raw.items| > 0)
    ensures r.Some? ==> r.value == (if raw.SlugText? then raw.text else raw.items[0])
  {
    match raw
    case SlugText(text) => Some(text)
    case SlugList(items) => if |items| > 0 then Some(items[0]) else None
    case NoSlug => None
  }

  /** `asPath.split("?")[0]`: the path up to, and not including, its first `?`. */
  function PathPart(asPath: string): (r: string)
    ensures '?' !in r
    ensures |r| <= |asPath| && r == asPath[..|r|]
    ensures |r| == |asPath| || asPath[|r|] == '?'
  {
    Strings.SplitHead(asPath, '?');
    Strings.Split(asPath, '?')[0]
  }

  /** The path part without one leading `/`, if it has one. */
  function Candidate(path: string): (r: string)
    ensures |r| == |path| || |r| == |path| - 1
    ensures r == path[|path| - |r|..]
    ensures |r| == |path| - 1 <==> |path| > 0 && path[0] == '/'
  {
    if Strings.StartsWith(path, "/") then path[1..] else path
  }

  /**
   * The slug: the query's when it names one, else the path's candidate when that is non-empty.
   * An absent `asPath` is the empty string, as `router.asPath || ""` makes it.
   */
  function DeriveSlug(raw: SlugParam, asPath: string): (r: Option<string>)
    ensures QuerySlug(raw).Some? ==> r == QuerySlug(raw)
    ensures QuerySlug(raw).None? && r.Some? ==> r.value != "" && '?' !in r.value
    ensures QuerySlug(raw).None? && r.Some? ==> Strings.Includes(asPath, r.value)
    ensures QuerySlug(raw).None? ==> (r.None? <==> Candidate(PathPart(asPath)) == "")
    ensures QuerySlug(raw).None? && r.Some? ==> r.value == Candidate(PathPart(asPath))
  {
    var q := QuerySlug(raw);
    if q.Some? then q
    else
      var c := Candidate(PathPart(asPath));
      assert Strings.OccursAt(c, asPath, |PathPart(asPath)| - |c|);
      if c != "" then Some(c) else None
  }

  /** The slug component of the query key: the slug, or `""` when there is none. */
  function KeySlug(slug: Option<string>): (r: string)
    ensures slug.Some? ==> r == slug.value
    ensures slug.None? ==> r == ""
  {
    if slug.Some? then slug.value else ""
  }

  /** A path without `?` is its own path part. */
  lemma PathPartWhole(path: string)
    requires '?' !in path
    ensures PathPart(path) == path
  {
    assert forall i | 0 <= i < |path| :: path[i] != '?';
    assert path[..|path|] == path;
  }

  /** The path of a post page, with or without a search string, gives back the post's slug. */
  lemma PathRoundTrip(slug: string, search: string)
    requires slug != "" && '?' !in slug
    ensures DeriveSlug(NoSlug, "/" + slug) == Some(slug)
    ensures DeriveSlug(NoSlug, "/" + slug + "?" + search) == Some(slug)
  {
    var path := "/" + slug;
    PathPartWhole(path);
    var full := "/" + slug + "?" + search;
    assert full[..|path|] == path && full[|path|] == '?';
    assert Candidate(path) == slug;
  }

  /** Only one leading `/` is removed. */
  lemma OneSlashStripped(rest: string)
    requires '?' !in rest
    ensures DeriveSlug(NoSlug, "//" + rest) == Some("/" + rest)
  {
    var path := "//" + rest;
    PathPartWhole(path);
    assert path[1..] == "/" + rest;
  }

  /** A path that is empty after the leading `/` and before the `?` leaves the slug undefined and the key `""`. */
  lemma EmptyPathHasNoSlug(search: string)
    ensures DeriveSlug(NoSlug, "") == None
    ensures DeriveSlug(NoSlug, "/") == None
    ensures DeriveSlug(NoSlug, "/?" + search) == None
    ensures KeySlug(DeriveSlug(NoSlug, "/?" + search)) == ""
  {
    PathPartWhole("");
    PathPartWhole("/");
    SlashThenQuery(search);
  }

  lemma SlashThenQuery(search: string)
    ensures PathPart("/?" + search) == "/"
  {
    var s := "/?" + search;
    assert s[0] == '/' && s[1] == '?';
    var h := PathPart(s);
    assert |h| == 1;
    assert h == s[..1];
  }

  /** A list slug uses its first element, whatever the path says. */
  lemma ListSlugWins(first: string, more: seq<string>, asPath: string)
    ensures DeriveSlug(SlugList([first] + more), asPath) == Some(first)
  {
  }
}
