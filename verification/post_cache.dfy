/**
 * `getPosts`: the shared key-value store first, then the per-instance mirror while it is younger
 * than the TTL, otherwise a fetch from the content source written through to both tiers.
 */
module PostCache {
  import opened Wrappers
  import opened Posts
  import SiteConfig

  /** The key under which the post list is shared across instances. */
  const PostsKey := "notion:posts"

  /** A stored value as the store returns it: a post list, or something that is not an array. */
  datatype KvValue = PostList(posts: seq<Post>) | NotAList

  /** A stored entry with its expiry instant in milliseconds (`None`: no expiry). */
  datatype KvEntry = KvEntry(value: KvValue, expiresAt: Option<int>)

  /** The shared store: no client configured, or a client over its entries. */
  datatype Kv = NoClient | Client(entries: map<string, KvEntry>)

  /** A store call that fails (a network error, say) in this request. */
  datatype Faults = Faults(getFails: bool, setFails: bool)

  /** `kvGet`: the live value, or None when there is no client, the call fails, or the key is absent or expired. */
  function KvGet(kv: Kv, key: string, now: int, fails: bool): (r: Option<KvValue>)
    ensures r.Some? <==>
      kv.Client? && !fails && key in kv.entries &&
      (kv.entries[key].expiresAt.None? || now < kv.entries[key].expiresAt.value)
    ensures r.Some? ==> r.value == kv.entries[key].value
  {
    if kv.NoClient? || fails || key !in kv.entries then None
    else
      var e := kv.entries[key];
      if e.expiresAt.Some? && now >= e.expiresAt.value then None else Some(e.value)
  }

  /** `kvSet(key, value, ttlSec)`: false, with nothing written, when there is no client or the call fails. */
  function KvSet(kv: Kv, key: string, value: KvValue, ttlSec: int, now: int, fails: bool): (r: (Kv, bool))
    requires ttlSec > 0
    ensures r.1 <==> kv.Client? && !fails
    ensures !r.1 ==> r.0 == kv
    ensures r.1 ==> r.0 == Client(kv.entries[key := KvEntry(value, Some(now + ttlSec * 1000))])
  {
    if kv.NoClient? || fails then (kv, false)
    else (Client(kv.entries[key := KvEntry(value, Some(now + ttlSec * 1000))]), true)
  }

  /** The per-instance mirror: the last list served and when it was stored. */
  datatype Snapshot = Snapshot(data: seq<Post>, ts: int)

  datatype CacheState = CacheState(kv: Kv, mirror: Option<Snapshot>)

  /** One page of the content source as the normaliser sees it. */
  datatype RawPage = RawPage(
    properties: Option<Post>,       // getPageProperties' result; None when it produced nothing
    createdTime: int,               // the block's created_time
    pageFullWidth: Option<bool>)    // format.page_full_width, when present

  /** The root block: missing from the block map, present without a value, or typed. */
  datatype RootBlock = NoBlock | NoValue | Typed(blockType: string)

  /** What the content source returned for the configured root page. */
  datatype RawTree = RawTree(root: RootBlock, pages: seq<RawPage>)

  /** The remote call: it failed, or it returned a tree. */
  datatype Fetch = FetchFailed | Fetched(tree: RawTree)

  /** How a call ended; `source` says which tier answered. */
  datatype Source = FromKv | FromMirror | FromRemote
  datatype Outcome = Served(posts: seq<Post>, source: Source, state: CacheState) | Failed(state: CacheState)

  /** `Math.max(60, Number(CONFIG.revalidateTime || 0))` seconds. */
  function TtlSeconds(cfg: SiteConfig.Config): (r: int)
    ensures r >= 60
  {
    SiteConfig.RevalidateSeconds(cfg)
  }

  predicate IsCollection(root: RootBlock) {
    root == Typed("collection_view_page") || root == Typed("collection_view")
  }

  /** One post from a page: its properties with the block's creation time and full-width flag (default false). */
  function PostOfPage(page: RawPage): (r: Option<Post>)
    ensures r.Some? <==> page.properties.Some?
    ensures r.Some? ==> r.value.createdTime == page.createdTime
    ensures r.Some? ==> (r.value.fullWidth <==> page.pageFullWidth == Some(true))
    ensures r.Some? ==> var p := page.properties.value;
      && r.value.id == p.id && r.value.slug == p.slug && r.value.title == p.title
      && r.value.summary == p.summary && r.value.tags == p.tags && r.value.category == p.category
      && r.value.status == p.status && r.value.startDate == p.startDate
  {
    match page.properties
    case None => None
    case Some(p) => Some(p.(createdTime := page.createdTime, fullWidth := page.pageFullWidth.GetOr(false)))
  }

  /** The posts of all pages, in page order; a page without properties makes the whole walk fail. */
  function NormalizePages(pages: seq<RawPage>): (r: Option<seq<Post>>)
    ensures r.Some? <==> forall i | 0 <= i < |pages| :: pages[i].properties.Some?
    ensures r.Some? ==> |r.value| == |pages|
    ensures r.Some? ==> forall i | 0 <= i < |pages| :: PostOfPage(pages[i]) == Some(r.value[i])
  {
    if |pages| == 0 then Some([])
    else
      match (PostOfPage(pages[0]), NormalizePages(pages[1..]))
      case (Some(p), Some(rest)) => Some([p] + rest)
      case _ => None
  }

  /** `getPosts()` at instant `now` (milliseconds) with the remote call's result `fetch`. */
  function GetPosts(cfg: SiteConfig.Config, st: CacheState, now: int, fetch: Fetch, faults: Faults): (o: Outcome)
    ensures o.Failed? ==> o.state == st
    ensures o.Served? ==> o.state.mirror.Some? && o.state.mirror.value.data == o.posts
    ensures o.Served? && o.source == FromRemote ==> NewestFirst(o.posts) && o.state.mirror.value.ts == now
  {
    var ttlSec := TtlSeconds(cfg);
    var ttlMs := ttlSec * 1000;
    match KvGet(st.kv, PostsKey, now, faults.getFails)
    case Some(PostList(cached)) =>
      Served(cached, FromKv, st.(mirror := Some(Snapshot(cached, now))))
    case _ =>
      if st.mirror.Some? && now - st.mirror.value.ts < ttlMs then
        Served(st.mirror.value.data, FromMirror, st)
      else
        match fetch
        case FetchFailed => Failed(st)
        case Fetched(tree) =>
          if tree.root.NoBlock? then Failed(st)
          else if !IsCollection(tree.root) then
            var kv' := KvSet(st.kv, PostsKey, PostList([]), ttlSec, now, faults.setFails).0;
            Served([], FromRemote, CacheState(kv', Some(Snapshot([], now))))
          else
            match NormalizePages(tree.pages)
            case None => Failed(st)
            case Some(data) =>
              var posts := SortNewestFirst(data);
              var kv' := KvSet(st.kv, PostsKey, PostList(posts), ttlSec, now, faults.setFails).0;
              Served(posts, FromRemote, CacheState(kv', Some(Snapshot(posts, now))))
  }

  /** A live list in the store is served as is and refreshes the mirror at `now`, fresh or not. */
  lemma KvHitWins(cfg: SiteConfig.Config, st: CacheState, now: int, fetch: Fetch, faults: Faults)
    requires KvGet(st.kv, PostsKey, now, faults.getFails).Some?
    requires KvGet(st.kv, PostsKey, now, faults.getFails).value.PostList?
    ensures var o := GetPosts(cfg, st, now, fetch, faults);
      && o == Served(st.kv.entries[PostsKey].value.posts, FromKv,
                     st.(mirror := Some(Snapshot(st.kv.entries[PostsKey].value.posts, now))))
  {
  }

  /** On a store miss (including a value that is not a list), a mirror younger than the TTL is served with no fetch and no write. */
  lemma FreshMirrorServed(cfg: SiteConfig.Config, st: CacheState, now: int, fetch: Fetch, faults: Faults)
    requires KvGet(st.kv, PostsKey, now, faults.getFails) in {None, Some(NotAList)}
    requires st.mirror.Some? && now - st.mirror.value.ts < TtlSeconds(cfg) * 1000
    ensures GetPosts(cfg, st, now, fetch, faults) == Served(st.mirror.value.data, FromMirror, st)
  {
  }

  /** A mirror at least one TTL old is never served: the answer comes from the store or the remote, or the call fails. */
  lemma StaleMirrorNeverServed(cfg: SiteConfig.Config, st: CacheState, now: int, fetch: Fetch, faults: Faults)
    requires st.mirror.Some? && now - st.mirror.value.ts >= TtlSeconds(cfg) * 1000
    ensures GetPosts(cfg, st, now, fetch, faults).Served? ==> GetPosts(cfg, st, now, fetch, faults).source != FromMirror
  {
  }

  /** A root that is not a collection yields the empty list, stored in the mirror and offered to the store. */
  lemma NonCollectionCachesEmpty(cfg: SiteConfig.Config, st: CacheState, now: int, tree: RawTree, faults: Faults)
    requires KvGet(st.kv, PostsKey, now, faults.getFails) in {None, Some(NotAList)}
    requires st.mirror.None? || now - st.mirror.value.ts >= TtlSeconds(cfg) * 1000
    requires tree.root.NoValue? || (tree.root.Typed? && !IsCollection(tree.root))
    ensures var o := GetPosts(cfg, st, now, Fetched(tree), faults);
      && o.Served? && o.posts == [] && o.state.mirror == Some(Snapshot([], now))
      && (st.kv.Client? && !faults.setFails ==>
            o.state.kv.Client? && PostsKey in o.state.kv.entries &&
            o.state.kv.entries[PostsKey] == KvEntry(PostList([]), Some(now + TtlSeconds(cfg) * 1000)))
  {
  }

  /**
   * A fetch returns the pages' posts sorted newest first; the mirror then holds exactly that
   * list at `now`, and the store holds it with the TTL unless the write failed.
   */
  lemma FetchWritesThrough(cfg: SiteConfig.Config, st: CacheState, now: int, tree: RawTree, faults: Faults)
    requires KvGet(st.kv, PostsKey, now, faults.getFails) in {None, Some(NotAList)}
    requires st.mirror.None? || now - st.mirror.value.ts >= TtlSeconds(cfg) * 1000
    requires IsCollection(tree.root)
    requires forall i | 0 <= i < |tree.pages| :: tree.pages[i].properties.Some?
    ensures var o := GetPosts(cfg, st, now, Fetched(tree), faults);
      && o.Served? && o.source == FromRemote
      && NewestFirst(o.posts)
      && multiset(o.posts) == multiset(NormalizePages(tree.pages).value)
      && o.state.mirror == Some(Snapshot(o.posts, now))
      && (st.kv.Client? && !faults.setFails ==>
            o.state.kv == Client(st.kv.entries[PostsKey := KvEntry(PostList(o.posts), Some(now + TtlSeconds(cfg) * 1000))]))
      && (st.kv.NoClient? || faults.setFails ==> o.state.kv == st.kv)
  {
  }

  /** A remote failure, or a page without properties, propagates and changes no cache tier. */
  lemma RemoteFailurePropagates(cfg: SiteConfig.Config, st: CacheState, now: int, fetch: Fetch, faults: Faults)
    requires KvGet(st.kv, PostsKey, now, faults.getFails) in {None, Some(NotAList)}
    requires st.mirror.None? || now - st.mirror.value.ts >= TtlSeconds(cfg) * 1000
    requires fetch.FetchFailed? || fetch.tree.root.NoBlock? ||
      (IsCollection(fetch.tree.root) && exists i | 0 <= i < |fetch.tree.pages| :: fetch.tree.pages[i].properties.None?)
    ensures GetPosts(cfg, st, now, fetch, faults) == Failed(st)
  {
  }

  /**
   * After a successful call whose store read did not fail, a second call before the mirror
   * expires, with the store untouched in between, returns the same list whatever its own faults.
   */
  lemma RepeatWithinTtl(cfg: SiteConfig.Config, st: CacheState, now: int, fetch: Fetch, faults: Faults,
                        later: int, fetch2: Fetch, faults2: Faults)
    requires !faults.getFails
    requires GetPosts(cfg, st, now, fetch, faults).Served?
    requires var o := GetPosts(cfg, st, now, fetch, faults);
      o.state.mirror.Some? && now <= later && later - o.state.mirror.value.ts < TtlSeconds(cfg) * 1000
    ensures var o := GetPosts(cfg, st, now, fetch, faults);
      var o2 := GetPosts(cfg, o.state, later, fetch2, faults2);
      o2.Served? && o2.posts == o.posts
  {
    var o := GetPosts(cfg, st, now, fetch, faults);
    var hit := KvGet(o.state.kv, PostsKey, later, faults2.getFails);
    if hit.Some? && hit.value.PostList? && o.source == FromKv {
      // The store still holds the list this call served.
      assert st.kv.entries[PostsKey] == o.state.kv.entries[PostsKey];
    }
  }
}
