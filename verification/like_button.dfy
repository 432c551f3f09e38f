/**
 * The like button's client logic: an optimistic update before the POST, a rollback on failure, and
 * the server's answer on success. The state is the cached query entry for the post and whether the
 * browser holds the `liked:<slug>` flag. The slug is a string where `""` stands for "no slug".
 */
module LikeButton {
  import opened Wrappers
  import Likes

  /** The cached query entry `{ likes, liked }`. */
  datatype LikeData = LikeData(likes: int, liked: bool)

  /** The cached entry for `["likes", slug]`, if any, and whether `liked:<slug>` is in local storage. */
  datatype ClientState = ClientState(cache: Option<LikeData>, flag: bool)

  /** What the optimistic step hands to the rollback: the entry it replaced and the state it aimed for. */
  datatype MutationContext = MutationContext(prev: Option<LikeData>, nextLiked: bool)

  /** The count shown: `data?.likes ?? 0`. */
  function ShownLikes(cache: Option<LikeData>): int {
    if cache.Some? then cache.value.likes else 0
  }

  /** The state shown: `data?.liked ?? false`. */
  predicate ShownLiked(cache: Option<LikeData>) {
    cache.Some? && cache.value.liked
  }

  /** The local flag and the shown state agree. */
  predicate Consistent(st: ClientState) {
    st.flag == ShownLiked(st.cache)
  }

  /** The query function: the server's count from a lite GET, and `liked` from the local flag only. */
  function QueryResult(serverLikes: int, flag: bool): (d: LikeData)
    ensures d.liked == flag
  {
    LikeData(serverLikes, flag)
  }

  /** Loading the query makes the state consistent whatever it was. */
  lemma QueryEstablishesConsistency(st: ClientState, serverLikes: int)
    ensures Consistent(st.(cache := Some(QueryResult(serverLikes, st.flag))))
  {
  }

  /** The button is disabled without a slug or while a toggle is in flight. */
  predicate Disabled(slug: string, pending: bool) {
    slug == "" || pending
  }

  /** A click sends the opposite of the shown state, and asks the server to trust it. */
  function ClickRequest(slug: string, st: ClientState): (req: Likes.Request)
    ensures req.verb == Likes.Post && req.slug == Likes.Str(slug)
    ensures req.clientDecides && req.nextLiked == Some(!ShownLiked(st.cache))
  {
    Likes.Request(Likes.Post, Likes.Str(slug), Likes.Absent, Likes.Absent, Some(!ShownLiked(st.cache)), true)
  }

  /** `onMutate`: flip the shown state, move the count by one (never below 0), and set or clear the flag. */
  function OnMutate(slug: string, st: ClientState): (r: (Option<MutationContext>, ClientState))
    ensures slug == "" ==> r == (None, st)
    ensures slug != "" ==>
      && r.0 == Some(MutationContext(st.cache, !ShownLiked(st.cache)))
      && ShownLiked(r.1.cache) == !ShownLiked(st.cache)
      && r.1.flag == !ShownLiked(st.cache)
      && ShownLikes(r.1.cache) >= 0
      && (ShownLiked(r.1.cache) ==> ShownLikes(r.1.cache) == ShownLikes(st.cache) + 1 || ShownLikes(st.cache) < -1)
      && (!ShownLiked(r.1.cache) ==> ShownLikes(r.1.cache) == if ShownLikes(st.cache) > 0 then ShownLikes(st.cache) - 1 else 0)
  {
    if slug == "" then (None, st)
    else
      var prevLikes := ShownLikes(st.cache);
      var nextLiked := !ShownLiked(st.cache);
      var nextLikes := Likes.Max0(prevLikes + (if nextLiked then 1 else -1));
      (Some(MutationContext(st.cache, nextLiked)), ClientState(Some(LikeData(nextLikes, nextLiked)), nextLiked))
  }

  /**
   * `onError` as written: the flag is set back to the opposite of the intended state, but the cache
   * is restored only when an entry existed before (`ctx?.prev != null`).
   */
  function OnErrorAsWritten(slug: string, ctx: Option<MutationContext>, st: ClientState): (r: ClientState)
    ensures slug == "" || ctx.None? ==> r == st
    ensures slug != "" && ctx.Some? ==> r.flag == !ctx.value.nextLiked
    ensures slug != "" && ctx.Some? && ctx.value.prev.None? ==> r.cache == st.cache
  {
    if slug == "" then st
    else
      var flag := if ctx.Some? then !ctx.value.nextLiked else st.flag;
      var cache := if ctx.Some? && ctx.value.prev.Some? then ctx.value.prev else st.cache;
      ClientState(cache, flag)
  }

  /** The evidently intended rollback: the cache goes back to what it held, an absent entry included. */
  function OnError(slug: string, ctx: Option<MutationContext>, st: ClientState): (r: ClientState)
    ensures slug == "" || ctx.None? ==> r == st
    ensures slug != "" && ctx.Some? ==> r == ClientState(ctx.value.prev, !ctx.value.nextLiked)
  {
    if slug == "" || ctx.None? then st
    else ClientState(ctx.value.prev, !ctx.value.nextLiked)
  }

  /** `onSuccess`: the server's answer replaces the cached entry. */
  function OnSuccess(slug: string, payload: LikeData, st: ClientState): (r: ClientState)
    ensures slug != "" ==> r.cache == Some(payload) && r.flag == st.flag
    ensures slug == "" ==> r == st
  {
    if slug != "" then st.(cache := Some(payload)) else st
  }

  /** A failed toggle leaves a consistent state exactly as it was before the click. */
  lemma RollbackRestores(slug: string, st: ClientState)
    requires Consistent(st)
    ensures var (ctx, optimistic) := OnMutate(slug, st);
      OnError(slug, ctx, optimistic) == st
  {
  }

  /** As written, the rollback does restore a consistent state that had a cached entry. */
  lemma RollbackAsWrittenWithEntry(slug: string, st: ClientState)
    requires Consistent(st) && st.cache.Some?
    ensures var (ctx, optimistic) := OnMutate(slug, st);
      OnErrorAsWritten(slug, ctx, optimistic) == st
  {
  }

  /**
   * As written, a failed first like (no cached entry yet) leaves the optimistic "liked, 1" on screen
   * while the local flag says "not liked".
   */
  lemma RollbackAsWrittenWithoutEntry()
    ensures var st := ClientState(None, false);
      var (ctx, optimistic) := OnMutate("p", st);
      var after := OnErrorAsWritten("p", ctx, optimistic);
      after != st && after.cache == Some(LikeData(1, true)) && !after.flag && !Consistent(after)
  {
  }

  /**
   * A click whose POST the likes handler accepts ends consistent: the handler echoes the requested
   * state, and the button stores the handler's count with it.
   */
  lemma SuccessfulClickIsConsistent(slug: string, st: ClientState, env: Likes.Env, store: Likes.LikeStore)
    requires slug != "" && !env.storeFails && !(env.production && env.backend == Likes.MemoryBackend)
    requires Likes.CountsNonNegative(store)
    ensures var resp := Likes.Handle(env, store, ClickRequest(slug, st)).0;
      var (_, optimistic) := OnMutate(slug, st);
      var after := OnSuccess(slug, LikeData(resp.likes, !ShownLiked(st.cache)), optimistic);
      && resp.One? && resp.liked == !ShownLiked(st.cache)
      && Consistent(after) && ShownLikes(after.cache) >= 0
  {
    Likes.LiteToggle(env, store, ClickRequest(slug, st));
  }
}
