/**
 * The comments API: each post's comments are an append-only list of JSON strings under
 * `comments:<slug>`. Reading decodes the list and shows it newest first; posting appends one entry,
 * after a per-address rate limit of one comment a minute when the shared store is in use.
 */
module Comments {
  import opened Wrappers
  import Seqs
  import Sorting
  import opened CommentJson

  /** A request field: missing, a string, or some other (truthy) value such as a list or a number. */
  datatype Field = Missing | Text(s: string) | NonString

  /** A stored list entry: an object the store client already parsed, a JSON string, or anything else. */
  datatype Entry = Obj(c: CommentData) | Json(text: string) | OtherValue

  datatype Backend = KvBackend | MemoryBackend

  /** Comment lists by key, and rate-limit flags by key with the time (ms) at which each expires. */
  datatype CommentStore = CommentStore(lists: map<string, seq<Entry>>, flags: map<string, int>)

  /** Which store calls fail during the request. */
  datatype Faults = Faults(readFails: bool, rateFails: bool, saveFails: bool)

  /** The `x-forwarded-for` header: absent, one value, or repeated. */
  datatype Forwarded = NoHeader | OneValue(v: string) | Repeated(vs: seq<string>)

  datatype Response = Status(code: int) | Listing(comments: seq<CommentData>) | Created(comment: CommentData)

  const RateWindowMs := 60000
  const AuthorLimit := 50
  const ContentLimit := 1000

  function ListKey(slug: string): string {
    "comments:" + slug
  }

  /** The stored entries for a key; a missing list reads as empty. */
  function Entries(st: CommentStore, key: string): seq<Entry> {
    if key in st.lists then st.lists[key] else []
  }

  /** The comment an entry holds: a parsed object as is, a string decoded, anything else dropped. */
  function EntryComment(e: Entry): Option<CommentData> {
    match e
    case Obj(c) => Some(c)
    case Json(text) => Decode(text)
    case OtherValue => None
  }

  /** The comments the entries hold, in stored order. */
  function Parsed(entries: seq<Entry>): (r: seq<CommentData>)
    ensures |r| <= |entries|
  {
    Seqs.Collect(entries, EntryComment)
  }

  lemma ParsedAppend(a: seq<Entry>, b: seq<Entry>)
    ensures Parsed(a + b) == Parsed(a) + Parsed(b)
  {
    Seqs.CollectAppend(a, b, EntryComment);
  }

  /** Newest first: the comparator `b.date - a.date` as an ascending rank. */
  function NewestRank(c: CommentData): int {
    -c.date
  }

  predicate NewestFirst(s: seq<CommentData>) {
    forall i, j | 0 <= i < j < |s| :: s[i].date >= s[j].date
  }

  /** The listing: the decodable comments, newest first, comments with equal dates in stored order. */
  function ListComments(entries: seq<Entry>): (r: seq<CommentData>)
    ensures NewestFirst(r)
    ensures multiset(r) == multiset(Parsed(entries))
  {
    Sorting.SortByRank(Parsed(entries), NewestRank)
  }

  /** The GET branch. A failed read lists nothing. */
  function HandleGet(st: CommentStore, slug: Field, faults: Faults): (r: Response)
    ensures !(slug.Text? && slug.s != "") <==> r == Status(400)
    ensures r.Listing? ==> NewestFirst(r.comments)
    ensures r.Listing? && faults.readFails ==> r.comments == []
  {
    if !(slug.Text? && slug.s != "") then Status(400)
    else
      var raw := if faults.readFails then [] else Entries(st, ListKey(slug.s));
      Listing(ListComments(raw))
  }

  /** The rate-limit key: the first forwarded address, else the socket's address, else `unknown`. */
  function ClientAddress(forwarded: Forwarded, remote: string): (r: string)
    ensures forwarded.OneValue? && forwarded.v != "" ==> r == forwarded.v
    ensures forwarded.Repeated? && |forwarded.vs| > 0 ==> r == forwarded.vs[0]
    ensures forwarded.NoHeader? || forwarded == OneValue("") ==> r == (if remote != "" then remote else "unknown")
    ensures r == "" ==> forwarded.Repeated? && |forwarded.vs| > 0 && forwarded.vs[0] == ""
  {
    match forwarded
    case OneValue(v) => if v != "" then v else if remote != "" then remote else "unknown"
    case Repeated(vs) => if |vs| > 0 then vs[0] else "undefined"
    case NoHeader => if remote != "" then remote else "unknown"
  }

  function RateKey(address: string): string {
    "rate_limit:" + address
  }

  /** `SET key 1 EX 60 NX` is refused while an unexpired flag exists. */
  predicate RateLimited(st: CommentStore, key: string, now: int) {
    key in st.flags && now < st.flags[key]
  }

  /** At most the first `n` characters: `s.slice(0, n)`. */
  function Prefix(s: string, n: nat): (r: string)
    ensures |r| <= n && |r| <= |s| && r == s[..|r|]
    ensures |s| <= n ==> r == s
    ensures |s| > n ==> r == s[..n]
  {
    if |s| <= n then s else s[..n]
  }

  /** The comment to store: `(author || "Anonymous")` and the content, each cut to its limit. */
  function NewComment(id: string, now: int, author: Option<string>, content: string): (c: CommentData)
    ensures |c.author| <= AuthorLimit && |c.content| <= ContentLimit
    ensures |c.content| <= |content| && c.content == content[..|c.content|]
    ensures author.None? || author == Some("") ==> c.author == "Anonymous"
    ensures author.Some? && author.value != "" ==> |c.author| <= |author.value| && c.author == author.value[..|c.author|]
    ensures |content| <= ContentLimit ==> c.content == content
    ensures |content| > ContentLimit ==> c.content == content[..ContentLimit]
    ensures author.Some? && 0 < |author.value| <= AuthorLimit ==> c.author == author.value
    ensures author.Some? && |author.value| > AuthorLimit ==> c.author == author.value[..AuthorLimit]
    ensures c.id == id && c.date == now
  {
    var name := if author.Some? && author.value != "" then author.value else "Anonymous";
    CommentData(id, now, Prefix(name, AuthorLimit), Prefix(content, ContentLimit))
  }

  datatype PostRequest = PostRequest(slug: Field, author: Option<string>, content: Option<string>)

  /** The request's context: the client's address, the new comment's id, and the clock in ms. */
  datatype Context = Context(forwarded: Forwarded, remote: string, id: string, now: int)

  /** The fields a POST needs: a non-empty string slug and a non-empty content. */
  predicate WellFormed(req: PostRequest) {
    req.slug.Text? && req.slug.s != "" && req.content.Some? && req.content.value != ""
  }

  /**
   * The POST branch: the response and the store afterwards. A rate-limit call that fails is
   * ignored, and a failed save answers 500 with the lists untouched.
   */
  function HandlePost(backend: Backend, st: CommentStore, req: PostRequest, ctx: Context, faults: Faults): (r: (Response, CommentStore))
    ensures r.0 == Status(400) <==> !WellFormed(req)
    ensures r.0 == Status(400) ==> r.1 == st
    ensures r.0 == Status(429) <==>
      WellFormed(req) && backend == KvBackend && !faults.rateFails
      && RateLimited(st, RateKey(ClientAddress(ctx.forwarded, ctx.remote)), ctx.now)
    ensures r.0 == Status(429) ==> r.1 == st
    ensures faults.rateFails || backend == MemoryBackend ==> r.1.flags == st.flags
    ensures r.0 == Status(500) <==> WellFormed(req) && faults.saveFails && r.0 != Status(429)
    ensures r.0 == Status(500) ==> r.1.lists == st.lists
    ensures r.0.Status? ==> r.0.code in {400, 429, 500}
    ensures r.0.Created? ==>
      WellFormed(req) && r.0.comment == NewComment(ctx.id, ctx.now, req.author, req.content.value)
    ensures !r.0.Listing?
  {
    if !(req.slug.Text? && req.slug.s != "") || req.content.None? || req.content == Some("") then (Status(400), st)
    else
      var key := RateKey(ClientAddress(ctx.forwarded, ctx.remote));
      if backend == KvBackend && !faults.rateFails && RateLimited(st, key, ctx.now) then (Status(429), st)
      else
        var st1 := if backend == KvBackend && !faults.rateFails
          then st.(flags := st.flags[key := ctx.now + RateWindowMs]) else st;
        var c := NewComment(ctx.id, ctx.now, req.author, req.content.value);
        if faults.saveFails then (Status(500), st1)
        else
          var listKey := ListKey(req.slug.s);
          (Created(c), st1.(lists := st1.lists[listKey := Entries(st1, listKey) + [Json(Encode(c))]]))
  }

  datatype Method = Get | Post | OtherMethod

  /** The handler. */
  function Handle(verb: Method, backend: Backend, st: CommentStore, getSlug: Field, req: PostRequest,
                  ctx: Context, faults: Faults): (r: (Response, CommentStore))
    ensures verb != Post ==> r.1 == st
    ensures verb == OtherMethod ==> r.0 == Status(405)
    ensures r.0.Status? && r.0.code != 500 ==> r.1.lists == st.lists
    ensures r.0 == Status(400) || r.0 == Status(429) ==> r.1 == st
    ensures verb == Post ==> (r.0 == Status(400) <==> !WellFormed(req))
    ensures verb == Post && (faults.rateFails || backend == MemoryBackend) ==> r.0 != Status(429)
    ensures r.0 == Status(500) ==> verb == Post && faults.saveFails && r.1.lists == st.lists
  {
    match verb
    case Get => (HandleGet(st, getSlug, faults), st)
    case Post => HandlePost(backend, st, req, ctx, faults)
    case OtherMethod => (Status(405), st)
  }

  /** A created comment is appended to its post's list and to no other; nothing else in any list changes. */
  lemma PostAppendsOne(backend: Backend, st: CommentStore, req: PostRequest, ctx: Context, faults: Faults)
    requires HandlePost(backend, st, req, ctx, faults).0.Created?
    ensures var (r, st') := HandlePost(backend, st, req, ctx, faults);
      && req.slug.Text?
      && Entries(st', ListKey(req.slug.s)) == Entries(st, ListKey(req.slug.s)) + [Json(Encode(r.comment))]
      && forall k | k != ListKey(req.slug.s) :: Entries(st', k) == Entries(st, k)
  {
  }

  /** After a created comment, reading the post lists every comment it listed before plus the new one. */
  lemma PostThenGet(backend: Backend, st: CommentStore, req: PostRequest, ctx: Context, faults: Faults)
    requires HandlePost(backend, st, req, ctx, faults).0.Created?
    ensures var (r, st') := HandlePost(backend, st, req, ctx, faults);
      var before := HandleGet(st, req.slug, Faults(false, false, false));
      var after := HandleGet(st', req.slug, Faults(false, false, false));
      && before.Listing? && after.Listing?
      && multiset(after.comments) == multiset(before.comments) + multiset{r.comment}
  {
    var (r, st') := HandlePost(backend, st, req, ctx, faults);
    var key := ListKey(req.slug.s);
    PostAppendsOne(backend, st, req, ctx, faults);
    GetLists(st, req.slug.s);
    GetLists(st', req.slug.s);
    ParsedAppendOne(Entries(st, key), r.comment);
  }

  /** An unfailing read of a named post lists the decodable comments of its entries. */
  lemma GetLists(st: CommentStore, slug: string)
    requires slug != ""
    ensures HandleGet(st, Text(slug), Faults(false, false, false)) == Listing(ListComments(Entries(st, ListKey(slug))))
  {
  }

  /** Appending an encoded comment adds exactly that comment to what the entries hold. */
  lemma ParsedAppendOne(entries: seq<Entry>, c: CommentData)
    ensures Parsed(entries + [Json(Encode(c))]) == Parsed(entries) + [c]
  {
    ParsedAppend(entries, [Json(Encode(c))]);
    DecodeEncode(c);
    Seqs.CollectCons(Json(Encode(c)), [], EntryComment);
    assert [Json(Encode(c))] + [] == [Json(Encode(c))];
  }

  /** With the shared store, a second comment from the same address within a minute is refused. */
  lemma SecondPostWithinMinuteRefused(st: CommentStore, req: PostRequest, req2: PostRequest, ctx: Context, later: int)
    requires HandlePost(KvBackend, st, req, ctx, Faults(false, false, false)).0.Created?
    requires ctx.now <= later < ctx.now + RateWindowMs
    requires req2.slug.Text? && req2.slug.s != "" && req2.content.Some? && req2.content.value != ""
    ensures var st' := HandlePost(KvBackend, st, req, ctx, Faults(false, false, false)).1;
      HandlePost(KvBackend, st', req2, ctx.(now := later), Faults(false, false, false)).0 == Status(429)
  {
  }

  /** A minute later the same address may comment again; the in-process fallback never limits. */
  lemma RateWindowExpires(st: CommentStore, req: PostRequest, req2: PostRequest, ctx: Context, later: int)
    requires HandlePost(KvBackend, st, req, ctx, Faults(false, false, false)).0.Created?
    requires later >= ctx.now + RateWindowMs
    requires req2.slug.Text? && req2.slug.s != "" && req2.content.Some? && req2.content.value != ""
    ensures var st' := HandlePost(KvBackend, st, req, ctx, Faults(false, false, false)).1;
      HandlePost(KvBackend, st', req2, ctx.(now := later), Faults(false, false, false)).0.Created?
  {
  }

  /** The in-process fallback never answers 429. */
  lemma MemoryNeverLimits(st: CommentStore, req: PostRequest, ctx: Context, faults: Faults)
    ensures HandlePost(MemoryBackend, st, req, ctx, faults).0 != Status(429)
  {
  }

  /** Equal dates keep their stored order in the listing. */
  lemma ListingIsStable(entries: seq<Entry>, date: int)
    ensures Sorting.Ties(ListComments(entries), NewestRank, -date) == Sorting.Ties(Parsed(entries), NewestRank, -date)
  {
    Sorting.SortIsStable(Parsed(entries), NewestRank, -date);
  }
}
