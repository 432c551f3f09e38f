/**
 * The likes API: like counts per post and per-visitor membership, against the shared store or,
 * outside production, an in-process fallback. A POST either trusts the client's desired state
 * (lite toggle) or checks membership (full toggle); neither lets a count go negative.
 */
module Likes {
  import opened Wrappers
  import Seqs
  import Strings

  /** A request parameter: absent, a string, or a list of strings (a repeated parameter). */
  datatype Raw = Absent | Str(s: string) | Arr(items: seq<string>)

  /** JavaScript truthiness of a parameter: absent and the empty string are falsy; any list is truthy. */
  predicate Truthy(raw: Raw) {
    !(raw.Absent? || raw == Str(""))
  }

  /** No entry is empty and every entry is already trimmed. */
  predicate Clean(r: seq<string>) {
    forall i | 0 <= i < |r| :: r[i] != "" && Strings.Trim(r[i]) == r[i]
  }

  predicate NonEmpty(s: string) {
    s != ""
  }

  function TrimAll(parts: seq<string>): (r: seq<string>)
    ensures |r| == |parts|
    ensures forall i | 0 <= i < |parts| :: r[i] == Strings.Trim(parts[i])
  {
    if |parts| == 0 then [] else [Strings.Trim(parts[0])] + TrimAll(parts[1..])
  }

  /** The trimmed, non-empty parts of `parts`, in order. */
  function TrimmedParts(parts: seq<string>): seq<string> {
    Seqs.Filter(TrimAll(parts), NonEmpty)
  }

  /** Every entry of `TrimmedParts` is non-empty and already trimmed. */
  lemma TrimmedPartsClean(parts: seq<string>)
    ensures Clean(TrimmedParts(parts))
  {
    TrimAllIsTrimmed(parts);
    FilterKeepsTrimmed(TrimAll(parts));
  }

  lemma TrimAllIsTrimmed(parts: seq<string>)
    ensures forall x | x in TrimAll(parts) :: Strings.Trim(x) == x
  {
    var t := TrimAll(parts);
    forall x | x in t ensures Strings.Trim(x) == x {
      var k :| 0 <= k < |t| && t[k] == x;
      Strings.TrimIdempotent(parts[k]);
    }
  }

  lemma FilterKeepsTrimmed(t: seq<string>)
    requires forall x | x in t :: Strings.Trim(x) == x
    ensures forall i | 0 <= i < |Seqs.Filter(t, NonEmpty)| ::
      Seqs.Filter(t, NonEmpty)[i] != "" && Strings.Trim(Seqs.Filter(t, NonEmpty)[i]) == Seqs.Filter(t, NonEmpty)[i]
  {
    var r := Seqs.Filter(t, NonEmpty);
    forall i | 0 <= i < |r| ensures r[i] != "" && Strings.Trim(r[i]) == r[i] {
      assert r[i] in r;
    }
  }

  /** `normalizeSlugs(raw)`: never an empty or untrimmed entry, and nothing from a falsy parameter. */
  function NormalizeSlugs(raw: Raw): (r: seq<string>)
    ensures Clean(r)
    ensures !Truthy(raw) ==> r == []
  {
    match raw
    case Absent => []
    case Str(str) =>
      if str == "" then []
      else if ',' in str then
        TrimmedPartsClean(Strings.Split(str, ','));
        TrimmedParts(Strings.Split(str, ','))
      else
        TrimmedPartsClean([str]);
        TrimmedParts([str])
    case Arr(items) =>
      TrimmedPartsClean(Seqs.Filter(items, NonEmpty));
      TrimmedParts(Seqs.Filter(items, NonEmpty))
  }

  /** The string and list cases are one rule: split on `,` (a string without one is a single part), trim, drop empties. */
  lemma NormalizeSlugsIsSplitTrimFilter(raw: Raw)
    ensures raw.Str? && raw.s != "" ==> NormalizeSlugs(raw) == TrimmedParts(Strings.Split(raw.s, ','))
    ensures raw.Arr? ==> NormalizeSlugs(raw) == TrimmedParts(raw.items)
  {
    if raw.Str? && raw.s != "" && ',' !in raw.s {
      SplitWithoutSeparator(raw.s, ',');
    }
    if raw.Arr? {
      FilterTrimmedDropsEmpty(raw.items);
    }
  }

  lemma {:induction false} SplitWithoutSeparator(s: string, sep: char)
    requires sep !in s
    ensures Strings.Split(s, sep) == [s]
    decreases |s|
  {
    if |s| > 0 {
      SplitWithoutSeparator(s[1..], sep);
      assert s == [s[0]] + s[1..];
    }
  }

  /** Dropping empty entries before trimming changes nothing: they trim to empty and are dropped anyway. */
  lemma {:induction false} FilterTrimmedDropsEmpty(items: seq<string>)
    ensures TrimmedParts(Seqs.Filter(items, NonEmpty)) == TrimmedParts(items)
    decreases |items|
  {
    if |items| > 0 {
      var x, rest := items[0], items[1..];
      assert items == [x] + rest;
      FilterTrimmedDropsEmpty(rest);
      Seqs.FilterCons(x, rest, NonEmpty);
      TrimmedPartsCons(x, rest);
      if x != "" {
        TrimmedPartsCons(x, Seqs.Filter(rest, NonEmpty));
      } else {
        Strings.TrimNoop(x);
      }
    }
  }

  lemma TrimmedPartsCons(x: string, s: seq<string>)
    ensures TrimmedParts([x] + s) == (if Strings.Trim(x) != "" then [Strings.Trim(x)] else []) + TrimmedParts(s)
  {
    assert ([x] + s)[0] == x && ([x] + s)[1..] == s;
    Seqs.FilterCons(Strings.Trim(x), TrimAll(s), NonEmpty);
  }

  /** Where the like state lives: the shared store, or the in-process maps. */
  datatype Backend = KvBackend | MemoryBackend

  /** Counters by key and member sets by key (`likes:users:<slug>` in the store, `<slug>` in memory). */
  datatype LikeStore = LikeStore(counts: map<string, int>, members: map<string, set<string>>)

  function CountKey(slug: string): string {
    "likes:count:" + slug
  }

  function MembersKey(backend: Backend, slug: string): string {
    if backend == KvBackend then "likes:users:" + slug else slug
  }

  lemma KeysInjective(backend: Backend, a: string, b: string)
    ensures CountKey(a) == CountKey(b) ==> a == b
    ensures MembersKey(backend, a) == MembersKey(backend, b) ==> a == b
  {
    if CountKey(a) == CountKey(b) {
      assert a == CountKey(a)[12..] && b == CountKey(b)[12..];
    }
    if MembersKey(backend, a) == MembersKey(backend, b) && backend == KvBackend {
      assert a == MembersKey(backend, a)[12..] && b == MembersKey(backend, b)[12..];
    }
  }

  /** `(await get(likes:count:<slug>)) || 0`. */
  function Count(store: LikeStore, slug: string): int {
    if CountKey(slug) in store.counts then store.counts[CountKey(slug)] else 0
  }

  predicate IsMember(store: LikeStore, backend: Backend, slug: string, uid: string) {
    MembersKey(backend, slug) in store.members && uid in store.members[MembersKey(backend, slug)]
  }

  /** Every stored counter is non-negative. */
  predicate CountsNonNegative(store: LikeStore) {
    forall k | k in store.counts :: store.counts[k] >= 0
  }

  datatype Method = Get | Post | OtherMethod

  datatype Request = Request(
    verb: Method,
    slug: Raw,                // query `slug` on GET, body `slug` on POST
    slugs: Raw,               // query `slugs` on GET
    lite: Raw,                // query `lite` on GET
    nextLiked: Option<bool>,  // body `nextLiked` when it is a boolean
    clientDecides: bool)      // truthiness of body `clientDecides`

  /** The request's environment: the backend, whether this is production, the visitor id, and whether the store call fails. */
  datatype Env = Env(backend: Backend, production: bool, uid: string, storeFails: bool)

  datatype Response =
    | Status(code: int)
    | One(slug: string, likes: int, liked: bool)
    | Counts(counts: map<string, int>)

  /** `String(x || "")`: a list prints as its comma-joined items. */
  function RawText(raw: Raw): string {
    match raw
    case Absent => ""
    case Str(s) => s
    case Arr(items) => Strings.Join(items, ",")
  }

  predicate IsLite(raw: Raw) {
    var lite := Strings.ToLower(RawText(raw));
    lite == "1" || lite == "true"
  }

  /** The GET branch: 400 without a slug, otherwise the answer for the normalized slugs. */
  function HandleGet(env: Env, store: LikeStore, req: Request): (r: Response)
    requires req.verb == Get
    ensures NormalizeSlugs(if Truthy(req.slug) then req.slug else req.slugs) == [] <==> r == Status(400)
    ensures r.Status? ==> r == Status(400)
  {
    var slugs := NormalizeSlugs(if Truthy(req.slug) then req.slug else req.slugs);
    if |slugs| == 0 then Status(400) else Answer(env, store, slugs, req.lite)
  }

  /**
   * `counts` is a plain object, so `counts["__proto__"] = n` calls the inherited setter, which
   * ignores a number: that slug never becomes a key of the answer.
   */
  const ProtoKey := "__proto__"

  /**
   * The answer for a non-empty list of slugs: one count (and membership) for one slug, a map of
   * counts for several. A failing store reads every count as 0 and every membership as false.
   */
  function Answer(env: Env, store: LikeStore, slugs: seq<string>, lite: Raw): (r: Response)
    requires |slugs| > 0
    ensures !r.Status?
    ensures |slugs| == 1 ==>
      && r.One? && r.slug == slugs[0]
      && r.likes == (if env.storeFails then 0 else Count(store, slugs[0]))
      && (r.liked <==> !IsLite(lite) && !env.storeFails && IsMember(store, env.backend, slugs[0], env.uid))
    ensures |slugs| > 1 ==>
      && r.Counts?
      && r.counts.Keys == (set s | s in slugs) - {ProtoKey}
      && forall s | s in r.counts :: r.counts[s] == (if env.storeFails then 0 else Count(store, s))
  {
    if |slugs| == 1 then
      var slug := slugs[0];
      var likes := if env.storeFails then 0 else Count(store, slug);
      if IsLite(lite) then One(slug, likes, false)
      else One(slug, likes, !env.storeFails && IsMember(store, env.backend, slug, env.uid))
    else
      Counts(map s | s in slugs && s != ProtoKey :: if env.storeFails then 0 else Count(store, s))
  }

  /** The POST branch: the response and the store afterwards. */
  function HandlePost(env: Env, store: LikeStore, req: Request): (r: (Response, LikeStore))
    requires req.verb == Post
  {
    if !(req.slug.Str? && req.slug.s != "") then (Status(400), store)
    else if env.production && env.backend == MemoryBackend then (Status(503), store)
    else if env.storeFails then (Status(500), store)
    else
      var slug := req.slug.s;
      var countKey := CountKey(slug);
      var membersKey := MembersKey(env.backend, slug);
      var prev := Count(store, slug);
      var useLiteToggle := req.clientDecides && req.nextLiked.Some?;
      if useLiteToggle then
        var next := req.nextLiked.value;
        var likes := match env.backend
          case KvBackend => if next then prev + 1 else (if prev - 1 < 0 then 0 else prev - 1)
          case MemoryBackend => Max0(if next then prev + 1 else prev - 1);
        (One(slug, likes, next), store.(counts := store.counts[countKey := likes]))
      else
        var users := if membersKey in store.members then store.members[membersKey] else {};
        if env.uid in users then
          var likes := match env.backend
            case KvBackend => if prev - 1 < 0 then 0 else prev - 1
            case MemoryBackend => Max0(prev - 1);
          (One(slug, likes, false),
           LikeStore(store.counts[countKey := likes], store.members[membersKey := users - {env.uid}]))
        else
          (One(slug, prev + 1, true),
           LikeStore(store.counts[countKey := prev + 1], store.members[membersKey := users + {env.uid}]))
  }

  /** `Math.max(0, n)`. */
  function Max0(n: int): (r: int)
    ensures r >= 0 && r >= n && (r == 0 || r == n)
  {
    if n > 0 then n else 0
  }

  /** The handler: every response code it can produce, and the store afterwards. */
  function Handle(env: Env, store: LikeStore, req: Request): (r: (Response, LikeStore))
    ensures req.verb == OtherMethod ==> r == (Status(405), store)
    ensures req.verb == Get ==> r.1 == store
    ensures r.0.Status? ==> r.1 == store && r.0.code in {400, 405, 500, 503}
  {
    match req.verb
    case Get => (HandleGet(env, store, req), store)
    case Post => HandlePost(env, store, req)
    case OtherMethod => (Status(405), store)
  }

  /** A lite GET answers `liked = false` without consulting membership. */
  lemma LiteGetIgnoresMembership(env: Env, store: LikeStore, req: Request)
    requires req.verb == Get && IsLite(req.lite)
    requires |NormalizeSlugs(if Truthy(req.slug) then req.slug else req.slugs)| == 1
    ensures var r := Handle(env, store, req).0;
      r.One? && !r.liked && r.likes == (if env.storeFails then 0 else Count(store, r.slug))
  {
  }

  /** A GET for several slugs answers a count for each of them but `__proto__`, 0 when none is stored. */
  lemma MultiGetCountsEverySlug(env: Env, store: LikeStore, req: Request)
    requires req.verb == Get
    requires |NormalizeSlugs(if Truthy(req.slug) then req.slug else req.slugs)| > 1
    ensures var slugs := NormalizeSlugs(if Truthy(req.slug) then req.slug else req.slugs);
      var r := Handle(env, store, req).0;
      && r.Counts?
      && r.counts.Keys == (set s | s in slugs) - {ProtoKey}
      && forall s | s in slugs && s != ProtoKey ::
           r.counts[s] == (if env.storeFails || CountKey(s) !in store.counts then 0 else store.counts[CountKey(s)])
  {
    var slugs := NormalizeSlugs(if Truthy(req.slug) then req.slug else req.slugs);
    assert Handle(env, store, req).0 == Answer(env, store, slugs, req.lite);
    AnswerCountsEverySlug(env, store, slugs, req.lite);
  }

  lemma AnswerCountsEverySlug(env: Env, store: LikeStore, slugs: seq<string>, lite: Raw)
    requires |slugs| > 1
    ensures var r := Answer(env, store, slugs, lite);
      && r.Counts?
      && r.counts.Keys == (set s | s in slugs) - {ProtoKey}
      && forall s | s in slugs && s != ProtoKey ::
           r.counts[s] == (if env.storeFails || CountKey(s) !in store.counts then 0 else store.counts[CountKey(s)])
  {
  }

  /** Asking for `__proto__` and `a` together answers a count for `a` alone. */
  lemma ProtoSlugDropped(env: Env, store: LikeStore, lite: Raw)
    ensures Answer(env, store, [ProtoKey, "a"], lite).counts.Keys == {"a"}
  {
    assert (set s | s in [ProtoKey, "a"]) == {ProtoKey, "a"};
  }

  /** A non-lite GET for one slug answers its count and whether this visitor is among its members. */
  lemma FullGetAnswersMembership(env: Env, store: LikeStore, req: Request)
    requires req.verb == Get && !IsLite(req.lite)
    requires |NormalizeSlugs(if Truthy(req.slug) then req.slug else req.slugs)| == 1
    ensures var slug := NormalizeSlugs(if Truthy(req.slug) then req.slug else req.slugs)[0];
      var r := Handle(env, store, req).0;
      && r.One? && r.slug == slug
      && r.likes == (if env.storeFails then 0 else Count(store, slug))
      && (r.liked <==> !env.storeFails && IsMember(store, env.backend, slug, env.uid))
  {
  }

  /** A POST without a non-empty string slug is 400, and in production without the store it is 503; neither touches the state. */
  lemma PostGuards(env: Env, store: LikeStore, req: Request)
    requires req.verb == Post
    ensures !(req.slug.Str? && req.slug.s != "") ==> Handle(env, store, req) == (Status(400), store)
    ensures req.slug.Str? && req.slug.s != "" && env.production && env.backend == MemoryBackend ==>
      Handle(env, store, req) == (Status(503), store)
  {
  }

  /** Full toggle: a member is removed and the count drops (not below 0); anyone else is added and the count rises. */
  lemma FullToggle(env: Env, store: LikeStore, req: Request)
    requires req.verb == Post && req.slug.Str? && req.slug.s != ""
    requires !(env.production && env.backend == MemoryBackend) && !env.storeFails
    requires !(req.clientDecides && req.nextLiked.Some?)
    ensures var slug := req.slug.s;
      var (r, store') := Handle(env, store, req);
      && r.One? && r.slug == slug
      && (IsMember(store, env.backend, slug, env.uid) ==>
            !r.liked && r.likes == Max0(Count(store, slug) - 1) && !IsMember(store', env.backend, slug, env.uid))
      && (!IsMember(store, env.backend, slug, env.uid) ==>
            r.liked && r.likes == Count(store, slug) + 1 && IsMember(store', env.backend, slug, env.uid))
      && Count(store', slug) == r.likes
  {
  }

  /** Lite toggle: the count moves toward the requested state, `liked` is that state, and membership is untouched. */
  lemma LiteToggle(env: Env, store: LikeStore, req: Request)
    requires req.verb == Post && req.slug.Str? && req.slug.s != ""
    requires !(env.production && env.backend == MemoryBackend) && !env.storeFails
    requires req.clientDecides && req.nextLiked.Some? && CountsNonNegative(store)
    ensures var slug := req.slug.s;
      var (r, store') := Handle(env, store, req);
      && r == One(slug, Max0(if req.nextLiked.value then Count(store, slug) + 1 else Count(store, slug) - 1),
                  req.nextLiked.value)
      && store'.members == store.members
      && Count(store', slug) == r.likes
  {
  }

  /** Starting from non-negative counters, no request in either mode or backend leaves a negative one or answers one. */
  lemma CountsStayNonNegative(env: Env, store: LikeStore, req: Request)
    requires CountsNonNegative(store)
    ensures CountsNonNegative(Handle(env, store, req).1)
    ensures Handle(env, store, req).0.One? ==> Handle(env, store, req).0.likes >= 0
    ensures Handle(env, store, req).0.Counts? ==>
      forall s | s in Handle(env, store, req).0.counts :: Handle(env, store, req).0.counts[s] >= 0
  {
    match req.verb
    case Get =>
      var slugs := NormalizeSlugs(if Truthy(req.slug) then req.slug else req.slugs);
      if |slugs| > 0 {
        AnswerNonNegative(env, store, slugs, req.lite);
      }
    case Post => PostNonNegative(env, store, req);
    case OtherMethod =>
  }

  lemma AnswerNonNegative(env: Env, store: LikeStore, slugs: seq<string>, lite: Raw)
    requires |slugs| > 0 && CountsNonNegative(store)
    ensures Answer(env, store, slugs, lite).One? ==> Answer(env, store, slugs, lite).likes >= 0
    ensures Answer(env, store, slugs, lite).Counts? ==>
      forall s | s in Answer(env, store, slugs, lite).counts :: Answer(env, store, slugs, lite).counts[s] >= 0
  {
  }

  lemma PostNonNegative(env: Env, store: LikeStore, req: Request)
    requires req.verb == Post && CountsNonNegative(store)
    ensures CountsNonNegative(HandlePost(env, store, req).1)
    ensures HandlePost(env, store, req).0.One? ==> HandlePost(env, store, req).0.likes >= 0
  {
  }

  /** A POST changes only the counter and member set of its own slug. */
  lemma PostIsLocal(env: Env, store: LikeStore, req: Request, other: string)
    requires req.verb == Post && req.slug.Str? && other != req.slug.s
    ensures var store' := Handle(env, store, req).1;
      && Count(store', other) == Count(store, other)
      && (forall uid :: IsMember(store', env.backend, other, uid) <==> IsMember(store, env.backend, other, uid))
  {
    KeysInjective(env.backend, other, req.slug.s);
  }

  /**
   * With non-negative counters, and the visitor a member under both keyings or under neither, the
   * store and the in-process fallback answer alike.
   */
  lemma BackendsAgree(env: Env, store: LikeStore, req: Request)
    requires req.verb == Post && CountsNonNegative(store)
    requires req.slug.Str? ==>
      (IsMember(store, KvBackend, req.slug.s, env.uid) <==> IsMember(store, MemoryBackend, req.slug.s, env.uid))
    ensures Handle(env.(backend := KvBackend, production := false), store, req).0
         == Handle(env.(backend := MemoryBackend, production := false), store, req).0
  {
  }
}
