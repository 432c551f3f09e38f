/** The feed page: the search form's route rewrite and the arguments it passes to `filterPosts`. */
module Feed {
  import opened Wrappers
  import Strings
  import opened Posts
  import opened FilterPosts

  /** A value of `router.query`: one string, or a list when the key is repeated. */
  datatype Param = One(text: string) | Many(items: seq<string>)

  type Query = map<string, Param>

  /** Where `router.push` goes: a pathname and the query to send with it. */
  datatype Route = Route(pathname: string, query: Query)

  /** JavaScript truthiness of a query value: a non-empty string, or any list. */
  predicate Truthy(v: Param) {
    v.Many? || v.text != ""
  }

  /** The string a value becomes in a template literal: a list is joined with `,`. */
  function Text(v: Param): string {
    match v
    case One(text) => text
    case Many(items) => Strings.Join(items, ",")
  }

  /** A context key (`category` or `tag`) when its value is truthy, as text. */
  function ContextOf(query: Query, key: string): (r: Option<string>)
    ensures r.Some? <==> key in query && Truthy(query[key])
    ensures r.Some? ==> r.value == Text(query[key])
  {
    if key in query && Truthy(query[key]) then Some(Text(query[key])) else None
  }

  /**
   * `handleSearch`: write the search text `q` into the query (or remove it when empty), always
   * drop `page`, and stay in the current category, else the current tag, else go to `/`.
   * `encode` stands for `encodeURIComponent`.
   */
  function HandleSearch(query: Query, q: string, encode: string -> string): (r: Route)
    ensures "q" in r.query <==> q != ""
    ensures q != "" ==> r.query["q"] == One(q)
    ensures "page" !in r.query
    ensures forall k | k != "q" && k != "page" :: (k in r.query <==> k in query)
    ensures forall k | k in query && k != "q" && k != "page" :: k in r.query && r.query[k] == query[k]
    ensures ContextOf(query, "category").Some? ==>
      r.pathname == "/category/" + encode(ContextOf(query, "category").value)
    ensures ContextOf(query, "category").None? && ContextOf(query, "tag").Some? ==>
      r.pathname == "/tag/" + encode(ContextOf(query, "tag").value)
    ensures ContextOf(query, "category").None? && ContextOf(query, "tag").None? ==> r.pathname == "/"
  {
    var withSearch := if q != "" then query["q" := One(q)] else query - {"q"};
    var next := withSearch - {"page"};
    var category := ContextOf(query, "category");
    var tag := ContextOf(query, "tag");
    var pathname :=
      if category.Some? then "/category/" + encode(category.value)
      else if tag.Some? then "/tag/" + encode(tag.value)
      else "/";
    Route(pathname, next)
  }

  /** Submitting the same search again from the page it led to changes nothing. */
  lemma SearchIsIdempotent(query: Query, q: string, encode: string -> string)
    ensures HandleSearch(HandleSearch(query, q, encode).query, q, encode) == HandleSearch(query, q, encode)
  {
    var r := HandleSearch(query, q, encode);
    var r2 := HandleSearch(r.query, q, encode);
    assert ContextOf(r.query, "category") == ContextOf(query, "category");
    assert ContextOf(r.query, "tag") == ContextOf(query, "tag");
    assert r2.query == r.query;
  }

  /** The search text as the page reads it back from `router.query.q` when it is a single string. */
  function SearchText(query: Query): (r: Option<string>)
    ensures r.Some? <==> "q" in query && query["q"].One? && query["q"].text != ""
  {
    if "q" in query && query["q"].One? && query["q"].text != "" then Some(query["q"].text) else None
  }

  /** The page a search leads to reads back exactly the submitted text, and no page number. */
  lemma SearchRoundTrip(query: Query, q: string, encode: string -> string)
    ensures SearchText(HandleSearch(query, q, encode).query) == (if q != "" then Some(q) else None)
  {
  }

  /** A category in the query decides the pathname, whatever the tag. */
  lemma CategoryWinsOverTag(query: Query, q: string, encode: string -> string, category: string, tag: string)
    requires category != ""
    ensures HandleSearch(query["category" := One(category)]["tag" := One(tag)], q, encode).pathname
         == "/category/" + encode(category)
  {
    var withBoth := query["category" := One(category)]["tag" := One(tag)];
    assert ContextOf(withBoth, "category") == Some(category);
  }

  /**
   * `displayedPosts`: `filterPosts` with the query's `tag`, `category` and `order` when they are
   * single strings, and otherwise no tag, `defaultCategory` and `desc`; the tag mode is `and`.
   */
  function DisplayedPosts(posts: seq<Post>, query: Query, q: string, defaultCategory: string): (r: seq<Post>)
    ensures forall p | p in r :: p in posts && MatchesQuery(p, q)
    ensures !("order" in query && query["order"].One?) || query["order"] == One("desc") ==> NewestFirst(r)
    ensures "order" in query && query["order"].One? && query["order"].text != "desc" ==> OldestFirst(r)
  {
    var tag := if "tag" in query && query["tag"].One? then TagText(query["tag"].text) else NoTag;
    var category := if "category" in query && query["category"].One? then query["category"].text else defaultCategory;
    var order := if "order" in query && query["order"].One? then query["order"].text else "desc";
    var r := FilterPosts.FilterPosts(posts, q, tag, category, order, And, defaultCategory);
    forall p | p in r ensures p in posts && MatchesQuery(p, q) {
      FilterPostsMembership(posts, q, tag, category, order, And, defaultCategory, p);
    }
    r
  }

  /** With none of `tag`, `category` or `order` given, the feed is every post matching the search, newest first. */
  lemma FeedDefaults(posts: seq<Post>, query: Query, q: string, defaultCategory: string, p: Post)
    requires "tag" !in query && "category" !in query && "order" !in query
    ensures p in DisplayedPosts(posts, query, q, defaultCategory) <==> p in posts && MatchesQuery(p, q)
    ensures NewestFirst(DisplayedPosts(posts, query, q, defaultCategory))
  {
    FilterPostsMembership(posts, q, NoTag, defaultCategory, "desc", And, defaultCategory, p);
  }

  /** A repeated `tag` key is not a string, so it filters nothing: the feed is as without a tag. */
  lemma RepeatedTagIgnored(posts: seq<Post>, query: Query, q: string, defaultCategory: string, tags: seq<string>)
    ensures DisplayedPosts(posts, query["tag" := Many(tags)], q, defaultCategory)
         == DisplayedPosts(posts, query - {"tag"}, q, defaultCategory)
  {
    var withList := query["tag" := Many(tags)];
    var without := query - {"tag"};
    assert ("category" in withList && withList["category"].One?) == ("category" in without && without["category"].One?);
    assert ("order" in withList && withList["order"].One?) == ("order" in without && without["order"].One?);
  }

  /** A repeated `category` key is not a string, so the default category applies: no category filter. */
  lemma RepeatedCategoryIgnored(posts: seq<Post>, query: Query, q: string, defaultCategory: string,
                                categories: seq<string>)
    ensures DisplayedPosts(posts, query["category" := Many(categories)], q, defaultCategory)
         == DisplayedPosts(posts, query - {"category"}, q, defaultCategory)
    ensures DisplayedPosts(posts, query["category" := Many(categories)], q, defaultCategory)
         == DisplayedPosts(posts, query["category" := One(defaultCategory)], q, defaultCategory)
  {
    var withList := query["category" := Many(categories)];
    var without := query - {"category"};
    var withDefault := query["category" := One(defaultCategory)];
    assert ("tag" in withList && withList["tag"].One?) == ("tag" in without && without["tag"].One?);
    assert ("order" in withList && withList["order"].One?) == ("order" in without && without["order"].One?);
    assert ("tag" in withList && withList["tag"].One?) == ("tag" in withDefault && withDefault["tag"].One?);
    assert ("order" in withList && withList["order"].One?) == ("order" in withDefault && withDefault["order"].One?);
  }
}
