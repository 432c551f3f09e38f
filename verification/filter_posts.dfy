/** `filterPosts`, the client-side feed filter: query, tags (AND/OR), category, then date sort. */
module FilterPosts {
  import Seqs
  import Strings
  import Sorting
  import opened Posts

  /** The `tag` argument: absent, one string (possibly comma-separated), or a list. */
  datatype TagParam = NoTag | TagText(text: string) | TagList(tags: seq<string>)

  datatype TagMode = And | Or

  /** The selected tags: a list as given, a non-empty string split on `,`, otherwise none. */
  function SelectedTags(tag: TagParam): (r: seq<string>)
    ensures tag.TagList? ==> r == tag.tags
    ensures tag.NoTag? || tag == TagText("") ==> r == []
    ensures tag.TagText? && tag.text != "" ==>
      |r| >= 1 && Strings.Join(r, ",") == tag.text && forall i | 0 <= i < |r| :: ',' !in r[i]
  {
    match tag
    case TagList(tags) => tags
    case TagText(text) =>
      if |text| > 0 then
        Strings.JoinSplit(text, ',');
        Strings.Split(text, ',')
      else []
    case NoTag => []
  }

  /** Title, summary and the space-joined tags: the text a query is matched against. */
  function SearchContent(p: Post): string {
    p.title + p.summary + Strings.Join(p.tags, " ")
  }

  predicate MatchesQuery(p: Post, q: string) {
    Strings.Includes(Strings.ToLower(SearchContent(p)), Strings.ToLower(q))
  }

  predicate MatchesTags(p: Post, selected: seq<string>, mode: TagMode) {
    if |selected| == 0 then true
    else if |p.tags| == 0 then false
    else if mode == Or then exists t | t in selected :: t in p.tags
    else forall t | t in selected :: t in p.tags
  }

  predicate MatchesCategory(p: Post, category: string, defaultCategory: string) {
    category == defaultCategory || category in p.category
  }

  /** The three tests a post must pass to stay in the feed. */
  predicate Selected(p: Post, q: string, selected: seq<string>, category: string, mode: TagMode,
                     defaultCategory: string) {
    MatchesQuery(p, q) && MatchesTags(p, selected, mode) && MatchesCategory(p, category, defaultCategory)
  }

  /**
   * `filterPosts({posts, q, tag, category, order, tagMode})`: exactly the selected posts, each
   * as often as in `posts`, newest first when `order` is `"desc"` and oldest first otherwise.
   */
  function FilterPosts(posts: seq<Post>, q: string, tag: TagParam, category: string, order: string,
                       mode: TagMode, defaultCategory: string): (r: seq<Post>)
    ensures forall p {:trigger multiset(r)[p]} ::
      multiset(r)[p] ==
        (if Selected(p, q, SelectedTags(tag), category, mode, defaultCategory) then multiset(posts)[p] else 0)
    ensures order == "desc" ==> NewestFirst(r)
    ensures order != "desc" ==> OldestFirst(r)
  {
    var filtered := Seqs.Filter(posts, Keep(q, SelectedTags(tag), category, mode, defaultCategory));
    KeepMultiplicity(posts, q, SelectedTags(tag), category, mode, defaultCategory);
    if order == "desc" then SortNewestFirst(filtered) else SortOldestFirst(filtered)
  }

  /** The filter callback of `filterPosts`. */
  function Keep(q: string, selected: seq<string>, category: string, mode: TagMode,
                defaultCategory: string): Post -> bool
  {
    (p: Post) => Selected(p, q, selected, category, mode, defaultCategory)
  }

  lemma KeepMultiplicity(posts: seq<Post>, q: string, selected: seq<string>, category: string,
                         mode: TagMode, defaultCategory: string)
    ensures forall p {:trigger multiset(Seqs.Filter(posts, Keep(q, selected, category, mode, defaultCategory)))[p]} ::
      multiset(Seqs.Filter(posts, Keep(q, selected, category, mode, defaultCategory)))[p] ==
        (if Selected(p, q, selected, category, mode, defaultCategory) then multiset(posts)[p] else 0)
  {
    var keep := Keep(q, selected, category, mode, defaultCategory);
    forall p ensures multiset(Seqs.Filter(posts, keep))[p] == if keep(p) then multiset(posts)[p] else 0 {
      Seqs.FilterMultiplicity(posts, keep, p);
    }
  }

  /** A post is in the feed iff it occurs in `posts` and passes the three tests. */
  lemma FilterPostsMembership(posts: seq<Post>, q: string, tag: TagParam, category: string, order: string,
                              mode: TagMode, defaultCategory: string, p: Post)
    ensures p in FilterPosts(posts, q, tag, category, order, mode, defaultCategory) <==>
      p in posts && Selected(p, q, SelectedTags(tag), category, mode, defaultCategory)
  {
    var r := FilterPosts(posts, q, tag, category, order, mode, defaultCategory);
    assert p in r <==> multiset(r)[p] > 0;
    assert p in posts <==> multiset(posts)[p] > 0;
  }

  /** `or` keeps a post iff it has a selected tag; `and` keeps it iff it has all of them. */
  lemma TagModes(p: Post, selected: seq<string>)
    requires |selected| > 0
    ensures MatchesTags(p, selected, Or) <==> exists t | t in selected :: t in p.tags
    ensures MatchesTags(p, selected, And) <==> forall t | t in selected :: t in p.tags
  {
    if forall t | t in selected :: t in p.tags {
      assert selected[0] in p.tags;
    }
  }

  /** The `and` result is contained in the `or` result for the same arguments. */
  lemma AndWithinOr(posts: seq<Post>, q: string, tag: TagParam, category: string, order: string,
                    defaultCategory: string)
    ensures forall p | p in FilterPosts(posts, q, tag, category, order, And, defaultCategory) ::
      p in FilterPosts(posts, q, tag, category, order, Or, defaultCategory)
  {
    var selected := SelectedTags(tag);
    forall p | p in FilterPosts(posts, q, tag, category, order, And, defaultCategory)
      ensures p in FilterPosts(posts, q, tag, category, order, Or, defaultCategory)
    {
      FilterPostsMembership(posts, q, tag, category, order, And, defaultCategory, p);
      FilterPostsMembership(posts, q, tag, category, order, Or, defaultCategory, p);
      if |selected| > 0 && |p.tags| > 0 {
        assert selected[0] in p.tags;
      }
      assert Selected(p, q, selected, category, Or, defaultCategory);
    }
  }

  /** An empty query matches every post, and matching ignores the case of the query. */
  lemma QueryEdges(p: Post, q: string)
    ensures MatchesQuery(p, "")
    ensures MatchesQuery(p, Strings.ToLower(q)) == MatchesQuery(p, q)
  {
    Strings.IncludesEmpty(Strings.ToLower(SearchContent(p)));
    Strings.ToLowerIdempotent(q);
  }

  /** Under `desc`, posts with equal timestamps keep the order they had in `posts`. */
  lemma DescendingIsStable(posts: seq<Post>, q: string, tag: TagParam, category: string,
                           mode: TagMode, defaultCategory: string, t: int)
    ensures Sorting.Ties(FilterPosts(posts, q, tag, category, "desc", mode, defaultCategory), NewestFirstRank, -t)
         == Sorting.Ties(Seqs.Filter(posts, Keep(q, SelectedTags(tag), category, mode, defaultCategory)),
                         NewestFirstRank, -t)
  {
    NewestFirstIsStable(Seqs.Filter(posts, Keep(q, SelectedTags(tag), category, mode, defaultCategory)), t);
  }
}
