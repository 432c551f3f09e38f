/**
 * The home page's `getServerSideProps`: Public filter, tag, whitespace-insensitive search and
 * category, reversal for any order but `desc`, page count, first page and the tag list.
 */
module HomePage {
  import Seqs
  import Strings
  import opened Posts
  import SiteConfig

  /** The request's query; an absent parameter is the empty string (both are falsy). */
  datatype Query = Query(tag: string, q: string, category: string, order: string)

  datatype Props = Props(posts: seq<Post>, totalPages: nat, allTags: seq<string>)

  /** Lower-case, then drop every whitespace character. */
  function Normalize(s: string): string {
    Strings.RemoveWhitespace(Strings.ToLower(s))
  }

  function SearchContent(p: Post): string {
    p.title + p.summary + Strings.Join(p.tags, " ")
  }

  function IsPublicPost(): Post -> bool {
    (p: Post) => IsPublic(p)
  }

  function HasTag(tag: string): Post -> bool {
    (p: Post) => tag in p.tags
  }

  function MatchesSearch(normalizedSearch: string): Post -> bool {
    (p: Post) => Strings.Includes(Normalize(SearchContent(p)), normalizedSearch)
  }

  function InCategory(category: string): Post -> bool {
    (p: Post) => category in p.category
  }

  /** The filter chain before the order is applied, in the order the page applies it. */
  function Filtered(posts: seq<Post>, query: Query, defaultCategory: string): seq<Post> {
    CategoryStep(SearchStep(TagStep(Seqs.Filter(posts, IsPublicPost()), query.tag), query.q),
                 query.category, defaultCategory)
  }

  /** The tag step: skipped for an empty tag, otherwise membership in the post's tags. */
  function TagStep(s: seq<Post>, tag: string): seq<Post> {
    if tag != "" then Seqs.Filter(s, HasTag(tag)) else s
  }

  /** The category step: an empty category means the default one, which filters nothing. */
  function CategoryStep(s: seq<Post>, category: string, defaultCategory: string): seq<Post> {
    var c := if category == "" then defaultCategory else category;
    if c != defaultCategory then Seqs.Filter(s, InCategory(c)) else s
  }

  /** The search step: skipped for an empty query, otherwise a normalised substring test. */
  function SearchStep(s: seq<Post>, q: string): seq<Post> {
    if q != "" then Seqs.Filter(s, MatchesSearch(Normalize(q))) else s
  }

  /** The listed posts: the filter chain, reversed unless the order is `desc` (or absent). */
  function Listing(posts: seq<Post>, query: Query, defaultCategory: string): seq<Post> {
    var order := if query.order == "" then "desc" else query.order;
    var f := Filtered(posts, query, defaultCategory);
    if order != "desc" then Seqs.Reverse(f) else f
  }

  /** `Math.ceil(n / perPage)`. */
  function CeilDiv(n: nat, perPage: nat): (r: nat)
    requires perPage > 0
    ensures r == 0 <==> n == 0
    ensures n > 0 ==> (r - 1) * perPage < n <= r * perPage
  {
    (n + perPage - 1) / perPage
  }

  /** The props of the home page for posts `posts` (the output of `getPosts`). */
  method ServerSideProps(cfg: SiteConfig.Config, posts: seq<Post>, query: Query) returns (props: Props)
    requires cfg.postsPerPage > 0
    ensures var listed := Listing(posts, query, cfg.defaultCategory);
      && props.totalPages == CeilDiv(|listed|, cfg.postsPerPage)
      && |props.posts| == (if |listed| < cfg.postsPerPage then |listed| else cfg.postsPerPage)
      && props.posts == listed[..|props.posts|]
    ensures props.allTags == Seqs.FirstOccurrences(Seqs.Flatten(TagsOf(posts)))
  {
    var listed := Listing(posts, query, cfg.defaultCategory);
    var totalPages := CeilDiv(|listed|, cfg.postsPerPage);
    var n := if |listed| < cfg.postsPerPage then |listed| else cfg.postsPerPage;
    var allTags := Seqs.Distinct(Seqs.Flatten(TagsOf(posts)));
    props := Props(listed[..n], totalPages, allTags);
  }

  /** `posts.map(post => post.tags || [])`. */
  function TagsOf(posts: seq<Post>): (r: seq<seq<string>>)
    ensures |r| == |posts|
    ensures forall i | 0 <= i < |posts| :: r[i] == posts[i].tags
  {
    seq(|posts|, i requires 0 <= i < |posts| => posts[i].tags)
  }

  /** Every listed post is public, carries the tag when one is given, and lies in the category when it is not the default one. */
  lemma ListingSatisfiesFilters(posts: seq<Post>, query: Query, defaultCategory: string)
    ensures forall p | p in Listing(posts, query, defaultCategory) ::
      && IsPublic(p)
      && (query.tag != "" ==> query.tag in p.tags)
      && (query.category != "" && query.category != defaultCategory ==> query.category in p.category)
      && p in posts
  {
    forall p | p in Listing(posts, query, defaultCategory)
      ensures IsPublic(p)
      ensures query.tag != "" ==> query.tag in p.tags
      ensures query.category != "" && query.category != defaultCategory ==> query.category in p.category
      ensures p in posts
    {
      ListedIsFiltered(posts, query, defaultCategory, p);
      FilteredSatisfies(posts, query, defaultCategory, p);
    }
  }

  lemma ListedIsFiltered(posts: seq<Post>, query: Query, defaultCategory: string, p: Post)
    requires p in Listing(posts, query, defaultCategory)
    ensures p in Filtered(posts, query, defaultCategory)
  {
    var f := Filtered(posts, query, defaultCategory);
    Seqs.ReversePermutes(f);
    assert multiset(Listing(posts, query, defaultCategory)) == multiset(f);
    assert p in multiset(Listing(posts, query, defaultCategory));
  }

  lemma FilteredSatisfies(posts: seq<Post>, query: Query, defaultCategory: string, p: Post)
    requires p in Filtered(posts, query, defaultCategory)
    ensures IsPublic(p) && p in posts
    ensures query.tag != "" ==> query.tag in p.tags
    ensures query.category != "" && query.category != defaultCategory ==> query.category in p.category
  {
    var s1 := Seqs.Filter(posts, IsPublicPost());
    var s2 := TagStep(s1, query.tag);
    var s3 := SearchStep(s2, query.q);
    assert p in s3;
    assert p in s2;
    assert p in s1;
  }

  /** Before any reversal, the listing keeps the relative order of `getPosts`' output. */
  lemma FilteredIsSubsequence(posts: seq<Post>, query: Query, defaultCategory: string)
    ensures Seqs.IsSubsequence(Filtered(posts, query, defaultCategory), posts)
  {
    var category := if query.category == "" then defaultCategory else query.category;
    var s1 := Seqs.Filter(posts, IsPublicPost());
    Seqs.FilterIsSubsequence(posts, IsPublicPost());
    var s2 := TagStep(s1, query.tag);
    if query.tag != "" {
      Seqs.FilterIsSubsequence(s1, HasTag(query.tag));
      SubsequenceTransitive(s2, s1, posts);
    }
    var s3 := SearchStep(s2, query.q);
    if query.q != "" {
      Seqs.FilterIsSubsequence(s2, MatchesSearch(Normalize(query.q)));
      SubsequenceTransitive(s3, s2, posts);
    }
    if category != defaultCategory {
      Seqs.FilterIsSubsequence(s3, InCategory(category));
      SubsequenceTransitive(CategoryStep(s3, query.category, defaultCategory), s3, posts);
    }
  }

  lemma {:induction false} SubsequenceTransitive<T>(a: seq<T>, b: seq<T>, c: seq<T>)
    requires Seqs.IsSubsequence(a, b) && Seqs.IsSubsequence(b, c)
    ensures Seqs.IsSubsequence(a, c)
    decreases |c|
  {
    if |a| > 0 && |c| > 0 {
      if b[0] == c[0] {
        if a[0] == b[0] {
          SubsequenceTransitive(a[1..], b[1..], c[1..]);
        } else {
          SubsequenceTransitive(a, b[1..], c[1..]);
          Seqs.SubsequenceOfTail(a, c);
        }
      } else {
        SubsequenceTransitive(a, b, c[1..]);
        Seqs.SubsequenceOfTail(a, c);
      }
    }
  }

  /** Any order other than `desc` lists exactly the reverse of the `desc` listing; nothing is re-sorted. */
  lemma NonDescIsReverse(posts: seq<Post>, query: Query, defaultCategory: string)
    requires query.order != "" && query.order != "desc"
    ensures Listing(posts, query, defaultCategory)
         == Seqs.Reverse(Listing(posts, query.(order := "desc"), defaultCategory))
  {
  }

  /** Two searches with the same lower-cased, whitespace-free form list the same posts. */
  lemma SearchIgnoresCaseAndWhitespace(posts: seq<Post>, query: Query, q2: string, defaultCategory: string)
    requires Normalize(query.q) == Normalize(q2)
    ensures Listing(posts, query, defaultCategory) == Listing(posts, query.(q := q2), defaultCategory)
  {
    SearchStepNormalized(TagStep(Seqs.Filter(posts, IsPublicPost()), query.tag), query.q, q2);
  }

  lemma SearchStepNormalized(s: seq<Post>, q1: string, q2: string)
    requires Normalize(q1) == Normalize(q2)
    ensures SearchStep(s, q1) == SearchStep(s, q2)
  {
    if q1 == "" || q2 == "" {
      // An empty search and one that normalises to nothing both keep everything.
      var n := Normalize(if q1 == "" then q2 else q1);
      assert n == "" by {
        assert Normalize("") == "";
      }
      forall i | 0 <= i < |s| ensures MatchesSearch(n)(s[i]) {
        Strings.IncludesEmpty(Normalize(SearchContent(s[i])));
      }
      Seqs.FilterAll(s, MatchesSearch(n));
    }
  }

  /** Adding a whitespace character anywhere in the search, or lower-casing it, changes nothing. */
  lemma SearchExamples(a: string, w: char, b: string)
    requires Strings.IsWhitespace(w)
    ensures Normalize(a + [w] + b) == Normalize(a + b)
    ensures Normalize(Strings.ToLower(a)) == Normalize(a)
  {
    Strings.ToLowerAppend(a + [w], b);
    Strings.ToLowerAppend(a, [w]);
    Strings.ToLowerAppend(a, b);
    assert Strings.ToLower([w]) == [w];
    Strings.RemoveWhitespaceIgnoresInsertion(Strings.ToLower(a), w, Strings.ToLower(b));
    Strings.ToLowerIdempotent(a);
  }

  /** The tag list has no duplicates, keeps first-occurrence order and covers every post's tags, public or not. */
  lemma AllTagsProperties(posts: seq<Post>)
    ensures var all := Seqs.FirstOccurrences(Seqs.Flatten(TagsOf(posts)));
      && Seqs.NoDuplicates(all)
      && (forall i, t | 0 <= i < |posts| && t in posts[i].tags :: t in all)
      && (forall t | t in all :: exists i | 0 <= i < |posts| :: t in posts[i].tags)
  {
    var flat := Seqs.Flatten(TagsOf(posts));
    Seqs.FirstOccurrencesProperties(flat);
  }
}
