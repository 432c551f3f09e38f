/** The post record the content normaliser produces, and its sort timestamp. */
module Posts {
  import opened Wrappers
  import Sorting

  /** A post: the properties the core reads. Absent `tags`/`category`/`status` are empty lists. */
  datatype Post = Post(
    id: string,
    slug: string,
    title: string,
    summary: string,
    tags: seq<string>,
    category: seq<string>,
    status: seq<string>,
    startDate: Option<int>,  // date.start_date, as a timestamp
    createdTime: int,        // the block's creation timestamp
    fullWidth: bool
  )

  /** `post.date?.start_date || post.createdTime`: the timestamp every sort uses. */
  function SortTime(p: Post): int {
    p.startDate.GetOr(p.createdTime)
  }

  /** `status?.includes("Public")`. */
  predicate IsPublic(p: Post) {
    "Public" in p.status
  }

  /** Rank for the comparator `(a, b) => time(b) - time(a)`. */
  function NewestFirstRank(p: Post): int {
    -SortTime(p)
  }

  /** Rank for the comparator `(a, b) => time(a) - time(b)`. */
  function OldestFirstRank(p: Post): int {
    SortTime(p)
  }

  predicate NewestFirst(s: seq<Post>) {
    forall i, j | 0 <= i < j < |s| :: SortTime(s[i]) >= SortTime(s[j])
  }

  predicate OldestFirst(s: seq<Post>) {
    forall i, j | 0 <= i < j < |s| :: SortTime(s[i]) <= SortTime(s[j])
  }

  /** The stable newest-first sort shared by `getPosts` and `filterPosts`. */
  function SortNewestFirst(s: seq<Post>): (r: seq<Post>)
    ensures NewestFirst(r)
    ensures multiset(r) == multiset(s)
  {
    var r := Sorting.SortByRank(s, NewestFirstRank);
    assert forall i, j | 0 <= i < j < |r| :: NewestFirstRank(r[i]) <= NewestFirstRank(r[j]);
    r
  }

  /** The stable oldest-first sort `filterPosts` applies for any order other than `desc`. */
  function SortOldestFirst(s: seq<Post>): (r: seq<Post>)
    ensures OldestFirst(r)
    ensures multiset(r) == multiset(s)
  {
    Sorting.SortByRank(s, OldestFirstRank)
  }

  /** Posts sharing a timestamp keep their relative order under the newest-first sort. */
  lemma NewestFirstIsStable(s: seq<Post>, t: int)
    ensures Sorting.Ties(SortNewestFirst(s), NewestFirstRank, -t) == Sorting.Ties(s, NewestFirstRank, -t)
  {
    Sorting.SortIsStable(s, NewestFirstRank, -t);
  }
}
