# jaehoyi-blog core in Dafny

This project models the logic of a Next.js blog that runs on a Notion database: feed filtering and
ordering, the home page's server-side pipeline, the pagination bar, the two-tier post cache, the
likes and comments API handlers, the like button's optimistic protocol, the sitemap, the SEO meta
tags and JSON-LD, the code-language class normaliser of the Notion renderer, slug derivation from
the router, the feed's search rewrite, and the table of contents' active-heading scan.

Everything is pure: handlers are functions from a request and a store (maps standing in for the
key-value store and the in-memory fallbacks) to a response and a new store. Clocks, random ids,
the Notion fetch, `encodeURI`/`encodeURIComponent`, ISO date formatting and DOM element positions
are parameters. Dates are integer timestamps. Posts are sorted by `start_date`, else
`createdTime`, written `SortTime`.

Module layout, one per source file, plus shared modules:

- `Wrappers` (`Option`), `Strings` (ASCII `toLowerCase`, the JavaScript `\s` class, `split`,
  `join`, `trim`, decimal printing), `Seqs` (filter, reverse, flatten, first occurrences,
  subsequences), `Sorting` (a stable sort by integer rank, as `Array.prototype.sort` is),
  `Posts` (the post record and the two date orders), `SiteConfig` (the `CONFIG` values used).
- `FilterPosts`, `HomePage`, `Pagination`, `Feed`, `PostCache`, `Likes`, `LikeButton`,
  `Comments` with `CommentJson` (the stored JSON form of a comment), `Sitemap`, `MetaConfig`,
  `NotionRenderer`, `PostQuery`, `TableOfContents`.

Two behaviours of the code are easy to miss:

- `HomePage.ServerSideProps`: `totalPages` is `ceil(n / postsPerPage)`, which is 0 when nothing
  matches. The code has no floor of 1 and no page clamp.
- `PostCache.GetPosts`: a page whose properties are missing makes the whole fetch fail, because
  the code writes to the `null` record. Pages are not skipped one by one.

## Model

| member | source | states |
|---|---|---|
| FilterPosts.SelectedTags | src/routes/Feed/PostList/filterPosts.tsx:21-25 | a list of tags is used as given; no tag or `""` selects nothing; a non-empty string gives parts without `,` that join back to it |
| FilterPosts.FilterPosts | src/routes/Feed/PostList/filterPosts.tsx:13-59 | each post occurs in the result exactly as often as in the input when it passes the query, tag and category tests, else not at all; newest first for `desc`, oldest first otherwise |
| FilterPosts.KeepMultiplicity | src/routes/Feed/PostList/filterPosts.tsx:27-54 | the filter step keeps every passing post with its multiplicity and drops every other |
| FilterPosts.FilterPostsMembership | src/routes/Feed/PostList/filterPosts.tsx:27-54 | a post is returned if and only if it is an input post passing all three tests |
| FilterPosts.TagModes | src/routes/Feed/PostList/filterPosts.tsx:40-46 | `or` passes when some selected tag is on the post, `and` when all are |
| FilterPosts.AndWithinOr | src/routes/Feed/PostList/filterPosts.tsx:19-46 | every post of the `and` result is in the `or` result for the same arguments |
| FilterPosts.QueryEdges | src/routes/Feed/PostList/filterPosts.tsx:29-34 | the empty query matches every post, and the query's letter case does not matter |
| FilterPosts.DescendingIsStable | src/routes/Feed/PostList/filterPosts.tsx:55-59 | posts with the same date keep their input order in the `desc` result |
| Posts.SortNewestFirst | src/apis/notion-client/getPosts.ts:75-79 | the result is a permutation of the input ordered newest first |
| Posts.SortOldestFirst | src/routes/Feed/PostList/filterPosts.tsx:55-59 | the result is a permutation of the input ordered oldest first |
| Posts.NewestFirstIsStable | src/apis/notion-client/getPosts.ts:75-79 | posts with equal dates keep their relative order |
| Sorting.SortByRank | src/routes/Feed/PostList/filterPosts.tsx:55-59 | the sort returns a permutation of its input, ascending by rank |
| Sorting.SortIsStable | src/routes/Feed/PostList/filterPosts.tsx:55-59 | for every rank, the elements of that rank appear in the output in input order |
| Sorting.SortSorted | src/routes/Feed/PostList/filterPosts.tsx:55-59 | an already sorted sequence is returned unchanged |
| Sorting.InsertSorted | src/routes/Feed/PostList/filterPosts.tsx:55-59 | inserting into a sorted sequence keeps it sorted |
| Sorting.TiesOfInsert | src/routes/Feed/PostList/filterPosts.tsx:55-59 | an inserted element goes in front of the elements of equal rank |
| HomePage.ServerSideProps | src/pages/index.tsx:40-87 | the page count is the ceiling of listed posts over posts per page; the page holds the first `min(n, postsPerPage)` listed posts; `allTags` is the first occurrences of all posts' tags |
| HomePage.CeilDiv | src/pages/index.tsx:74-75 | the count is 0 exactly for no posts, and otherwise the least page count that holds them all |
| HomePage.ListingSatisfiesFilters | src/pages/index.tsx:49-68 | every listed post is an input post, is public, carries the tag when one is given, and has the category unless it is the default |
| HomePage.ListedIsFiltered | src/pages/index.tsx:70-72 | reversing for a non-`desc` order adds and drops no post |
| HomePage.FilteredSatisfies | src/pages/index.tsx:49-68 | every post surviving the filter chain is public, tagged and categorised as the query asks |
| HomePage.FilteredIsSubsequence | src/pages/index.tsx:47-68 | before reversal the filtered list is an order-preserving subsequence of the posts |
| HomePage.NonDescIsReverse | src/pages/index.tsx:45-72 | any order other than `desc` lists exactly the reverse of the `desc` listing, without re-sorting |
| HomePage.SearchIgnoresCaseAndWhitespace | src/pages/index.tsx:55-64 | two queries equal after lower-casing and removing whitespace list the same posts |
| HomePage.SearchStepNormalized | src/pages/index.tsx:55-63 | the search step depends only on the normalised query |
| HomePage.SearchExamples | src/pages/index.tsx:56-61 | inserting whitespace or lower-casing leaves the normalised text unchanged |
| HomePage.AllTagsProperties | src/pages/index.tsx:78 | `allTags` has no duplicates and holds exactly the tags of all posts, public or not |
| Seqs.FirstOccurrencesProperties | src/pages/index.tsx:78 | first occurrences have no duplicates, the same members as the input, and input order |
| Seqs.Distinct | src/pages/index.tsx:78 | the loop computes the first occurrences of its input |
| Seqs.ReverseInvolution | src/pages/index.tsx:71 | reversing twice gives back the sequence |
| SiteConfig.RevalidateSeconds | src/pages/index.tsx:34 | `swr` is at least 60, and is either 60 or the configured time |
| SiteConfig.StaleWhileRevalidate | src/pages/index.tsx:37 | the stale time is `max(60, floor(swr / 2))`: 60 for `swr` below 122, and otherwise half of `swr` rounded down |
| SiteConfig.CdnCacheControl | src/pages/sitemap.xml.tsx:17-68 | both header values are at least 60 and the stale time never exceeds `s-maxage` |
| Pagination.WindowPages | src/components/Pagination.tsx:25-48 | for at least one page the window is a run of consecutive pages of length `max(1, min(5, totalPages))`, all within `[1, totalPages]`; it holds the current page when that is in range, is centred on it away from the edges, and is empty for no pages |
| Pagination.WindowBounds | src/components/Pagination.tsx:30-44 | the shifted bounds stay within `[1, totalPages]` and span the window's count |
| Pagination.Range | src/components/Pagination.tsx:46-47 | the loop visits exactly the integers from `start` to `end`, each once and in increasing order, and none when `end < start` |
| Pagination.PageLink | src/components/Pagination.tsx:13-22 | page 1 links to `/` and any other page to `/page/…`; `page` leaves the query and every other key keeps its value |
| Pagination.PageLinkRoundTrip | src/components/Pagination.tsx:18-21 | the link of any page from 1 on routes back to that page |
| Pagination.NavBar | src/components/Pagination.tsx:53-108 | first and previous are disabled exactly on page 1, next and last exactly on the last page; the buttons are the window's pages with the current one marked |
| Feed.HandleSearch | src/routes/Feed/index.tsx:31-48 | a non-empty `q` is written and an empty one removed; `page` is always dropped and every other key kept; the category wins over the tag, and `/` is used without either |
| Feed.SearchIsIdempotent | src/routes/Feed/index.tsx:31-48 | submitting the same search again from the page it led to changes nothing |
| Feed.SearchRoundTrip | src/routes/Feed/index.tsx:29-39 | the page a search leads to reads back exactly the submitted text |
| Feed.CategoryWinsOverTag | src/routes/Feed/index.tsx:43-45 | with a category in the query the pathname is the category's, whatever the tag |
| Feed.SearchText | src/routes/Feed/index.tsx:29 | the search text is read back exactly when `q` is one non-empty string |
| Feed.DisplayedPosts | src/routes/Feed/index.tsx:54-59 | every shown post is an input post matching the search; with no string `order`, or with `desc`, the feed is newest first, and with any other string it is oldest first |
| Feed.FeedDefaults | src/routes/Feed/index.tsx:55-58 | with no tag, category or order the feed is every post matching the search, newest first |
| Feed.RepeatedTagIgnored | src/routes/Feed/index.tsx:55 | a repeated `tag` key filters nothing |
| Feed.RepeatedCategoryIgnored | src/routes/Feed/index.tsx:56 | a repeated `category` key shows the same feed as no category and as the default category |
| PostCache.KvGet | src/libs/cache/kv.ts:43-51 | a value is returned exactly when a client exists, the call succeeds and an unexpired entry holds the key |
| PostCache.KvSet | src/libs/cache/kv.ts:53-66 | the write succeeds exactly when a client exists and the call does not fail; it stores the value with the TTL, and a failed write changes nothing |
| PostCache.TtlSeconds | src/apis/notion-client/getPosts.ts:19-20 | the TTL is at least 60 seconds |
| PostCache.PostOfPage | src/apis/notion-client/getPosts.ts:62-71 | a page with properties gives a post whose id, slug, title, summary, tags, category, status and start date are those properties unchanged, with the block's creation time, and full width only when the format says so |
| PostCache.NormalizePages | src/apis/notion-client/getPosts.ts:59-72 | the walk succeeds exactly when every page has properties, giving one post per page in order |
| PostCache.GetPosts | src/apis/notion-client/getPosts.ts:18-87 | a failure leaves the state unchanged; whatever is served is what the mirror then holds; fetched posts are newest first and stamped `now` |
| PostCache.KvHitWins | src/apis/notion-client/getPosts.ts:24-30 | a list in the shared store is returned unchanged and overwrites the mirror at `now`, even a fresh mirror |
| PostCache.FreshMirrorServed | src/apis/notion-client/getPosts.ts:26-35 | on a miss or a non-list value, a mirror younger than the TTL is served with no fetch |
| PostCache.StaleMirrorNeverServed | src/apis/notion-client/getPosts.ts:33 | a mirror as old as the TTL or older is never served |
| PostCache.NonCollectionCachesEmpty | src/apis/notion-client/getPosts.ts:49-56 | a root that is not a collection gives `[]`, stored in the mirror and, when the write succeeds, in the shared store |
| PostCache.FetchWritesThrough | src/apis/notion-client/getPosts.ts:74-85 | fetched posts are a newest-first permutation of the pages' posts, and are written to the mirror at `now` and to the shared store with the TTL |
| PostCache.RemoteFailurePropagates | src/apis/notion-client/getPosts.ts:40-65 | a failing fetch, a missing root block or a page without properties fails the call and leaves both tiers as they were |
| PostCache.RepeatWithinTtl | src/apis/notion-client/getPosts.ts:28-82 | a second call within the TTL of a served one returns the same posts, whatever the remote says |
| Likes.NormalizeSlugs | src/pages/api/likes.ts:73-79 | no slug is empty or untrimmed, and a falsy input gives none |
| Likes.NormalizeSlugsIsSplitTrimFilter | src/pages/api/likes.ts:75-78 | a string is split on `,` and a list taken as is, then trimmed with empty parts dropped |
| Likes.TrimmedPartsClean | src/pages/api/likes.ts:75-77 | trimming and dropping empty parts leaves only non-empty trimmed slugs |
| Likes.KeysInjective | src/pages/api/likes.ts:153-154 | different slugs never share a counter key or a member set |
| Likes.HandleGet | src/pages/api/likes.ts:84-139 | a GET fails exactly when no slug remains after normalising, and then with 400 |
| Likes.Answer | src/pages/api/likes.ts:94-138 | one slug gets its count and, unless lite, whether this visitor is a member; several get a count map keyed by every requested slug but `__proto__`; a failing store answers 0 and not liked |
| Likes.Handle | src/pages/api/likes.ts:81-227 | other methods get 405; GET never changes the store; every error status is one of 400, 405, 500, 503 and leaves the store unchanged |
| Likes.Max0 | src/pages/api/likes.ts:198-207 | the clamp is non-negative and is either 0 or its argument |
| Likes.LiteGetIgnoresMembership | src/pages/api/likes.ts:88-108 | a lite single-slug GET answers `liked = false` with the stored count, or 0 when the store fails |
| Likes.FullGetAnswersMembership | src/pages/api/likes.ts:94-122 | a non-lite single-slug GET answers the stored count, and `liked` exactly when the store works and the visitor is a member |
| Likes.MultiGetCountsEverySlug | src/pages/api/likes.ts:127-138 | a multi-slug GET answers a count for every requested slug except `__proto__`, which the plain object drops; 0 when missing or on failure |
| Likes.AnswerCountsEverySlug | src/pages/api/likes.ts:128-137 | the counts map has the requested slugs other than `__proto__` as keys, each with its stored count or 0 |
| Likes.ProtoSlugDropped | src/pages/api/likes.ts:128-133 | asking for `__proto__` and `a` together answers a count for `a` alone |
| Likes.PostGuards | src/pages/api/likes.ts:142-151 | a POST without a string slug gets 400, and one in production without a store gets 503, neither changing anything |
| Likes.FullToggle | src/pages/api/likes.ts:176-216 | a member is removed with the count decremented and clamped at 0; a non-member is added with the count incremented; the stored count is the answer |
| Likes.LiteToggle | src/pages/api/likes.ts:159-200 | the client's choice moves the count by one, clamped at 0, membership is untouched, and `liked` is the requested value |
| Likes.CountsStayNonNegative | src/pages/api/likes.ts:94-207 | no request makes a stored count negative, nor the count of a single-slug answer, nor any count of a multi-slug answer |
| Likes.PostIsLocal | src/pages/api/likes.ts:153-154 | a POST changes no other slug's count or members |
| Likes.BackendsAgree | src/pages/api/likes.ts:161-218 | the shared store and the in-memory fallback answer a POST alike when they agree on membership |
| LikeButton.QueryResult | src/routes/Detail/PostDetail/LikeButton.tsx:20-27 | the fetched `liked` is the local flag alone |
| LikeButton.QueryEstablishesConsistency | src/routes/Detail/PostDetail/LikeButton.tsx:25-31 | after a fetch the shown state agrees with the local flag |
| LikeButton.ClickRequest | src/routes/Detail/PostDetail/LikeButton.tsx:34-40 | a click posts the slug and `nextLiked` with `clientDecides` set, `nextLiked` being the opposite of the shown state as the button's `onClick` passes it; the handler then echoes that state (`SuccessfulClickIsConsistent`) |
| LikeButton.OnMutate | src/routes/Detail/PostDetail/LikeButton.tsx:44-59 | without a slug nothing happens; otherwise the snapshot and the intended state are returned, the shown state flips, the local flag follows it, and the count moves by one clamped at 0 |
| LikeButton.OnErrorAsWritten | src/routes/Detail/PostDetail/LikeButton.tsx:60-69 | the flag is set to the opposite of the intended state, and the cache is left as is when the snapshot was empty |
| LikeButton.OnError | src/routes/Detail/PostDetail/LikeButton.tsx:60-69 | the corrected rollback: with a slug and a context the cache and the flag go back to the snapshot, so after `OnMutate` it returns any consistent state to what it was before the click (`RollbackRestores`) |
| LikeButton.OnSuccess | src/routes/Detail/PostDetail/LikeButton.tsx:70-72 | with a slug the server's answer replaces the cached entry and the flag is kept, so an accepted click ends consistent (`SuccessfulClickIsConsistent`) |
| LikeButton.RollbackRestores | src/routes/Detail/PostDetail/LikeButton.tsx:44-69 | an optimistic update followed by an error returns the client to its state before the click |
| LikeButton.RollbackAsWrittenWithEntry | src/routes/Detail/PostDetail/LikeButton.tsx:44-69 | as written, the rollback restores the state when the cache had an entry |
| LikeButton.RollbackAsWrittenWithoutEntry | src/routes/Detail/PostDetail/LikeButton.tsx:68 | as written, a failed first click leaves a liked cache beside a cleared flag |
| LikeButton.SuccessfulClickIsConsistent | src/routes/Detail/PostDetail/LikeButton.tsx:34-72 | a click the server accepts leaves the shown state agreeing with the flag and a non-negative count |
| Comments.HandleGet | src/pages/api/comments.ts:52-93 | a GET fails with 400 exactly when the slug is missing, empty or not a string; listings are newest first, and empty when the read fails |
| Comments.ListComments | src/pages/api/comments.ts:79-90 | the listing is a newest-first permutation of the decodable entries |
| Comments.ListingIsStable | src/pages/api/comments.ts:90 | comments with equal dates keep their stored order |
| Comments.GetLists | src/pages/api/comments.ts:64-92 | a GET for a slug lists the entries stored under `comments:<slug>` |
| Comments.ParsedAppend | src/pages/api/comments.ts:79-89 | parsing works entry by entry: bad entries are dropped without affecting the others |
| Comments.Prefix | src/pages/api/comments.ts:128-129 | `slice(0, n)` is the whole text when it has at most `n` characters, and exactly its first `n` otherwise |
| Comments.NewComment | src/pages/api/comments.ts:125-130 | author and content are whole when within 50 and 1000 characters and cut to exactly their first 50 and 1000 otherwise; a missing or empty author is `Anonymous` |
| Comments.HandlePost | src/pages/api/comments.ts:97-149 | 400 exactly for a missing, empty or non-string slug or a missing or empty content; 429 exactly when the shared store works and the address holds an unexpired flag; 500 exactly for a failed save, with the lists unchanged; a created comment is built from the request |
| Comments.ClientAddress | src/pages/api/comments.ts:107-108 | the rate-limit address is a non-empty forwarded header, else the first value of a repeated one, else the socket's address, else `unknown`; it is empty only for a repeated header whose first value is empty |
| Comments.Handle | src/pages/api/comments.ts:51-151 | only POST changes state, other methods get 405; a POST gets 400 exactly when its slug or content is missing; a failing rate store never gives 429; 500 comes only from a failed save and leaves the lists as they were |
| Comments.PostAppendsOne | src/pages/api/comments.ts:132-147 | a created comment appends exactly its JSON form to the end of `comments:<slug>`, and no other list changes |
| Comments.PostThenGet | src/pages/api/comments.ts:79-147 | after a created comment, the slug's listing gains exactly that comment |
| Comments.ParsedAppendOne | src/pages/api/comments.ts:83-133 | an appended JSON comment parses back to itself |
| Comments.SecondPostWithinMinuteRefused | src/pages/api/comments.ts:106-119 | with a store, a second POST from the same address within 60 seconds gets 429 |
| Comments.RateWindowExpires | src/pages/api/comments.ts:113-116 | after 60 seconds the same address may post again |
| Comments.MemoryNeverLimits | src/pages/api/comments.ts:111 | without a store no POST is rate limited |
| CommentJson.DecodeEncode | src/pages/api/comments.ts:83-133 | parsing the JSON text of a comment gives back the comment |
| CommentJson.EscapeParses | src/pages/api/comments.ts:133 | an escaped string followed by a closing quote parses back to the string and the rest |
| CommentJson.EscapeChar | src/pages/api/comments.ts:133 | a character's JSON form never starts with a quote or a raw control character, and is the character itself exactly when one character long |
| CommentJson.IntParses | src/pages/api/comments.ts:133 | a printed integer followed by a non-digit parses back to the integer and the rest |
| CommentJson.TakeDigits | src/pages/api/comments.ts:83 | the scanned digits are the longest run of digits at the head |
| CommentJson.Expect | src/pages/api/comments.ts:83 | a literal is accepted exactly when it is a prefix, leaving the rest |
| Sitemap.EscapeXml | src/pages/sitemap.xml.tsx:5-12 | the escaped text holds no `<`, `>`, `"` or `'` |
| Sitemap.ChainIsPerCharacter | src/pages/sitemap.xml.tsx:7-11 | the five replacements in order escape each character on its own, with no double escaping |
| Sitemap.UnescapeEscape | src/pages/sitemap.xml.tsx:5-12 | unescaping the escaped text gives back the input |
| Sitemap.EscapePlain | src/pages/sitemap.xml.tsx:5-12 | text without special characters is left unchanged |
| Sitemap.ReplaceAllAppend | src/pages/sitemap.xml.tsx:7-11 | a global replacement acts on each part of a concatenation separately |
| Sitemap.Visible | src/pages/sitemap.xml.tsx:22-24 | exactly the input posts with a slug and a `Public` status |
| Sitemap.Lastmod | src/pages/sitemap.xml.tsx:26 | a post's date is the key the date sorts use, its start date, else its creation time; the clock is never reached for a post |
| Sitemap.Urls | src/pages/sitemap.xml.tsx:26-46 | one entry per visible post plus the root, which comes first with priority `1.0` and the first visible post's date, or the clock's when none is visible; post entries have `0.7` |
| Sitemap.HiddenPostsIgnored | src/pages/sitemap.xml.tsx:22-24 | a post without a slug or not public adds no entry |
| Sitemap.FallbackIsRootOnly | src/pages/sitemap.xml.tsx:71-81 | the fallback body is the entry list of the root alone |
| MetaConfig.EnsureAbsoluteUrl | src/components/MetaConfig/index.tsx:14-20 | no URL for an absent or empty input; an `http(s)://` input in any case is kept; otherwise the link without its trailing slash plus the path with one leading slash |
| MetaConfig.LeadingSlashIrrelevant | src/components/MetaConfig/index.tsx:18 | `a` and `/a` give the same absolute URL |
| MetaConfig.TrailingSlashIrrelevant | src/components/MetaConfig/index.tsx:17 | a site link with or without a trailing slash gives the same URL |
| MetaConfig.StripTrailingSlash | src/components/MetaConfig/index.tsx:17-24 | exactly one trailing slash is removed, if any |
| MetaConfig.WebSiteSchema | src/components/MetaConfig/index.tsx:35-48 | `alternateName` is present exactly when the blog title differs from the profile name, and is then the profile name |
| MetaConfig.BuildJsonLd | src/components/MetaConfig/index.tsx:22-101 | `post` and `paper`, in any case, give WebSite, BlogPosting and BreadcrumbList; `website` gives the WebSite object alone; anything else gives WebSite and WebPage |
| MetaConfig.BreadcrumbTwoLevels | src/components/MetaConfig/index.tsx:68-75 | the breadcrumb has two items: the site root at position 1 and the page at position 2 |
| MetaConfig.DispatchIgnoresCase | src/components/MetaConfig/index.tsx:33 | page types that differ only in case give the same JSON-LD |
| MetaConfig.HeadTagsConditions | src/components/MetaConfig/index.tsx:110-132 | the locale tag is present exactly when a language is set, the image tags exactly when there is an image, and the article tags exactly for the types `Post` and `Paper` |
| MetaConfig.InHeadTags | src/components/MetaConfig/index.tsx:113-132 | each conditional tag comes only from its own group |
| MetaConfig.ArticleTags | src/components/MetaConfig/index.tsx:127-132 | the article tags appear exactly for the case-sensitive types `Post` and `Paper` |
| MetaConfig.LowerCasePostHasNoArticleTags | src/components/MetaConfig/index.tsx:51-127 | a `post` page gets BlogPosting JSON-LD but no article tags |
| NotionRenderer.MapPageUrl | src/routes/Detail/components/NotionRenderer/index.tsx:47-49 | the Notion URL followed by the id with every dash removed |
| NotionRenderer.MapPageUrlUndashed | src/routes/Detail/components/NotionRenderer/index.tsx:48 | an id without dashes is appended unchanged |
| NotionRenderer.AliasTargets | src/routes/Detail/components/NotionRenderer/index.tsx:76-112 | every alias target is a non-empty run of `[a-z0-9]` |
| NotionRenderer.Compact | src/routes/Detail/components/NotionRenderer/index.tsx:119 | the compact form is alphanumeric and no longer than its input |
| NotionRenderer.CompactIsFilter | src/routes/Detail/components/NotionRenderer/index.tsx:119 | the compact form is exactly the `[a-z0-9]` characters of the input, in their order |
| NotionRenderer.Dashed | src/routes/Detail/components/NotionRenderer/index.tsx:122 | the dashed form uses only `[a-z0-9-]`, keeps a leading alphanumeric, and is empty only for empty input |
| NotionRenderer.DashedRun | src/routes/Detail/components/NotionRenderer/index.tsx:122 | an alphanumeric part is kept, a whole run of other characters after it becomes one `-`, and the rest is dashed on its own |
| NotionRenderer.DashedNoDoubleDash | src/routes/Detail/components/NotionRenderer/index.tsx:122 | a whole run becomes one dash, so no two dashes are adjacent |
| NotionRenderer.CompactOfDashed | src/routes/Detail/components/NotionRenderer/index.tsx:119-122 | dropping the dashes of the dashed form gives the compact form |
| NotionRenderer.Canonical | src/routes/Detail/components/NotionRenderer/index.tsx:114-123 | the language id uses only `[a-z0-9-]`, so it is always a valid class name |
| NotionRenderer.ResolveHit | src/routes/Detail/components/NotionRenderer/index.tsx:117 | a sanitized name that is a key gives its alias |
| NotionRenderer.ResolveMiss | src/routes/Detail/components/NotionRenderer/index.tsx:119-122 | a name whose plain and compact forms are unknown gives its dashed form |
| NotionRenderer.CanonicalAliasExamples | src/routes/Detail/components/NotionRenderer/index.tsx:78-117 | `" C# "` is `csharp` and `Shell` is `bash` |
| NotionRenderer.CanonicalCompactExample | src/routes/Detail/components/NotionRenderer/index.tsx:110-120 | `Docker File` is no key, but its compact form `dockerfile` is, so it becomes `docker` |
| NotionRenderer.CanonicalNotIdempotent | src/routes/Detail/components/NotionRenderer/index.tsx:85-123 | `objective c` becomes `objective-c`, which becomes `objectivec` |
| NotionRenderer.CanonicalAsWrittenConstructor | src/routes/Detail/components/NotionRenderer/index.tsx:117-140 | as written, `constructor` yields a class containing a space |
| NotionRenderer.LookupAsWrittenDiffers | src/routes/Detail/components/NotionRenderer/index.tsx:76-117 | the plain-object lookup and the table's own lookup differ exactly on the inherited keys `constructor` and `__proto__` |
| NotionRenderer.FirstLanguageClass | src/routes/Detail/components/NotionRenderer/index.tsx:134-136 | a `language-` class with no `language-` class before it in the list, and none exactly when no class is one |
| NotionRenderer.Target | src/routes/Detail/components/NotionRenderer/index.tsx:130-143 | nothing is done to tokenized code or without a language class; otherwise the target is `language-` plus the canonical form of the first language class's id, and there is none exactly when that class is already the element's only language class |
| NotionRenderer.Retag | src/routes/Detail/components/NotionRenderer/index.tsx:156-163 | afterwards the element has exactly one language class, the normalized one, and all its other classes |
| NotionRenderer.Visit | src/routes/Detail/components/NotionRenderer/index.tsx:126-164 | with a target, the element and its partner end with exactly one language class, `language-` plus the canonical id of the first one; otherwise both only lose `language-none` |
| NotionRenderer.DropNone | src/routes/Detail/components/NotionRenderer/index.tsx:126 | `language-none` is removed and every other class kept |
| NotionRenderer.RetaggedIsStable | src/routes/Detail/components/NotionRenderer/index.tsx:143 | an element already carrying a fixed-point class is skipped on the next pass |
| PostQuery.PathPart | src/hooks/usePostQuery.ts:14 | the path is the text up to, and not including, the first `?` |
| PostQuery.QuerySlug | src/hooks/usePostQuery.ts:12 | the query names a slug exactly when it is a string or a non-empty list, and the slug is then the string or the list's first element |
| PostQuery.Candidate | src/hooks/usePostQuery.ts:15 | the path without its first character exactly when that character is `/`, else the path unchanged |
| PostQuery.DeriveSlug | src/hooks/usePostQuery.ts:12-17 | the query's slug wins; otherwise the candidate of the path before `?`, and none exactly when that candidate is empty |
| PostQuery.PathRoundTrip | src/hooks/usePostQuery.ts:14-16 | the path of a post page, with or without a search string, gives back the slug |
| PostQuery.OneSlashStripped | src/hooks/usePostQuery.ts:15 | only one leading `/` is removed |
| PostQuery.EmptyPathHasNoSlug | src/hooks/usePostQuery.ts:16-19 | an empty candidate leaves the slug undefined and the key `""` |
| PostQuery.KeySlug | src/hooks/usePostQuery.ts:19 | the key's slug is the derived slug, and `""` exactly when none is derived, as for an empty path (`EmptyPathHasNoSlug`) |
| PostQuery.ListSlugWins | src/hooks/usePostQuery.ts:12 | a list slug uses its first element, whatever the path |
| TableOfContents.Toc | src/routes/Detail/components/TableOfContents/index.tsx:15-22 | the table lists the page's headings when the first block is a page, and nothing for an empty map, an empty first key, or a missing or non-page first block (`NonPageShowsNothing`) |
| TableOfContents.HandleScroll | src/routes/Detail/components/TableOfContents/index.tsx:32-45 | the scan's result is the last found heading before the first one below the threshold |
| TableOfContents.Stop | src/routes/Detail/components/TableOfContents/index.tsx:38-41 | the scan stops at the first found heading below `HEADER_HEIGHT + 20` |
| TableOfContents.LastPresent | src/routes/Detail/components/TableOfContents/index.tsx:35-39 | an id is found exactly when some heading has an element |
| TableOfContents.Mount | src/routes/Detail/components/TableOfContents/index.tsx:30-62 | nothing is shown and nothing is installed exactly when the table is empty |
| TableOfContents.NonPageShowsNothing | src/routes/Detail/components/TableOfContents/index.tsx:20-62 | a first block that is not a page shows nothing |
| TableOfContents.ActiveIsReached | src/routes/Detail/components/TableOfContents/index.tsx:33-42 | the active id is `""` or a found heading within the threshold |
| TableOfContents.NoneReached | src/routes/Detail/components/TableOfContents/index.tsx:33-44 | when no found heading is within the threshold, the active id is `""` |
| TableOfContents.AbsentSkipped | src/routes/Detail/components/TableOfContents/index.tsx:35-36 | a heading without an element, anywhere, does not change the active id |
| Strings.JoinSplit | src/routes/Feed/PostList/filterPosts.tsx:24 | joining the parts of a split with the separator gives back the string |
| Strings.TrimIdempotent | src/pages/api/likes.ts:75 | trimming twice is trimming once |
| Strings.TrimIsPadded | src/pages/api/likes.ts:75 | a string is whitespace, then its trim, then whitespace |
| Strings.NatToStringRoundTrip | src/components/Pagination.tsx:21 | reading back a printed number gives the number |

## Left out

- Rendering, styling and framework glue: JSX, CSS, `Head`, React Query and Next.js plumbing. Only
  the values the components compute are modelled.
- Constant head tags (`title`, `robots`, `charset`, `description`, `canonical`) are not
  distinguished from each other; only the conditional tags are stated.
- The Notion client, `getAllPageIds` and `getPageProperties` are not part of this model. The fetch
  is a parameter: a root block and a list of pages with optional properties.
- `idToUuid` and the lookup of the root block by id are folded into the fetched root.
- The key-value client is modelled only by the contract of `src/libs/cache/kv.ts`. In the likes
  handler a failing store is one boolean parameter under which every store call of the request
  fails. A failure of some calls and not others is not modelled, although the GET catches each
  call on its own and would then lose only that slug's count or the membership. The parameter is
  also free for the in-memory fallback, whose `Map` calls cannot throw, so the model admits 500
  answers for that backend which the code never gives.
- Concurrency: requests are atomic transitions, so races between instances are not modelled.
- Time, randomness and formatting: `Date.now`, `Math.random` ids, `new Date(...)`,
  `toISOString`, `encodeURI` and `encodeURIComponent` are parameters.
- Cookies and local storage: `getUid` is a visitor-id parameter and the `liked:<slug>` item is a
  boolean flag.
- JSON values in a comment list other than comment objects and strings of the form
  `JSON.stringify` produces for a comment are treated as unparseable.
- Comments.Parsed: only states that it keeps at most one comment per entry. Which entries survive
  is stated through `ParsedAppend` and `ParsedAppendOne` instead.
- Comments.NewComment: lengths count characters, while `slice(0, 50)` and `slice(0, 1000)` count
  UTF-16 code units, so text outside the Basic Multilingual Plane is cut differently.
- Comments.HandlePost: `author` and `content` are strings or absent. A number or other non-string
  body field is not represented: `.slice` on a number throws, which the framework answers with
  500, and a list would be stored as a JSON list.
- HomePage.ServerSideProps: the four query parameters are single strings. A repeated `tag` or
  `category` lists nothing, because `includes` is then asked for a list; a repeated `order`
  reverses; a repeated `q` throws at `toLowerCase`. None of these is modelled.
- The `Cache-Control` headers of the comments and likes handlers are not modelled.
- `toLowerCase` folds ASCII letters only. The `\s` class and `trim` use the JavaScript whitespace
  set.
- Table of contents: element positions are integer parameters, not floating-point geometry.
  `getPageTableOfContents` is a parameter. `handleClick` scrolling and the scroll listener's
  removal are left out.
- Notion renderer: the MutationObserver, its debounce and Prism highlighting are left out. The
  pre/code pairing is an optional partner element.
- NotionRenderer.Visit: one element and its partner are visited. The `forEach` pass over all `pre`
  and `code` elements in document order is not modelled. Because `canonical` is not idempotent
  (`CanonicalNotIdempotent`), it can rewrite a pair twice in one pass: with `language-objective_c`
  on both, the `pre` visit gives both `language-objective-c`, and the later `code` visit rewrites
  both to `language-objectivec`.
- NotionRenderer.Canonical: states that the class is well formed, not that a second pass leaves it
  unchanged, because `canonical` is not idempotent (`CanonicalNotIdempotent`).
- Feed: `useState`/`useEffect` syncing of `q` with the router is left out. `q` is a parameter.
- Feed.SearchText: a repeated `q` key reads as no search text. The page would put the list
  itself into its state, and the later string calls on it would fail.
- LikeButton: `cancelQueries`, `staleTime` and retries are React Query behaviour and are left out.
  The disabled state is a predicate without its own lemma.
- The RSS build script, `next.config.js`, `_document`, `_app`, the theme, the mermaid effect and
  the comment box are outside the modelled core.
- The `queryKey` helper of `src/constants` is not part of this model. The key is represented by
  its slug component.
- Date sorting compares integer timestamps. An invalid date (`NaN`) is not modelled.
- Posts.SortTime: the creation time is kept to the millisecond, while the code stores it as the text
  of `Date.prototype.toString`, which has whole seconds. Sorts in the code therefore see creation
  times cut to the second; Notion's creation times are whole minutes, so the orders agree there.
- NotionRenderer.Target: a class list may repeat a class, which a browser's class list never does.
  On such a list the model retags an element the code would skip, so `Target`'s `None` condition
  matches the code only for lists without repeats.

## Findings

| source | as written | input that shows it | evidently intended | confidence | as-written member | corrected member |
|---|---|---|---|---|---|---|
| src/routes/Detail/PostDetail/LikeButton.tsx:68 | `onError` restores the cache only when the snapshot `ctx.prev` is not null, but the local flag is always reverted | the first click on a post whose like count was never fetched fails: the cache keeps the optimistic `{likes: 1, liked: true}` while the flag is cleared | the cache returns to its pre-click state, an empty entry included, so the shown state agrees with the flag | not executed | LikeButton.RollbackAsWrittenWithoutEntry | LikeButton.RollbackRestores |
| src/routes/Detail/components/NotionRenderer/index.tsx:117,120 | `ALIASES[s]` is a plain object lookup and also finds inherited properties | a code block tagged `constructor` yields `Object.prototype.constructor`, whose text contains spaces. `classList.add` then throws an `InvalidCharacterError` after the element's `language-*` classes were already removed; the exception leaves the loop, so later blocks are not normalized and `Prism.highlightAllUnder` is skipped for the whole container | only the table's own keys are looked up, so `constructor` falls through to `language-constructor` | not executed | NotionRenderer.CanonicalAsWrittenConstructor | NotionRenderer.Canonical |
