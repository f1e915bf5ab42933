# A verified model of the CMS backend services

This project models, in Dafny, the service layer of a headless content
management system. The backend keeps posts, their revisions, categories,
tags, comments and post views in a relational store, behind a Redis cache
that can be switched off. It publishes scheduled posts from a cron task,
exports and imports backups, and has a few string utilities:
- a table of contents and heading anchors for post HTML;
- a reading-time estimate;
- sanitised upload file names and a MIME allow-list.

The store is the `Store.Database` class. It has one `seq` field per table, in
insertion order, and the services change these fields in place.
- A post's `createdAt` order is its position in the table, so "newest first"
  is the table reversed. This holds for rows the services create; imported rows
  are the exception (see "## Left out").
- Ids are natural numbers, and a new row gets an id larger than every id in
  its table.
- `Database.Valid()` says every table has distinct ids, and every mutating
  method keeps it.
- The cache is the `Cache.CacheService` class. Its fields are a key-to-value
  map, an `enabled` flag and a `reachable` flag. When the backend does not
  answer, its failures are swallowed: reads miss and writes do nothing.
- The scheduler is the `Scheduler.SchedulerService` class, whose field is its
  task registry.

Library code the services call is not part of this model. This covers slug
generation and uniquifying, HTML and plain-text sanitising, the reading-time
library and ISO date formatting. These are uninterpreted function fields of
`Common.Helpers`, passed to the operations that use them. The current
instant is a parameter (`now`, in milliseconds).

The ranked full-text search is an oracle parameter, `Option<RankedHits>`:
- `None` means the raw query failed and the service falls back to substring
  search;
- `Some(hits)` is the page of ranked ids plus the total count.

Page and limit inputs are natural numbers, where `0` stands for "not given",
as `options.page || 1` reads it.

Two behaviours of the code are worth knowing before reading the model:
- The related-posts recency bonus is computed from the subject post's
  `publishedAt`, not the candidate's (relatedPosts.service.ts:64-68).
- `getAllPosts` in the enhanced service consults the cache under a key that
  carries only page and limit, so filtered listings do not bypass the cache.
  This is recorded as a finding (see "## Findings"), and the model uses the
  corrected behaviour.

## Model

| member | source | states |
|---|---|---|
| Common.NonEmpty | src/services/post.service.enhanced.ts:677-686 | `s \|\| undefined`: the result is present exactly when `s` is present and non-empty, and is then `s` |
| Common.ResolvePage | src/services/post.service.ts:62 | the page is at least 1, and a given (non-zero) page is kept |
| Common.ResolveLimit | src/services/post.service.ts:63 | a given (non-zero) limit is kept; otherwise the positive default is used |
| Common.CeilDivIsLeastCover | src/services/post.service.ts:112 | `Math.ceil(total/limit)` is the least number of pages of that size holding all rows, and is 0 exactly for 0 rows |
| Common.MakePagination | src/services/post.service.ts:106-114 | `page`, `limit` and `total` pass through unchanged; `totalPages` pages of `limit` rows cover `total`, and one page fewer would not (`Math.ceil(total / limit)`) |
| Common.Paginate | src/services/post.service.ts:62-114 | the result is page `page || 1` of the rows at `limit || default` a page (`IsPage`): the resolved page and limit, the total, the least covering page count, exactly as many items as the page holds, item `i` being row `(page - 1) * limit + i` |
| Common.IsPageUnique | src/services/post.service.ts:62-114 | a page is pinned down by its request: any two pages of the same rows, page and limit are equal |
| Common.PageCountIsCeil | src/services/post.service.ts:112 | the page count of a page is `Math.ceil(total / limit)` |
| Common.PageItemsAreRows | src/services/post.service.ts:83-91 | every item of a page is one of the listed rows |
| Common.LeastCoverUnique | src/services/post.service.ts:112 | only one page count is the least cover of a total |
| Common.Window | src/services/post.service.ts:87-88 | `skip`/`take`: empty when `skip` is past the end; otherwise exactly `take` rows, or all the rest when fewer remain, item `i` being the row `skip + i` |
| Common.TrimEmptyIffAllSpace | src/services/post.service.ts:270-274 | `query.trim().length === 0` exactly when every character is JavaScript white space |
| Common.TrimmedHasNoOuterSpace | src/services/post.service.ts:274 | the trimmed query neither starts nor ends with white space |
| Common.NatToStringInjective | src/services/cache.service.ts:82-84 | distinct numbers print differently, so page and limit can be recovered from a key |
| Common.JoinWithAppend | src/services/backup.service.ts:131 | joining two non-empty lists is joining each and putting the separator between them |
| Common.JoinWithAvoids | src/services/backup.service.ts:131 | a character that is in neither the separator nor any part is not in the join |
| Tables.NewestFirst | src/services/post.service.ts:84-91 | `orderBy: { createdAt: 'desc' }` over a `where`: exactly the matching rows, and read backwards they are the matching rows in insertion order |
| Tables.IndexOf | src/services/post.service.ts:163-169 | `findUnique({ where: { id } })`: a position holding that id, or none exactly when no row has it |
| Tables.FindRow | src/services/category.service.ts:55-70 | the row with the id, or the service's not-found error exactly when there is none |
| Tables.FreshKey | src/services/post.service.ts:23 | the id the store hands a new row is larger than every id in the table |
| Tables.Upsert | src/services/backup.service.ts:150-154 | `upsert` by id: the table keeps its length when the id is present, and gains the created row at the end otherwise |
| Tables.UpsertAt | src/services/backup.service.ts:150-154 | one upsert keeps ids distinct, rewrites exactly the row with that id (or appends it), and leaves every other row as it was |
| Tables.UpsertAllInPlace | src/services/backup.service.ts:147-178 | when every imported id is already present, each row becomes the fold of the writes aimed at it |
| Tables.UpsertAllIdempotent | src/services/backup.service.ts:147-178 | for writes that keep the id and absorb earlier writes, running the import loop twice equals running it once |
| Tables.UpsertAllIntoEmpty | src/services/backup.service.ts:147-178 | importing rows with distinct ids into an empty table creates exactly those rows, in order |
| Tables.UpsertAllSelf | src/services/backup.service.ts:147-178 | importing a table into itself, with writes that leave a row unchanged by itself, changes nothing |
| Tables.RemovePrefixKeys | src/services/revision.service.ts:88-95 | deleting the ids of the oldest `m` rows of a table with distinct ids leaves exactly the rest |
| Sorting.SortByPerm | src/services/relatedPosts.service.ts:79-81 | the sort returns a permutation of its input |
| Sorting.SortBySorted | src/services/relatedPosts.service.ts:79-81 | for a total preorder, the sorted output is in order |
| Sorting.SortByStable | src/services/relatedPosts.service.ts:79-81 | the sort is stable: rows that tie keep their input order |
| Sorting.LexLeTotal | src/services/category.service.ts:42-44 | `orderBy: { name: 'asc' }` compares any two names |
| Sorting.LexLeTransitive | src/services/category.service.ts:42-44 | the name order is transitive |
| Sorting.LexLeAntisymmetric | src/services/category.service.ts:42-44 | two names that compare both ways are equal |
| Store.FindBySlug | src/services/post.service.ts:139-159 | `findUnique({ where: { slug } })`: a post with that slug, or none exactly when no post has it |
| Store.FindPost | src/services/post.service.ts:117-137 | `getPostById`: the post with that id, or 'Post not found' exactly when there is none |
| Store.SlugCollisions | src/services/post.service.ts:10-21 | the slugs `makeUniqueSlug` must avoid: exactly those starting with the base, leaving out the excluded row |
| Store.UpdatedSlug | src/services/post.service.ts:176-194 | the slug is kept unless a non-empty title different from the current one is supplied; for such a title it is `makeUniqueSlug` of the title's base slug, avoiding the slugs of the other posts that start with that base |
| Store.OwnSlugNeverCollides | src/services/post.service.enhanced.ts:282-290 | a post's own slug is never counted as taken when its slug is recomputed, because the post's own id is excluded |
| Store.Database.constructor | src/services/post.service.ts:1 | a fresh store has every table empty, and distinct ids |
| Store.Database.ReplacePost | src/services/post.service.ts:205-231 | `post.update` by id replaces exactly that row and keeps ids distinct |
| Cache.KeyNamespaces | src/services/cache.service.ts:77-92 | listing keys start with `posts:`, search keys with `search:`, and `post:`/`category:` keys with neither |
| Cache.PostKeyInjective | src/services/cache.service.ts:78-80 | distinct slugs have distinct `post:` keys |
| Cache.CategoryKeyInjective | src/services/cache.service.ts:86-88 | distinct slugs have distinct `category:` keys |
| Cache.PostsKeyInjective | src/services/cache.service.ts:82-84 | distinct (page, limit) pairs have distinct listing keys |
| Cache.SearchKeyInjective | src/services/cache.service.ts:90-92 | distinct (query, page) pairs have distinct search keys, whatever the query contains |
| Cache.WithoutPrefix | src/services/cache.service.ts:54-65 | `KEYS prefix*` then `DEL`: exactly the keys without the prefix remain, with their values |
| Cache.InvalidatedPost | src/services/cache.service.ts:94-98 | removes `post:<slug>` and every `posts:` and `search:` key; all other entries remain unchanged |
| Cache.InvalidatedPosts | src/services/cache.service.ts:100-103 | removes every `posts:` and `search:` key and nothing else, so `post:<slug>` entries remain |
| Cache.InvalidatedCategory | src/services/cache.service.ts:105-108 | removes `category:<slug>` and every `posts:` key and nothing else, so search pages remain |
| Cache.PostKeys | src/services/post.service.enhanced.ts:661-663 | the `post:` keys of exactly the listed slugs |
| Cache.InvalidatedEachKeys | src/services/post.service.enhanced.ts:661-663 | invalidating a list of posts in turn removes each listed post's entry and both bulk namespaces (when the list is non-empty), and keeps every other entry |
| Cache.InvalidatedEachSnoc | src/services/post.service.enhanced.ts:661-663 | one more loop iteration is one more `invalidatePost` |
| Cache.InvalidatedPostsAfterPost | src/services/post.service.enhanced.ts:393-394 | `invalidatePosts()` right after `invalidatePost(slug)` removes nothing more |
| Cache.InvalidationScope | src/services/cache.service.ts:94-108 | after `invalidatePosts` single posts stay and listings and searches go; `invalidatePost` keeps other posts; `invalidateCategory` keeps searches and drops listings |
| Cache.InvalidationIdempotent | src/services/cache.service.ts:94-108 | each invalidation applied twice equals applying it once |
| Cache.CacheService.constructor | src/services/cache.service.ts:7-20 | enabled exactly when a backend address is configured, with an empty store |
| Cache.CacheService.Get | src/services/cache.service.ts:22-32 | a hit exactly when active and the key is stored, returning the stored value; disabled or failing reads as null |
| Cache.CacheService.Set | src/services/cache.service.ts:34-42 | when active the key is bound to the value; otherwise nothing changes |
| Cache.CacheService.Del | src/services/cache.service.ts:44-52 | when active only that key is removed; otherwise nothing changes |
| Cache.CacheService.DelPattern | src/services/cache.service.ts:54-65 | when active exactly the keys with the prefix are removed; otherwise nothing changes |
| Cache.CacheService.Flush | src/services/cache.service.ts:67-75 | when active the store becomes empty; otherwise nothing changes |
| Cache.CacheService.InvalidatePost | src/services/cache.service.ts:94-98 | the store becomes `InvalidatedPost` of the old store when active |
| Cache.CacheService.InvalidatePosts | src/services/cache.service.ts:100-103 | the store becomes `InvalidatedPosts` of the old store when active |
| Cache.CacheService.InvalidateCategory | src/services/cache.service.ts:105-108 | the store becomes `InvalidatedCategory` of the old store when active |
| Cache.SetThenGet | src/services/cache.service.ts:22-42 | with the cache active, `set(k, v)` then `get(k)` returns `v` |
| Scheduler.Registered | src/services/scheduler.service.ts:26-42 | an already registered name leaves the registry as it was; otherwise exactly that name is added and no other entry changes |
| Scheduler.RegisterTwice | src/services/scheduler.service.ts:26-30 | registering a name twice is registering it once (the first registration wins) |
| Scheduler.InitRegistersBuiltins | src/services/scheduler.service.ts:8-24 | on an empty registry `init` registers exactly 'publish-scheduled-posts' every minute and 'cleanup-old-views' daily at midnight; a second `init` changes nothing |
| Scheduler.SchedulerService.constructor | src/services/scheduler.service.ts:6 | the registry starts empty |
| Scheduler.SchedulerService.Init | src/services/scheduler.service.ts:8-24 | the registry after `init` is `Initialized` of the old one |
| Scheduler.SchedulerService.ScheduleTask | src/services/scheduler.service.ts:26-42 | the registry becomes `Registered(old, name, task)` |
| Scheduler.SchedulerService.StopTask | src/services/scheduler.service.ts:44-51 | only the named task is removed; an unknown name changes nothing |
| Scheduler.SchedulerService.StopAll | src/services/scheduler.service.ts:53-59 | the registry is empty afterwards |
| Scheduler.Promoted | src/services/scheduler.service.ts:80-87 | a promoted post is published, stamped `now` and unscheduled, with every other field kept |
| Scheduler.Sweep | src/services/scheduler.service.ts:61-97 | row by row: a due post whose update succeeds is promoted, and every other row is kept |
| Scheduler.Promotable | src/services/scheduler.service.ts:64-72 | exactly the unpublished posts with a schedule at or before `now` whose update succeeds |
| Scheduler.SweepKeepsExclusive | src/services/scheduler.service.ts:78-97 | a sweep never leaves a post both stamped and scheduled where it was not |
| Scheduler.SweepKeepsKeys | src/services/scheduler.service.ts:78-97 | a sweep keeps post ids distinct |
| Scheduler.SweepLeavesNothingDue | src/services/scheduler.service.ts:61-97 | with no failures no post is left due, and a second sweep at the same instant changes nothing |
| Scheduler.SweepOnlyPromotesDue | src/services/scheduler.service.ts:61-97 | a sweep never touches a published post, and every row it changes was due |
| Scheduler.PromotableIsSweep | src/services/scheduler.service.ts:78-97 | updating the selected posts one by one, by id, yields the sweep |
| Scheduler.PromoteEach | src/services/scheduler.service.ts:78-97 | the loop promotes exactly the selected posts whose update succeeds, and invalidates each one's cache entry in list order; a failure does not stop the loop |
| Scheduler.PublishScheduledPosts | src/services/scheduler.service.ts:61-98 | the post table becomes the sweep at `now`, and the cache loses each promoted post's entry and both bulk namespaces |
| Scheduler.Cutoff | src/services/scheduler.service.ts:102-103 | the cutoff lies before `now` (ninety days earlier) |
| Scheduler.CleanupOldViews | src/services/scheduler.service.ts:100-118 | exactly the views strictly older than the cutoff are deleted, in table order |
| Scheduler.CleanupTwiceIsLatest | src/services/scheduler.service.ts:100-118 | a cleanup at `now` followed by one at `later` leaves what a single cleanup at the later of the two instants leaves; a second cleanup no later than the first deletes nothing more |
| PostQueries.ListPosts | src/services/post.service.ts:55-115 | the result is the requested page of the posts matching the filter, newest first (`IsPage` over the reversed filtered table); the total counts the matches; every listed post matches |
| PostQueries.UnfilteredListsAll | src/services/post.service.ts:66-82 | with no condition every post matches |
| PostQueries.RankedPostsFollowIds | src/services/post.service.ts:376-378 | the ranked posts carry exactly the ranked ids that have a post, in rank order |
| PostQueries.RankedResult | src/services/post.service.ts:339-389 | zero ranked ids give no posts, total 0 and 0 pages; otherwise the posts follow the ranked ids that still have a post, the total is the count query's, and the page count is the least number of pages of `limit` rows covering that total |
| PostQueries.RankedPageCountIsCeil | src/services/post.service.ts:387 | with ranked hits, the page count is `ceil(count / limit)` |
| PostQueries.FallbackResult | src/services/post.service.ts:390-467 | the result is the requested page of the substring matches that pass the filter, newest first; every post returned contains the query in its title, content or excerpt ignoring case |
| PostQueries.Search | src/services/post.service.ts:258-467 | a blank query fails with 'Search query is required'; otherwise the query is trimmed; zero ranked hits give total 0 and 0 pages; ranked posts follow the ids, with the least page count covering the count query's total; without ranked hits the result is the requested page of the filtered substring matches, newest first |
| PostQueries.ZeroHitsReportNothing | src/services/post.service.ts:344-355 | zero ranked hits report no posts, total 0 and 0 pages, whatever the count query said |
| PostService.CreatedPost | src/services/post.service.ts:24-50 | the new row holds the given text; it is published exactly when `published` is true, and then stamped `now`; it has no schedule and no tags |
| PostService.UpdatedPublishedAt | src/services/post.service.ts:196-202 | publishing keeps an existing instant or stamps `now`, unpublishing clears it, and no flag keeps it |
| PostService.UpdatedPost | src/services/post.service.ts:176-231 | every supplied field (title, content, excerpt, image, flag, categories) is written and every absent one kept; the slug is recomputed against the other posts' slugs exactly for a new non-empty title; the schedule, tags, reading time and search-engine fields are never touched |
| PostService.UpdateKeepsStamped | src/services/post.service.ts:196-214 | an update keeps a post's flag and its publication instant in step |
| PostService.RepublishKeepsInstant | src/services/post.service.ts:197-200 | publishing an already published post keeps its original instant |
| PostService.UpdateIgnoresSchedule | src/services/post.service.ts:196-214 | publishing a scheduled draft through this service stamps it and leaves the schedule set |
| PostService.CreatePost | src/services/post.service.ts:6-53 | appends the created row with a fresh id and a slug uniquified against its base |
| PostService.UpdatePost | src/services/post.service.ts:161-234 | a missing post fails with 'Post not found', and a caller neither author nor admin fails with the not-authorized error, both writing nothing; otherwise exactly that row is rewritten |
| PostService.DeletePost | src/services/post.service.ts:236-256 | the same guards, writing nothing on failure; otherwise exactly that post is removed |
| PostService.GetPostBySlug | src/services/post.service.ts:139-159 | a post with that slug, or 'Post not found' when no post has it |
| PostServiceEnhanced.InitialPublishState | src/services/post.service.enhanced.ts:35-49 | a schedule wins: unpublished, no instant, scheduled; otherwise published exactly when asked, and then stamped `now`; never both instants |
| PostServiceEnhanced.UpdatedPublishState | src/services/post.service.enhanced.ts:305-331 | a schedule sets the schedule and clears the instant; publishing an unpublished post stamps it and clears the schedule; unpublishing clears the instant; anything else keeps both |
| PostServiceEnhanced.UpdateKeepsExclusive | src/services/post.service.enhanced.ts:305-319 | no update leaves a post both stamped and scheduled when it was not |
| PostServiceEnhanced.PublishedFlagCoexistsWithSchedule | src/services/post.service.enhanced.ts:305-331 | `published = true` with a schedule stores a post flagged published, with no instant, and scheduled |
| PostServiceEnhanced.SanitizedExcerpt | src/services/post.service.enhanced.ts:29 | an excerpt is written exactly when a non-empty one is given, and it is the plain-text sanitised form of that excerpt |
| PostServiceEnhanced.CreatedPost | src/services/post.service.enhanced.ts:27-82 | the row holds sanitised content and its reading time, the sanitised excerpt, and the initial publish state |
| PostServiceEnhanced.MergeSeo | src/services/post.service.enhanced.ts:334-339 | each search-engine field is overwritten when supplied and kept otherwise |
| PostServiceEnhanced.WrittenContent | src/services/post.service.enhanced.ts:299-326 | content is written exactly when it is given, non-empty, and its sanitised form is non-empty; what is written is that sanitised form |
| PostServiceEnhanced.UpdatedFields | src/services/post.service.enhanced.ts:323-345 | the non-publish fields never change the id, the author or the publish state |
| PostServiceEnhanced.UpdatedFieldsWrites | src/services/post.service.enhanced.ts:298-333 | a non-empty title is written with the new slug; non-empty sanitised content is written with its non-zero reading time; a non-empty excerpt is written sanitised; a supplied image, category list or tag list is written; the search-engine fields are merged; everything else keeps its stored value |
| PostServiceEnhanced.AbsentFieldsKept | src/services/post.service.enhanced.ts:278-345 | every field the update leaves out keeps its stored value, and the slug changes only with the title |
| PostServiceEnhanced.UpdatedPost | src/services/post.service.enhanced.ts:278-345 | the id and author are kept; the publish state follows the update rule; every supplied field is written as `UpdatedFieldsWrites` states; a different non-empty title gives the slug `makeUniqueSlug` of its base, avoiding the other posts' slugs that start with that base |
| PostServiceEnhanced.CreatePost | src/services/post.service.enhanced.ts:10-95 | appends the created row, records its first revision, and drops listing and search pages from an active cache |
| PostServiceEnhanced.ResolvePublishState | src/services/post.service.enhanced.ts:305-319 | the step-by-step assignments compute `UpdatedPublishState` |
| PostServiceEnhanced.UpdatePost | src/services/post.service.enhanced.ts:256-371 | a missing post or a caller neither author nor admin fails, writing nothing; otherwise one revision of the pre-update text is appended, the row is rewritten, and both slugs and both bulk namespaces leave the cache |
| PostServiceEnhanced.UpdateLeavesNoStaleEntry | src/services/post.service.enhanced.ts:366-368 | after an update neither slug's cached copy nor any listing or search page remains |
| PostServiceEnhanced.DeletePost | src/services/post.service.enhanced.ts:373-397 | the same guards; otherwise the post is removed and its entry and both bulk namespaces leave the cache |
| PostServiceEnhanced.AllOwnedBy | src/services/post.service.enhanced.ts:649-650 | true exactly when every found post belongs to the caller |
| PostServiceEnhanced.InvalidateEach | src/services/post.service.enhanced.ts:661-663 | the loop invalidates every listed post in turn |
| PostServiceEnhanced.BulkDelete | src/services/post.service.enhanced.ts:642-667 | a non-admin with any found post by another author fails and nothing changes; otherwise every listed post is deleted, each one's cache entry is dropped, and the message counts the posts found |
| PostServiceEnhanced.DuplicateInput | src/services/post.service.enhanced.ts:669-690 | the copy is titled "Copy of " + the title, has the same content and taxonomy, and is an unscheduled draft |
| PostServiceEnhanced.DuplicateIsDraft | src/services/post.service.enhanced.ts:669-690 | a duplicate is never published, stamped or scheduled, and belongs to the caller |
| PostServiceEnhanced.DuplicatePost | src/services/post.service.enhanced.ts:669-692 | an unknown id fails and writes nothing; otherwise the copy is created as `createPost` would create it: appended to the posts, with one new revision of its title, content and excerpt, and the post listings dropped from the cache |
| PostServiceEnhanced.GetPostById | src/services/post.service.enhanced.ts:180-211 | the post with the id, or 'Post not found' exactly when there is none |
| PostServiceEnhanced.GetPostBySlug | src/services/post.service.enhanced.ts:213-254 | a cached copy is returned as is; a miss reads the store, fails when no post has the slug, and caches the post found |
| PostServiceEnhanced.ListingAsWrittenIgnoresFilter | src/services/post.service.enhanced.ts:97-178 | as written, a request for published posts is answered with a cached draft, and a filtered answer stored under the shared key no longer matches the unfiltered listing |
| PostServiceEnhanced.ListingIsFresh | src/services/post.service.enhanced.ts:97-178 | with a coherent cache, the corrected listing equals the fresh listing and the cache stays coherent |
| PostServiceEnhanced.GetAllPosts | src/services/post.service.enhanced.ts:97-178 | the result and the new cache are those of the corrected listing; with a coherent cache the result is the requested page of the matching posts, newest first |
| PostServiceEnhanced.SingleSearchEntryWellFormed | src/services/post.service.enhanced.ts:418 | one search page stored under its own query and page is a well-formed search cache |
| PostServiceEnhanced.SearchAsWrittenIgnoresLimit | src/services/post.service.enhanced.ts:407-420 | as written, a request for five results per page gets the cached page of ten |
| PostServiceEnhanced.SearchAnswersMatchRequest | src/services/post.service.enhanced.ts:399-640 | corrected: every answer carries the trimmed query and the requested page and page size, and cached entries stay well formed |
| PostServiceEnhanced.SearchPosts | src/services/post.service.enhanced.ts:399-640 | the result and the new cache are those of the corrected search; zero ranked hits are not cached |
| Revisions.NewRevision | src/services/revision.service.ts:9-16 | the given title and content; the excerpt is stored only when non-empty (`excerpt \|\| null`) |
| Revisions.CreateRevision | src/services/revision.service.ts:4-23 | appends exactly that revision, with a fresh id |
| Revisions.PostRevisions | src/services/revision.service.ts:25-35 | exactly that post's revisions, newest first |
| Revisions.FindRevision | src/services/revision.service.ts:37-49 | the revision with that id, or none exactly when there is none |
| Revisions.Restored | src/services/revision.service.ts:70-78 | title, content and excerpt come from the revision; every other field is kept |
| Revisions.RestoreRevision | src/services/revision.service.ts:51-79 | an unknown revision fails with 'Revision not found' and changes nothing; otherwise one snapshot of the current text is appended and the revision's text is written over the post |
| Revisions.RestoreUndone | src/services/revision.service.ts:57-78 | restoring a revision and then the snapshot that restore took gives back the post, except that an empty excerpt becomes null |
| Revisions.PruneKeepsNewest | src/services/revision.service.ts:81-96 | exactly the newest `keep` revisions of the post remain; other posts' revisions are untouched; nothing happens when the post has at most `keep` |
| Revisions.DeleteOldRevisions | src/services/revision.service.ts:81-96 | the table becomes the pruned table, with `keepCount` defaulting to 10 |
| RelatedPosts.Candidates | src/services/relatedPosts.service.ts:13-46 | the newest `2 × limit` candidates, in newest-first order (or all of them when fewer exist), each published, distinct from the subject and sharing a category or tag |
| RelatedPosts.RecencyBonus | src/services/relatedPosts.service.ts:64-68 | 1 exactly when the subject was published less than 30 whole days before `now`, else 0 |
| RelatedPosts.CandidateScoresAtLeastOne | src/services/relatedPosts.service.ts:48-62 | every candidate scores at least 1 |
| RelatedPosts.BonusDependsOnlyOnSubject | src/services/relatedPosts.service.ts:64-68 | equal overlaps give equal scores, and a never-published subject adds no bonus |
| RelatedPosts.Scored | src/services/relatedPosts.service.ts:49-76 | each candidate is paired with its score, in candidate order |
| RelatedPosts.GetRelatedPosts | src/services/relatedPosts.service.ts:4-84 | a missing subject gives an empty list; otherwise exactly `min(limit, candidates)` entries, each a candidate carrying its score; an absent limit is 5 |
| RelatedPosts.RelatedRanked | src/services/relatedPosts.service.ts:78-81 | the output is sorted by score, highest first, and every score is at least 1 |
| RelatedPosts.RelatedTiesNewestFirst | src/services/relatedPosts.service.ts:44-81 | among entries with equal scores, the output is a prefix of the newest-first candidate order |
| Categories.CreateCategory | src/services/category.service.ts:6-38 | appends a category with a fresh id and the slug `makeUniqueSlug(generateSlug(name), slugs starting with that base)` |
| Categories.GetAllCategories | src/services/category.service.ts:40-53 | every category exactly once, ordered by name |
| Categories.GetCategoryById | src/services/category.service.ts:55-70 | the category with the id, or 'Category not found' exactly when there is none |
| Categories.GetCategoryBySlug | src/services/category.service.ts:72-87 | a category with the slug, or 'Category not found' exactly when none has it |
| Categories.GetCategoryWithPosts | src/services/category.service.ts:89-158 | an unknown slug fails before listing; otherwise the requested page of the category's posts (with the optional published filter), newest first, with its total and page count |
| Categories.UpdatedCategory | src/services/category.service.ts:160-206 | supplied fields are written; the slug changes only for a non-empty name different from the current one |
| Categories.RenameKeepsSlugUnlessNameChanges | src/services/category.service.ts:171-188 | the same or an empty name keeps the slug; a new name gets a slug uniquified without its own row |
| Categories.UpdateCategory | src/services/category.service.ts:160-206 | a missing category fails and writes nothing; otherwise exactly that row is rewritten |
| Categories.PostCountPositiveIffReferenced | src/services/category.service.ts:211-223 | `_count.posts` is positive exactly when some post refers to the category |
| Categories.DeleteCategory | src/services/category.service.ts:208-235 | a missing category fails; one that posts refer to stays, and the error gives the count; otherwise it is removed |
| Categories.DeletedCategoryUnreferenced | src/services/category.service.ts:223-231 | after a successful delete no category has the id and no post refers to it |
| Tags.CreateTag | src/services/tag.service.ts:6-37 | appends a tag with a fresh id and the slug `makeUniqueSlug(generateSlug(name), slugs starting with that base)` |
| Tags.GetAllTags | src/services/tag.service.ts:39-52 | every tag exactly once, ordered by name |
| Tags.GetTagById | src/services/tag.service.ts:54-69 | the tag with the id, or 'Tag not found' exactly when there is none |
| Tags.GetTagBySlug | src/services/tag.service.ts:71-86 | a tag with the slug, or 'Tag not found' exactly when none has it |
| Tags.GetTagWithPosts | src/services/tag.service.ts:88-158 | an unknown slug fails before listing; otherwise the requested page of the posts carrying the tag (with the optional published filter), newest first, with its total and page count |
| Tags.UpdatedTag | src/services/tag.service.ts:160-203 | a supplied name is written; the slug changes only for a non-empty name different from the current one |
| Tags.RenameKeepsSlugUnlessNameChanges | src/services/tag.service.ts:170-187 | the same or an empty name keeps the slug; a new name gets a slug uniquified without its own row |
| Tags.UpdateTag | src/services/tag.service.ts:160-203 | a missing tag fails and writes nothing; otherwise exactly that row is rewritten |
| Tags.Detached | src/services/tag.service.ts:218-222 | the implicit post–tag relation loses the tag on every post, and nothing else changes |
| Tags.DetachedKeepsPosts | src/services/tag.service.ts:218-222 | detaching keeps every post and its id, and leaves no post carrying the tag |
| Tags.DeleteTag | src/services/tag.service.ts:205-225 | a missing tag fails; otherwise the tag is removed even while posts carry it, and they no longer carry it |
| Comments.CreationCheck | src/services/comment.service.ts:7-28 | passes exactly when the post exists and a named parent exists on the same post; otherwise one of the three errors |
| Comments.CreateComment | src/services/comment.service.ts:5-58 | a failed check writes nothing; otherwise an unapproved comment by the caller is appended; replies keep pointing at parents on the same post |
| Comments.ThreadedSnoc | src/services/comment.service.ts:15-38 | a comment whose parent is on the same post keeps the table threaded |
| Comments.WithReplies | src/services/comment.service.ts:97-110 | each top-level comment with exactly its replies in writing order |
| Comments.GetCommentsByPost | src/services/comment.service.ts:60-128 | the requested page of the post's top-level comments (with the optional approved filter), newest first, with its total and page count; each comes with its direct replies in writing order |
| Comments.TopLevelPage | src/services/comment.service.ts:68-88 | the requested page of the post's top-level comments, newest first, each on the post and without a parent |
| Comments.ThreadPage | src/services/comment.service.ts:97-110 | each comment of the page keeps its place and pagination and is joined with its direct replies in writing order |
| Comments.RepliesOldestFirst | src/services/comment.service.ts:105-110 | of two replies, the earlier one is listed first |
| Comments.GetCommentById | src/services/comment.service.ts:130-170 | the comment with its replies, or 'Comment not found' exactly when there is none |
| Comments.UpdateCheck | src/services/comment.service.ts:176-189 | passes exactly for the author or an admin, with `approved` supplied only by an admin, and gives the source's error otherwise |
| Comments.Edited | src/services/comment.service.ts:191-196 | only content and approved change, each when supplied |
| Comments.OnlyAdminsChangeApproval | src/services/comment.service.ts:186-189 | a non-admin who passes the guards is the author and leaves approval as it was |
| Comments.UpdateComment | src/services/comment.service.ts:172-216 | a missing comment or a failed guard writes nothing; otherwise exactly that comment is edited |
| Comments.EditKeepsThreaded | src/services/comment.service.ts:191-196 | an edit keeps the table threaded |
| Comments.DeleteComment | src/services/comment.service.ts:218-237 | a missing comment or a caller neither author nor admin writes nothing; otherwise exactly that comment is removed |
| Comments.GetAllComments | src/services/comment.service.ts:239-305 | the requested page of the matching comments, replies included, newest first, with its total and page count |
| Comments.UnfilteredCountsAll | src/services/comment.service.ts:249-256 | with no filter every comment is counted |
| Toc.NextGt | src/utils/toc.ts:12 | `[^>]*>`: the first `>` at or after the position |
| Toc.LazyCloseIsFirst | src/utils/toc.ts:12 | the lazy `(.*?)` stops at the first closing tag of the same level |
| Toc.MatchAt | src/utils/toc.ts:12 | a match is an opening `<h2`/`<h3` (any case), its attributes, a one-line inner part and `</h` of the same level |
| Toc.NextMatch | src/utils/toc.ts:16 | `exec` from `lastIndex`: a match at or after the position |
| Toc.NextMatchIsLeftmost | src/utils/toc.ts:16 | no match starts before the one `exec` finds |
| Toc.ScanOrdered | src/utils/toc.ts:16-27 | the matches come in document order without overlapping |
| Toc.StrippedHasNoTags | src/utils/toc.ts:18 | `replace(/<[^>]*>/g, '')` leaves no tag |
| Toc.StripTagsIdempotent | src/utils/toc.ts:18 | stripping text without tags changes nothing |
| Toc.KeepIdCharsKeeps | src/utils/toc.ts:21 | only word characters, white space and dashes survive |
| Toc.CollapsedHasNoDoubleDash | src/utils/toc.ts:23 | collapsing dash runs leaves no two dashes side by side |
| Toc.HeadingIdShape | src/utils/toc.ts:19-24 | an id is lower case, made of `[a-z0-9_-]`, with no two dashes in a row |
| Toc.TrimLeavesIdUnchanged | src/utils/toc.ts:24 | the final `trim()` removes nothing |
| Toc.HeadingIdKeepsOuterDashes | src/utils/toc.ts:19-24 | a heading " Go " gets the id "-go-": outer white space becomes outer dashes |
| Toc.GenerateToc | src/utils/toc.ts:11-30 | the loop pushes one item per match, in document order |
| Toc.TocItemsWellFormed | src/utils/toc.ts:11-30 | every item has level 2 or 3, text with no tag and no line break, and the id computed from that text |
| Toc.TextOutsideHeadingsKept | src/utils/toc.ts:36-39 | HTML without headings is unchanged, and the text before the first heading is kept |
| Toc.RewrittenCarriesAnchor | src/utils/toc.ts:45-53 | a heading without `id=` is rewritten with ` id="<id>"` |
| Toc.RewrittenAppears | src/utils/toc.ts:37-55 | every match's replacement appears in one piece in the output |
| Toc.TocAnchorsExist | src/utils/toc.ts:11-55 | for every TOC item, the rewritten HTML has ` id="<id>"` with its id, or keeps the heading whole when it already had `id=` |
| Toc.WordCount | src/utils/toc.ts:64 | zero words exactly when the text is all white space, and never more words than characters |
| Toc.ReadingMinutes | src/utils/toc.ts:65-66 | `Math.max(1, Math.ceil(words / 200))`: at least 1 minute, covering the words at 200 a minute, and above 1 minute one minute fewer would not cover them |
| Toc.ReadingMinutesMonotone | src/utils/toc.ts:65-66 | more words never take less time |
| Toc.CalculateReadingTime | src/utils/toc.ts:62-67 | at least 1 minute, covering the tag-stripped words at 200 a minute, and above 1 minute one minute fewer would not cover them |
| Upload.DropTrailingSlashes | src/middleware/upload.ts:19-20 | removes exactly the trailing slashes |
| Upload.ExtName | src/middleware/upload.ts:19 | `path.extname`: empty or a dot with no further dot, a proper suffix of the last segment |
| Upload.StemAndExtension | src/middleware/upload.ts:19-20 | stem followed by extension is the whole last segment |
| Upload.ExtensionKeptVerbatim | src/middleware/upload.ts:19-22 | "A b.PNG" splits into "A b" and ".PNG", and the extension keeps its case |
| Upload.ReplaceDisallowed | src/middleware/upload.ts:21 | each character outside `[a-zA-Z0-9-_]` becomes exactly one `-`, and the others are kept |
| Upload.SanitizedShape | src/middleware/upload.ts:21 | the sanitised stem has the original length and only `[a-z0-9_-]` |
| Upload.SanitizeKeepsSanitized | src/middleware/upload.ts:21 | an already-sanitised stem maps to itself |
| Upload.SanitizeIdempotent | src/middleware/upload.ts:21 | sanitising twice is sanitising once |
| Upload.StoredFilename | src/middleware/upload.ts:16-22 | the stored name is as long as suffix, dash and original last segment together |
| Upload.StoredFilenameParts | src/middleware/upload.ts:16-22 | the stored name splits back into the suffix and `-`, the sanitised stem, and the original extension verbatim |
| Upload.FileFilter | src/middleware/upload.ts:27-47 | accepts exactly the listed MIME types and rejects every other type with the listing error |
| Upload.TenTypesAllowed | src/middleware/upload.ts:29-40 | exactly ten distinct types are listed |
| Upload.FilterIsExact | src/middleware/upload.ts:42-46 | matching is exact: `image/bmp` and upper-case `IMAGE/PNG` are refused, `image/svg+xml` is accepted |
| Backup.FileTimestamp | src/services/backup.service.ts:15 | the same length, with every `:` and `.` replaced by `-` and every other character kept |
| Backup.GetBackupFiles | src/services/backup.service.ts:183-188 | exactly the entries ending in `.json` or `.csv` |
| Backup.WrittenFilesAreListed | src/services/backup.service.ts:183-188 | the names the exports write are listed as backups, and their only dot is the extension's |
| Backup.Include | src/services/backup.service.ts:34-78 | a table is in the dump exactly when its name is selected, and then holds every row |
| Backup.ExportToJson | src/services/backup.service.ts:12-86 | with no model list all nine are exported, otherwise exactly the requested ones; plus `exportedAt` and version "1.0.0" |
| Backup.ImportedPost | src/services/backup.service.ts:171-177 | the imported post's own fields are written; its category and tag links are kept on update and empty on create |
| Backup.ImportWritesAbsorb | src/services/backup.service.ts:147-178 | every import write keeps the id, and a later write of a row leaves nothing of an earlier one |
| Backup.ImportCategories | src/services/backup.service.ts:147-156 | the loop upserts the rows in order |
| Backup.ImportTags | src/services/backup.service.ts:158-167 | the loop upserts the rows in order |
| Backup.ImportPosts | src/services/backup.service.ts:169-178 | the loop upserts the rows in order |
| Backup.ImportFromJson | src/services/backup.service.ts:138-181 | categories, then tags, then posts are upserted when present; users and every other table are not written |
| Backup.ImportTwiceIsImportOnce | src/services/backup.service.ts:138-181 | importing the same dump twice leaves the three tables as one import does |
| Backup.ReimportChangesNothing | src/services/backup.service.ts:138-181 | importing a dump of the current tables changes none of them |
| Backup.RestoreIntoEmpty | src/services/backup.service.ts:138-181 | into an empty store, categories and tags come back exactly, and posts come back without their links |
| Backup.Cells | src/services/backup.service.ts:118-129 | one encoded cell per field |
| Backup.Values | src/services/backup.service.ts:118-129 | a row stands for ten values, one per header |
| Backup.RowAsWritten | src/services/backup.service.ts:118-129 | the row as written stands for the ten values; only title and excerpt are quoted |
| Backup.CsvLinesAsWritten | src/services/backup.service.ts:131 | the lines the service writes: the header line, then one row as written per post |
| Backup.RowAsWrittenReadsBack | src/services/backup.service.ts:118-129 | a row as written reads back as its ten values when the author's name holds no comma or quote |
| Backup.CsvAsWrittenReadsBack | src/services/backup.service.ts:88-136 | the file the service writes splits into the header plus one line per post, each reading back as its values, provided no author's name holds a comma or a quote |
| Backup.Row | src/services/backup.service.ts:118-129 | the corrected row (not the one the service writes): the same ten values, with the author name quoted too |
| Backup.CsvLines | src/services/backup.service.ts:131 | the corrected export's lines: the header line, then one corrected row per post |
| Backup.ParseQuotedText | src/services/backup.service.ts:120 | by rule 7 of section 2 of RFC 4180, a doubled-quote text reads back as the original |
| Backup.FieldReadsBack | src/services/backup.service.ts:120-122 | a quoted cell, or a bare one without commas or quotes, reads back as its text, alone or before more cells |
| Backup.ExcerptCellReadsBack | src/services/backup.service.ts:122 | the excerpt cell is empty exactly for a missing or empty excerpt, and otherwise reads back as the excerpt |
| Backup.LineReadsBack | src/services/backup.service.ts:131 | a line whose cells all read back parses into exactly their values |
| Backup.HeaderReadsBack | src/services/backup.service.ts:103-131 | the header line reads back as the ten column names, and holds no line break |
| Backup.RowReadsBack | src/services/backup.service.ts:118-131 | the corrected row of a post reads back as exactly its ten values |
| Backup.AuthorNameWithCommaSplits | src/services/backup.service.ts:125 | as written, an author name "a,b" reads back as eleven values, not the post's ten |
| Backup.SplitOnJoin | src/services/backup.service.ts:131 | splitting at a character undoes joining parts that do not hold it |
| Backup.RowHasNoLineBreak | src/services/backup.service.ts:118-129 | a row of an exportable post holds no line break |
| Backup.CsvReadsBack | src/services/backup.service.ts:88-136 | the corrected file splits into the header plus one line per post; the header reads back as the column names, and line `i + 1` as post `i`'s ten values |

## Left out

- Redis connectivity and time-to-live expiry: the cache is a map, and an entry never expires.
- node-cron timing and the `Promise.all` concurrency: tasks are values in the registry, and cron expressions are stored, not interpreted.
- `Date.now()`, `new Date()` and `Math.random()`: the instant is a parameter, and the upload suffix is a given string.
- Library code:
  - slug generation, `makeUniqueSlug`, `sanitize-html`, the reading-time library and `toISOString` are uninterpreted functions;
  - src/utils/slug is not part of this model.
- The ranked PostgreSQL query (`ts_rank`, `websearch_to_tsquery`, SQL text and parameter numbering): an oracle returning ordered ids and a count.
- Relations the services `include` (author, categories, tags) and `_count` selections: a post carries its category and tag ids, and `viewCount`/`commentCount` are not computed.
- Ordering differences:
  - `orderBy: { name: 'asc' }` is code-point order, not the database collation;
  - `toLowerCase` is modelled for ASCII letters only;
  - strings are sequences of characters, not UTF-16 code units, so the upload length property is stated per character.
- Filesystem I/O in the backup service: `mkdir`, `readFile`, `writeFile`, `readdir`, `unlink`, `ensureBackupDirectory` and JSON (de)serialisation.
  - `getBackupFiles` filters a given directory listing.
  - `deleteBackup` is left out: it only unlinks a joined path.
- Backup contents:
  - the rows of `media` and `socialShares`, and the column projection of the `users` export (it hides passwords), are not modelled; only whether their keys are present;
  - foreign-key and unique-slug failures during import are not modelled.
- The comment delete: any cascade to replies or views depends on a database schema that is not part of this model.
- Categories.UpdatedCategory: optional text fields such as `description` (and the `content` of `Comments.Edited`) are `Option<string>`, so JSON `null` and an absent field are one case, both keeping the stored value. Prisma writes `null` but skips `undefined`; the typed inputs (`description?: string`) exclude `null`.
- HTTP controllers, routes, middleware other than the upload filename and filter, the admin console, and the multer size limits.
- Toc.HeadingId: the final `trim()` is not applied, because `TrimLeavesIdUnchanged` proves it changes nothing.
- PostServiceEnhanced.UpdatedFields: its own contract states only what it keeps (id, author, publish state); what it writes for each supplied field is stated by the lemma `UpdatedFieldsWrites`, and what it keeps for each absent field by `AbsentFieldsKept`.
- Scheduler.Cutoff: the cutoff is exactly 90 × 24 hours of milliseconds before `now`. The source subtracts 90 calendar days in local time, which is an hour more or less when a daylight-saving change falls in between; the model gives the source's value in a zone without daylight saving.
- Backup.ImportedPost: listings order posts by table position, which is `createdAt` order only for rows the services created. An import updates rows in place and appends new rows that carry their exported `createdAt`. So importing post A, created last year, into a store that holds B, created today, lists B, A in the source but A, B in the model.
- Scheduler.PublishScheduledPosts: a failing update is a given set of post ids. Every other failure (and each one's logging) is swallowed without effect.
- Backup.CsvLines: it and `PostsCsv`, `Row` and `CsvReadsBack` describe the corrected export, whose author name is quoted (see Findings); the file the service writes is `CsvLinesAsWritten`/`PostsCsvAsWritten`, which reads back when no author's name holds a comma or a quote (`CsvAsWrittenReadsBack`) and not when a name holds a comma (`AuthorNameWithCommaSplits`).
- Revisions.RestoreRevision: a revision whose post is gone fails with the store's update error after the lookup, without a snapshot, as the code does.

## Findings

| source | as written | input that shows it | evidently intended | confidence | as-written member | corrected member |
|---|---|---|---|---|---|---|
| src/services/post.service.enhanced.ts:104-111 | the listing cache key holds only page and limit, so a filtered request is answered with, and overwrites, the unfiltered page | one draft post cached as page 1 of all posts; then `getAllPosts({ published: true })` | filtered listings bypass the cache, or the key carries the filter | not executed | PostServiceEnhanced.ListingAsWrittenIgnoresFilter | PostServiceEnhanced.ListingIsFresh |
| src/services/post.service.enhanced.ts:407-420 | the search cache key holds only query and page, so a request with another limit or filter gets the cached page | page 1 of "q" cached at 10 per page; then `searchPosts({ query: "q", limit: 5 })` | the key describes the whole request, or only default requests are cached | not executed | PostServiceEnhanced.SearchAsWrittenIgnoresLimit | PostServiceEnhanced.SearchAnswersMatchRequest |
| src/services/backup.service.ts:125 | the author name is written unquoted, so a comma in it adds a column | an author named "Smith, John" | the name is quoted like the title | not executed | Backup.AuthorNameWithCommaSplits | Backup.RowReadsBack |
