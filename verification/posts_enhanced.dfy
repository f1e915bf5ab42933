/**
 * The post service with scheduled publishing, revisions on every update,
 * cache-aside reads with coarse invalidation, bulk delete and duplicate.
 */
module PostServiceEnhanced {
  import opened Common
  import opened Tables
  import opened Store
  import opened PostQueries
  import Revisions
  import Cache

  /** What the service stores in the cache, one shape per key namespace. */
  datatype CachedValue =
    | CachedPost(post: Post)
    | CachedPage(page: Page<Post>)
    | CachedSearch(result: SearchResult)

  /** `CreatePostDto` with the scheduling and search-engine fields. */
  datatype PostInput = PostInput(
    title: string,
    content: string,
    excerpt: Option<string>,
    featuredImage: Option<string>,
    published: Option<bool>,
    scheduledPublishAt: Option<Time>,
    seo: Seo,
    categoryIds: Option<set<Id>>,
    tagIds: Option<set<Id>>)

  /** `UpdatePostDto`: every field optional; `seo` fields are written when present. */
  datatype PostUpdate = PostUpdate(
    title: Option<string>,
    content: Option<string>,
    excerpt: Option<string>,
    featuredImage: Option<string>,
    published: Option<bool>,
    scheduledPublishAt: Option<Time>,
    seo: Seo,
    categoryIds: Option<set<Id>>,
    tagIds: Option<set<Id>>)

  datatype PublishState = PublishState(published: bool, publishedAt: Option<Time>, scheduledPublishAt: Option<Time>)

  predicate Exclusive(s: PublishState) {
    !(s.publishedAt.Some? && s.scheduledPublishAt.Some?)
  }

  function StateOf(p: Post): PublishState {
    PublishState(p.published, p.publishedAt, p.scheduledPublishAt)
  }

  // ---------------------------------------------------------------------------
  // Publish-state rules
  // ---------------------------------------------------------------------------

  /**
   * At creation a schedule wins: the post is stored unpublished with no
   * `publishedAt`. Without one, `published` (default false) decides, and a
   * published post is stamped with the current instant.
   */
  function InitialPublishState(published: Option<bool>, scheduled: Option<Time>, now: Time): (r: PublishState)
    ensures scheduled.Some? ==> r == PublishState(false, None, scheduled)
    ensures scheduled.None? ==> r.scheduledPublishAt.None? && (r.published <==> published == Some(true))
    ensures scheduled.None? ==> r.publishedAt == if published == Some(true) then Some(now) else None
    ensures Exclusive(r)
  {
    var isPublished := published == Some(true);
    var publishedAt := if isPublished && scheduled.None? then Some(now) else None;
    PublishState(if scheduled.Some? then false else isPublished, publishedAt, scheduled)
  }

  /**
   * On update a supplied schedule sets the schedule and clears `publishedAt`;
   * otherwise publishing an unpublished post stamps it and clears the
   * schedule, unpublishing clears `publishedAt`, and anything else keeps both.
   * The `published` flag itself is written whenever it is supplied.
   */
  function UpdatedPublishState(existing: Post, published: Option<bool>, scheduled: Option<Time>, now: Time)
    : (r: PublishState)
    ensures r.published == if published.Some? then published.value else existing.published
    ensures scheduled.Some? ==> r.publishedAt.None? && r.scheduledPublishAt == scheduled
    ensures scheduled.None? && published == Some(true) && !existing.published ==>
      r.publishedAt == Some(now) && r.scheduledPublishAt.None?
    ensures scheduled.None? && published == Some(false) ==>
      r.publishedAt.None? && r.scheduledPublishAt == existing.scheduledPublishAt
    ensures scheduled.None? && (published.None? || (published == Some(true) && existing.published)) ==>
      r.publishedAt == existing.publishedAt && r.scheduledPublishAt == existing.scheduledPublishAt
  {
    var flag := if published.Some? then published.value else existing.published;
    if scheduled.Some? then PublishState(flag, None, scheduled)
    else if published == Some(true) && !existing.published then PublishState(flag, Some(now), None)
    else if published == Some(false) then PublishState(flag, None, existing.scheduledPublishAt)
    else PublishState(flag, existing.publishedAt, existing.scheduledPublishAt)
  }

  /** No update turns an exclusive post into one that is both stamped and scheduled. */
  lemma UpdateKeepsExclusive(existing: Post, published: Option<bool>, scheduled: Option<Time>, now: Time)
    requires ScheduleExclusive(existing)
    ensures Exclusive(UpdatedPublishState(existing, published, scheduled, now))
  {
  }

  /**
   * Exclusivity is about the two instants only: supplying `published = true`
   * together with a schedule stores a post flagged published, with no
   * `publishedAt`, and scheduled.
   */
  lemma PublishedFlagCoexistsWithSchedule(existing: Post, at: Time, now: Time)
    ensures UpdatedPublishState(existing, Some(true), Some(at), now) == PublishState(true, None, Some(at))
  {
  }

  // ---------------------------------------------------------------------------
  // Rows written by create and update
  // ---------------------------------------------------------------------------

  /** `data.excerpt ? sanitizePlainText(data.excerpt) : undefined`. */
  function SanitizedExcerpt(h: Helpers, excerpt: Option<string>): (r: Option<string>)
    ensures r.Some? <==> excerpt.Some? && excerpt.value != ""
    ensures r.Some? ==> r.value == h.sanitizePlainText(excerpt.value)
  {
    if excerpt.Some? && excerpt.value != "" then Some(h.sanitizePlainText(excerpt.value)) else None
  }

  function IdSet(ids: Option<set<Id>>): set<Id> {
    if ids.Some? then ids.value else {}
  }

  /** The row `createPost` inserts. */
  function CreatedPost(id: Id, input: PostInput, authorId: Id, slug: string, h: Helpers, now: Time): (p: Post)
    ensures p.id == id && p.authorId == authorId && p.title == input.title && p.slug == slug
    ensures p.content == h.sanitizePostContent(input.content) && p.readingTime == Some(h.readingTime(p.content))
    ensures p.excerpt == SanitizedExcerpt(h, input.excerpt)
    ensures StateOf(p) == InitialPublishState(input.published, input.scheduledPublishAt, now)
    ensures ScheduleExclusive(p)
  {
    var content := h.sanitizePostContent(input.content);
    var st := InitialPublishState(input.published, input.scheduledPublishAt, now);
    Post(id, input.title, slug, content, SanitizedExcerpt(h, input.excerpt), input.featuredImage,
         st.published, st.publishedAt, st.scheduledPublishAt, Some(h.readingTime(content)), input.seo,
         authorId, IdSet(input.categoryIds), IdSet(input.tagIds))
  }

  /** Each search-engine field is overwritten when supplied. */
  function MergeSeo(cur: Seo, upd: Seo): (r: Seo)
    ensures r.metaTitle == if upd.metaTitle.Some? then upd.metaTitle else cur.metaTitle
    ensures r.metaDescription == if upd.metaDescription.Some? then upd.metaDescription else cur.metaDescription
    ensures r.ogTitle == if upd.ogTitle.Some? then upd.ogTitle else cur.ogTitle
    ensures r.ogDescription == if upd.ogDescription.Some? then upd.ogDescription else cur.ogDescription
    ensures r.ogImage == if upd.ogImage.Some? then upd.ogImage else cur.ogImage
  {
    Seo(
      if upd.metaTitle.Some? then upd.metaTitle else cur.metaTitle,
      if upd.metaDescription.Some? then upd.metaDescription else cur.metaDescription,
      if upd.ogTitle.Some? then upd.ogTitle else cur.ogTitle,
      if upd.ogDescription.Some? then upd.ogDescription else cur.ogDescription,
      if upd.ogImage.Some? then upd.ogImage else cur.ogImage)
  }

  /** `data.content ? sanitizePostContent(data.content) : undefined`, written only when non-empty. */
  function WrittenContent(h: Helpers, content: Option<string>): (r: Option<string>)
    ensures r.Some? ==> content.Some? && r.value != ""
    ensures r.Some? <==> content.Some? && content.value != "" && h.sanitizePostContent(content.value) != ""
    ensures r.Some? ==> r.value == h.sanitizePostContent(content.value)
  {
    if content.Some? && content.value != "" && h.sanitizePostContent(content.value) != "" then
      Some(h.sanitizePostContent(content.value))
    else None
  }

  /**
   * What `updatePost` writes besides the publish state: a non-empty title
   * with `slug`, the sanitized content when that is non-empty together with
   * its reading time when that is non-zero, the sanitized excerpt when one is
   * given, the merged search-engine fields, and the image, categories and
   * tags when supplied; every field not written keeps its stored value.
   */
  ghost predicate FieldsWritten(existing: Post, u: PostUpdate, slug: string, h: Helpers, r: Post) {
    && TitleWritten(existing, u, slug, r)
    && ContentWritten(existing, u, h, r)
    && ExcerptWritten(existing, u, h, r)
    && OthersWritten(existing, u, r)
  }

  ghost predicate TitleWritten(existing: Post, u: PostUpdate, slug: string, r: Post) {
    if u.title.Some? && u.title.value != "" then r.title == u.title.value && r.slug == slug
    else r.title == existing.title && r.slug == existing.slug
  }

  ghost predicate ContentWritten(existing: Post, u: PostUpdate, h: Helpers, r: Post) {
    if u.content.Some? && u.content.value != "" && h.sanitizePostContent(u.content.value) != "" then
      var c := h.sanitizePostContent(u.content.value);
      r.content == c && r.readingTime == (if h.readingTime(c) != 0 then Some(h.readingTime(c)) else existing.readingTime)
    else r.content == existing.content && r.readingTime == existing.readingTime
  }

  ghost predicate ExcerptWritten(existing: Post, u: PostUpdate, h: Helpers, r: Post) {
    r.excerpt == if u.excerpt.Some? && u.excerpt.value != "" then Some(h.sanitizePlainText(u.excerpt.value))
                 else existing.excerpt
  }

  ghost predicate OthersWritten(existing: Post, u: PostUpdate, r: Post) {
    && r.featuredImage == (if u.featuredImage.Some? then u.featuredImage else existing.featuredImage)
    && r.seo == MergeSeo(existing.seo, u.seo)
    && r.categoryIds == (if u.categoryIds.Some? then u.categoryIds.value else existing.categoryIds)
    && r.tagIds == (if u.tagIds.Some? then u.tagIds.value else existing.tagIds)
  }

  /**
   * Every field of `updatePost` except the publish state: title and slug only
   * with a non-empty title, content only when the sanitized content is
   * non-empty, the reading time only when it is non-zero, every other
   * supplied field as given.
   */
  function UpdatedFields(existing: Post, u: PostUpdate, slug: string, h: Helpers): (r: Post)
    ensures r.id == existing.id && r.authorId == existing.authorId && StateOf(r) == StateOf(existing)
  {
    var titled := u.title.Some? && u.title.value != "";
    var content := WrittenContent(h, u.content);
    var minutes := if content.Some? then h.readingTime(content.value) else 0;
    var excerpt := SanitizedExcerpt(h, u.excerpt);
    Post(
      existing.id,
      if titled then u.title.value else existing.title,
      if titled then slug else existing.slug,
      if content.Some? then content.value else existing.content,
      if excerpt.Some? then excerpt else existing.excerpt,
      if u.featuredImage.Some? then u.featuredImage else existing.featuredImage,
      existing.published, existing.publishedAt, existing.scheduledPublishAt,
      if minutes != 0 then Some(minutes) else existing.readingTime,
      MergeSeo(existing.seo, u.seo),
      existing.authorId,
      if u.categoryIds.Some? then u.categoryIds.value else existing.categoryIds,
      if u.tagIds.Some? then u.tagIds.value else existing.tagIds)
  }

  /** Each field `updatePost` writes gets the value the request supplies, sanitized where the service sanitizes. */
  lemma UpdatedFieldsWrites(existing: Post, u: PostUpdate, slug: string, h: Helpers)
    ensures FieldsWritten(existing, u, slug, h, UpdatedFields(existing, u, slug, h))
  {
  }

  /** Fields the update leaves out keep their stored values. */
  lemma AbsentFieldsKept(posts: seq<Post>, existing: Post, u: PostUpdate, h: Helpers, now: Time)
    ensures var r := UpdatedPost(posts, existing, u, h, now);
      && (u.title.None? ==> r.title == existing.title && r.slug == existing.slug)
      && (u.content.None? ==> r.content == existing.content && r.readingTime == existing.readingTime)
      && (u.excerpt.None? ==> r.excerpt == existing.excerpt)
      && (u.featuredImage.None? ==> r.featuredImage == existing.featuredImage)
      && (u.categoryIds.None? ==> r.categoryIds == existing.categoryIds)
      && (u.tagIds.None? ==> r.tagIds == existing.tagIds)
      && (u.seo == Seo(None, None, None, None, None) ==> r.seo == existing.seo)
      && (u.published.None? && u.scheduledPublishAt.None? ==> StateOf(r) == StateOf(existing))
  {
  }

  function WithPublishState(p: Post, st: PublishState): Post {
    p.(published := st.published, publishedAt := st.publishedAt, scheduledPublishAt := st.scheduledPublishAt)
  }

  /** The row after `updatePost`. */
  function UpdatedPost(posts: seq<Post>, existing: Post, u: PostUpdate, h: Helpers, now: Time): (r: Post)
    ensures r.id == existing.id && r.authorId == existing.authorId
    ensures StateOf(r) == UpdatedPublishState(existing, u.published, u.scheduledPublishAt, now)
    ensures r.slug == existing.slug || (u.title.Some? && u.title.value != existing.title)
    ensures r.title == existing.title ==> r.slug == existing.slug
    ensures FieldsWritten(existing, u, UpdatedSlug(posts, existing, u.title, h), h, r)
    ensures u.title.Some? && u.title.value != "" && u.title.value != existing.title ==>
      var base := h.generateSlug(u.title.value);
      r.slug == h.makeUniqueSlug(base, SlugCollisions(posts, PostKey, PostSlug, base, Some(existing.id)))
  {
    var fields := UpdatedFields(existing, u, UpdatedSlug(posts, existing, u.title, h), h);
    WithPublishState(fields, UpdatedPublishState(existing, u.published, u.scheduledPublishAt, now))
  }

  // ---------------------------------------------------------------------------
  // Mutations
  // ---------------------------------------------------------------------------

  /**
   * `createPost`: insert the post, record its first revision, drop the
   * listing and search pages from the cache.
   */
  method CreatePost(db: Database, cache: Cache.CacheService<CachedValue>, h: Helpers, input: PostInput, authorId: Id, now: Time)
    returns (post: Post)
    requires db.Valid()
    modifies db`posts, db`revisions, cache`store
    ensures db.Valid()
    ensures post == CreatedPost(FreshKey(old(db.posts), PostKey), input, authorId, CreationSlug(old(db.posts), input.title, h), h, now)
    ensures db.posts == old(db.posts) + [post]
    ensures db.revisions == old(db.revisions) +
      [Revisions.NewRevision(FreshKey(old(db.revisions), RevisionKey), post.id, authorId, post.title, post.content, post.excerpt)]
    ensures cache.store == if cache.Active() then Cache.InvalidatedPosts(old(cache.store)) else old(cache.store)
    ensures AllScheduleExclusive(old(db.posts)) ==> AllScheduleExclusive(db.posts)
  {
    var baseSlug := h.generateSlug(input.title);
    var existingSlugs := SlugCollisions(db.posts, PostKey, PostSlug, baseSlug, None);
    var uniqueSlug := h.makeUniqueSlug(baseSlug, existingSlugs);
    var content := h.sanitizePostContent(input.content);
    var excerpt := SanitizedExcerpt(h, input.excerpt);
    var readingTime := h.readingTime(content);
    var isPublished := input.published == Some(true);
    var scheduledPublishAt := input.scheduledPublishAt;
    var publishedAt := if isPublished && scheduledPublishAt.None? then Some(now) else None;
    post := Post(FreshKey(db.posts, PostKey), input.title, uniqueSlug, content, excerpt, input.featuredImage,
                 if scheduledPublishAt.Some? then false else isPublished, publishedAt, scheduledPublishAt,
                 Some(readingTime), input.seo, authorId, IdSet(input.categoryIds), IdSet(input.tagIds));
    AppendFreshKeepsDistinct(db.posts, PostKey, post);
    db.posts := db.posts + [post];
    var _ := Revisions.CreateRevision(db, post.id, authorId, post.title, post.content, NonEmpty(post.excerpt));
    cache.InvalidatePosts();
  }

  /**
   * The publish-state block of `updatePost`, step by step: start from the
   * stored instants and overwrite them as the request demands.
   */
  method ResolvePublishState(existing: Post, published: Option<bool>, scheduled: Option<Time>, now: Time)
    returns (st: PublishState)
    ensures st == UpdatedPublishState(existing, published, scheduled, now)
    ensures ScheduleExclusive(existing) ==> Exclusive(st)
  {
    var publishedAt := existing.publishedAt;
    var scheduledPublishAt := existing.scheduledPublishAt;
    if scheduled.Some? {
      scheduledPublishAt := scheduled;
      publishedAt := None;
    } else if published.Some? {
      if published.value && !existing.published {
        publishedAt := Some(now);
        scheduledPublishAt := None;
      } else if !published.value {
        publishedAt := None;
      }
    }
    st := PublishState(if published.Some? then published.value else existing.published, publishedAt, scheduledPublishAt);
    if ScheduleExclusive(existing) {
      UpdateKeepsExclusive(existing, published, scheduled, now);
    }
  }

  /**
   * `updatePost`: a missing post or a caller who is neither its author nor an
   * admin fails before anything is written. Otherwise the pre-update text is
   * snapshotted, the row rewritten, and the old slug, the new slug and both
   * bulk namespaces dropped from the cache.
   */
  method UpdatePost(db: Database, cache: Cache.CacheService<CachedValue>, h: Helpers, id: Id, u: PostUpdate,
                    userId: Id, role: string, now: Time)
    returns (r: Result<Post>)
    requires db.Valid()
    modifies db`posts, db`revisions, cache`store
    ensures db.Valid()
    ensures IndexOf(old(db.posts), PostKey, id).None? ==>
      r == Err("Post not found") &&
      db.posts == old(db.posts) && db.revisions == old(db.revisions) && cache.store == old(cache.store)
    ensures IndexOf(old(db.posts), PostKey, id).Some? ==>
      var existing := old(db.posts)[IndexOf(old(db.posts), PostKey, id).value];
      if !MayModify(existing.authorId, userId, role) then
        r == Err("You are not authorized to update this post") &&
        db.posts == old(db.posts) && db.revisions == old(db.revisions) && cache.store == old(cache.store)
      else
        var updated := UpdatedPost(old(db.posts), existing, u, h, now);
        && r == Ok(updated)
        && db.revisions == old(db.revisions) +
             [Revisions.NewRevision(FreshKey(old(db.revisions), RevisionKey), id, userId,
                                    existing.title, existing.content, existing.excerpt)]
        && db.posts == old(db.posts)[IndexOf(old(db.posts), PostKey, id).value := updated]
        && cache.store == if cache.Active() then
             Cache.InvalidatedPosts(Cache.InvalidatedPost(Cache.InvalidatedPost(old(cache.store), existing.slug), updated.slug))
           else old(cache.store)
    ensures AllScheduleExclusive(old(db.posts)) ==> AllScheduleExclusive(db.posts)
  {
    var at := IndexOf(db.posts, PostKey, id);
    if at.None? {
      return Err("Post not found");
    }
    var i := at.value;
    var existing := db.posts[i];
    if existing.authorId != userId && !IsAdmin(role) {
      return Err("You are not authorized to update this post");
    }
    var _ := Revisions.CreateRevision(db, id, userId, existing.title, existing.content, NonEmpty(existing.excerpt));

    var slug := UpdatedSlug(db.posts, existing, u.title, h);

    var state := ResolvePublishState(existing, u.published, u.scheduledPublishAt, now);
    var updated := WithPublishState(UpdatedFields(existing, u, slug, h), state);
    assert updated == UpdatedPost(old(db.posts), existing, u, h, now);
    UpdateKeepsExclusiveRow(db.posts, i, existing, u, h, now);
    db.ReplacePost(i, updated);

    cache.InvalidatePost(existing.slug);
    cache.InvalidatePost(updated.slug);
    cache.InvalidatePosts();
    r := Ok(updated);
  }

  lemma UpdateKeepsExclusiveRow(posts: seq<Post>, i: nat, existing: Post, u: PostUpdate, h: Helpers, now: Time)
    requires i < |posts| && posts[i] == existing
    ensures AllScheduleExclusive(posts) ==> AllScheduleExclusive(posts[i := UpdatedPost(posts, existing, u, h, now)])
  {
    if AllScheduleExclusive(posts) {
      UpdateKeepsExclusive(existing, u.published, u.scheduledPublishAt, now);
    }
  }

  /** After an update, neither slug's cached copy nor any listing or search page survives. */
  lemma UpdateLeavesNoStaleEntry(m: map<string, CachedValue>, oldSlug: string, newSlug: string, page: nat, limit: nat, q: string)
    ensures var after := Cache.InvalidatedPosts(Cache.InvalidatedPost(Cache.InvalidatedPost(m, oldSlug), newSlug));
      && Cache.PostKey(oldSlug) !in after && Cache.PostKey(newSlug) !in after
      && Cache.PostsKey(page, limit) !in after && Cache.SearchKey(q, page) !in after
  {
    Cache.KeyNamespaces(oldSlug, page, limit, q);
  }

  /** `deletePost`: same guards as update; then the row goes and the cache is invalidated. */
  method DeletePost(db: Database, cache: Cache.CacheService<CachedValue>, id: Id, userId: Id, role: string)
    returns (r: Result<string>)
    requires db.Valid()
    modifies db`posts, cache`store
    ensures db.Valid()
    ensures IndexOf(old(db.posts), PostKey, id).None? ==>
      r == Err("Post not found") && db.posts == old(db.posts) && cache.store == old(cache.store)
    ensures IndexOf(old(db.posts), PostKey, id).Some? ==>
      var existing := old(db.posts)[IndexOf(old(db.posts), PostKey, id).value];
      if !MayModify(existing.authorId, userId, role) then
        r == Err("You are not authorized to delete this post") && db.posts == old(db.posts) && cache.store == old(cache.store)
      else
        && r == Ok("Post deleted successfully")
        && db.posts == RemoveKeys(old(db.posts), PostKey, {id})
        && cache.store == if cache.Active() then Cache.InvalidatedPosts(Cache.InvalidatedPost(old(cache.store), existing.slug))
           else old(cache.store)
    ensures AllScheduleExclusive(old(db.posts)) ==> AllScheduleExclusive(db.posts)
  {
    var at := IndexOf(db.posts, PostKey, id);
    if at.None? {
      return Err("Post not found");
    }
    var existing := db.posts[at.value];
    if existing.authorId != userId && !IsAdmin(role) {
      return Err("You are not authorized to delete this post");
    }
    FilterKeepsDistinct(db.posts, PostKey, NotIn(PostKey, {id}));
    db.posts := RemoveKeys(db.posts, PostKey, {id});
    cache.InvalidatePost(existing.slug);
    cache.InvalidatePosts();
    r := Ok("Post deleted successfully");
  }

  function InIds(ids: seq<Id>): Post -> bool {
    (p: Post) => p.id in ids
  }

  /** Whether every post in the list belongs to `userId`. */
  method AllOwnedBy(posts: seq<Post>, userId: Id) returns (b: bool)
    ensures b <==> forall p :: p in posts ==> p.authorId == userId
  {
    var k := 0;
    while k < |posts|
      invariant 0 <= k <= |posts|
      invariant forall j :: 0 <= j < k ==> posts[j].authorId == userId
    {
      if posts[k].authorId != userId {
        return false;
      }
      k := k + 1;
    }
    return true;
  }

  /** `for (const post of posts) await cacheService.invalidatePost(post.slug)`. */
  method InvalidateEach(cache: Cache.CacheService<CachedValue>, posts: seq<Post>)
    modifies cache`store
    ensures cache.store == if cache.Active() then Cache.InvalidatedEach(old(cache.store), Slugs(posts)) else old(cache.store)
  {
    var slugs := Slugs(posts);
    var n := 0;
    while n < |posts|
      invariant 0 <= n <= |posts|
      invariant cache.store == if cache.Active() then Cache.InvalidatedEach(old(cache.store), slugs[..n]) else old(cache.store)
    {
      cache.InvalidatePost(posts[n].slug);
      assert slugs[..n + 1] == slugs[..n] + [posts[n].slug];
      Cache.InvalidatedEachSnoc(old(cache.store), slugs[..n], posts[n].slug);
      n := n + 1;
    }
    assert slugs[..|posts|] == slugs;
  }

  /**
   * `bulkDelete`: a non-admin fails, deleting nothing, when any listed post
   * has another author. Otherwise every listed post is deleted, each deleted
   * post's cache entry dropped in turn, and the message counts the posts found.
   */
  method BulkDelete(db: Database, cache: Cache.CacheService<CachedValue>, postIds: seq<Id>, userId: Id, role: string)
    returns (r: Result<string>)
    requires db.Valid()
    modifies db`posts, cache`store
    ensures db.Valid()
    ensures var found := Filter(old(db.posts), InIds(postIds));
      if !IsAdmin(role) && exists p :: p in found && p.authorId != userId then
        r == Err("You are not authorized to delete some of these posts") &&
        db.posts == old(db.posts) && cache.store == old(cache.store)
      else
        && r == Ok(NatToString(|found|) + " posts deleted successfully")
        && db.posts == RemoveKeys(old(db.posts), PostKey, set id | id in postIds)
        && cache.store == if cache.Active() then Cache.InvalidatedPosts(Cache.InvalidatedEach(old(cache.store), Slugs(found)))
           else old(cache.store)
    ensures r.Ok? ==> forall p :: p in db.posts ==> p in old(db.posts) && p.id !in postIds
  {
    var posts := Filter(db.posts, InIds(postIds));
    if !IsAdmin(role) {
      var owned := AllOwnedBy(posts, userId);
      if !owned {
        return Err("You are not authorized to delete some of these posts");
      }
    }
    var ids := set id | id in postIds;
    FilterKeepsDistinct(db.posts, PostKey, NotIn(PostKey, ids));
    db.posts := RemoveKeys(db.posts, PostKey, ids);
    InvalidateEach(cache, posts);
    cache.InvalidatePosts();
    r := Ok(NatToString(|posts|) + " posts deleted successfully");
  }

  /**
   * `duplicatePost`: the copy is a new draft by the caller, titled
   * "Copy of " + the original title, with the original's text, image,
   * taxonomy and search-engine fields (empty strings dropped).
   */
  function DuplicateInput(original: Post): (r: PostInput)
    ensures r.title == "Copy of " + original.title && r.content == original.content
    ensures r.published == Some(false) && r.scheduledPublishAt.None?
    ensures r.categoryIds == Some(original.categoryIds) && r.tagIds == Some(original.tagIds)
  {
    PostInput(
      "Copy of " + original.title,
      original.content,
      NonEmpty(original.excerpt),
      NonEmpty(original.featuredImage),
      Some(false),
      None,
      Seo(NonEmpty(original.seo.metaTitle), NonEmpty(original.seo.metaDescription), NonEmpty(original.seo.ogTitle),
          NonEmpty(original.seo.ogDescription), NonEmpty(original.seo.ogImage)),
      Some(original.categoryIds),
      Some(original.tagIds))
  }

  /** A duplicate is never published and never scheduled. */
  lemma DuplicateIsDraft(original: Post, id: Id, userId: Id, slug: string, h: Helpers, now: Time)
    ensures var copy := CreatedPost(id, DuplicateInput(original), userId, slug, h, now);
      !copy.published && copy.publishedAt.None? && copy.scheduledPublishAt.None? && copy.authorId == userId
  {
  }

  method DuplicatePost(db: Database, cache: Cache.CacheService<CachedValue>, h: Helpers, id: Id, userId: Id, now: Time)
    returns (r: Result<Post>)
    requires db.Valid()
    modifies db`posts, db`revisions, cache`store
    ensures db.Valid()
    ensures FindPost(old(db.posts), id).Err? ==>
      r == Err("Post not found") && db.posts == old(db.posts) && db.revisions == old(db.revisions) &&
      cache.store == old(cache.store)
    ensures FindPost(old(db.posts), id).Ok? ==>
      var input := DuplicateInput(FindPost(old(db.posts), id).value);
      && r == Ok(CreatedPost(FreshKey(old(db.posts), PostKey), input, userId, CreationSlug(old(db.posts), input.title, h), h, now))
      && db.posts == old(db.posts) + [r.value]
      && db.revisions == old(db.revisions) +
        [Revisions.NewRevision(FreshKey(old(db.revisions), RevisionKey), r.value.id, userId,
                               r.value.title, r.value.content, r.value.excerpt)]
      && cache.store == if cache.Active() then Cache.InvalidatedPosts(old(cache.store)) else old(cache.store)
  {
    var original := FindPost(db.posts, id);
    if original.Err? {
      return Err(original.message);
    }
    var copy := CreatePost(db, cache, h, DuplicateInput(original.value), userId, now);
    r := Ok(copy);
  }

  // ---------------------------------------------------------------------------
  // Reads through the cache
  // ---------------------------------------------------------------------------

  /** `getPostById`: no cache; an unknown id fails. */
  function GetPostById(posts: seq<Post>, id: Id): (r: Result<Post>)
    ensures r.Ok? <==> HasKey(posts, PostKey, id)
    ensures r.Ok? ==> r.value in posts && r.value.id == id
    ensures r.Err? ==> r.message == "Post not found"
  {
    FindPost(posts, id)
  }

  /** `getPostBySlug`: a cached copy is returned as is; a miss reads the store and caches the post found. */
  method GetPostBySlug(db: Database, cache: Cache.CacheService<CachedValue>, slug: string) returns (r: Result<Post>)
    modifies cache`store
    ensures var key := Cache.PostKey(slug);
      if cache.Active() && key in old(cache.store) && old(cache.store)[key].CachedPost? then
        r == Ok(old(cache.store)[key].post) && cache.store == old(cache.store)
      else if FindBySlug(db.posts, slug).None? then
        r == Err("Post not found") && cache.store == old(cache.store)
      else
        && r == Ok(FindBySlug(db.posts, slug).value)
        && cache.store == if cache.Active() then old(cache.store)[key := CachedPost(r.value)] else old(cache.store)
  {
    var key := Cache.PostKey(slug);
    var cached := cache.Get(key);
    if cached.Some? && cached.value.CachedPost? {
      return Ok(cached.value.post);
    }
    var post := FindBySlug(db.posts, slug);
    if post.None? {
      return Err("Post not found");
    }
    cache.Set(key, CachedPost(post.value));
    r := Ok(post.value);
  }

  const NoFilter: PostFilter := PostFilter(None, None, None)

  /**
   * Listing entries agree with the store: every page cached under a listing
   * key is the unfiltered listing of the current posts.
   */
  ghost predicate ListingsCoherent(m: map<string, CachedValue>, posts: seq<Post>) {
    forall p: nat, l: nat :: Cache.PostsKey(p, l) in m ==> m[Cache.PostsKey(p, l)] == CachedPage(ListPosts(posts, NoFilter, p, l))
  }

  function ListingKey(page: nat, limit: nat): string {
    Cache.PostsKey(ResolvePage(page), ResolveLimit(limit, DefaultPostLimit))
  }

  /** `getAllPosts` as written: the cache key carries page and limit only, whatever the filter. */
  function ListingAsWritten(m: map<string, CachedValue>, active: bool, posts: seq<Post>, f: PostFilter, page: nat, limit: nat)
    : Page<Post>
  {
    var key := ListingKey(page, limit);
    if active && key in m && m[key].CachedPage? then m[key].page else ListPosts(posts, f, page, limit)
  }

  function StoreAfterListingAsWritten(m: map<string, CachedValue>, active: bool, posts: seq<Post>, f: PostFilter, page: nat, limit: nat)
    : map<string, CachedValue>
  {
    var key := ListingKey(page, limit);
    if !active || (key in m && m[key].CachedPage?) then m else m[key := CachedPage(ListPosts(posts, f, page, limit))]
  }

  /** A cache holding only the first page of all posts, under its own key, is coherent. */
  lemma FirstPageCoherent(posts: seq<Post>)
    ensures ListingsCoherent(map[ListingKey(1, 10) := CachedPage(ListPosts(posts, NoFilter, 1, 10))], posts)
  {
    var m := map[ListingKey(1, 10) := CachedPage(ListPosts(posts, NoFilter, 1, 10))];
    forall pg: nat, l: nat | Cache.PostsKey(pg, l) in m
      ensures m[Cache.PostsKey(pg, l)] == CachedPage(ListPosts(posts, NoFilter, pg, l))
    {
      Cache.PostsKeyInjective(pg, l, 1, 10);
    }
  }

  /** With one draft in the store, the first page of all posts shows it and the first page of published posts is empty. */
  lemma OneDraftListings(p: Post)
    requires !p.published
    ensures ListPosts([p], NoFilter, 1, 10).items == [p]
    ensures ListPosts([p], PostFilter(Some(true), None, None), 1, 10).items == []
  {
    UnfilteredListsAll([p], NoFilter);
    assert NewestFirst([p], MatchesFilter(NoFilter)) == [p];
    FilterNone([p], MatchesFilter(PostFilter(Some(true), None, None)));
  }

  /**
   * A filtered listing, served from and stored into the unfiltered key: with
   * a coherent cache holding the first page of all posts, a request for
   * published posts gets back a draft, and into an empty cache its own answer
   * is stored where the unfiltered page belongs.
   */
  lemma ListingAsWrittenIgnoresFilter(p: Post)
    requires !p.published
    ensures var posts := [p];
      var m := map[ListingKey(1, 10) := CachedPage(ListPosts(posts, NoFilter, 1, 10))];
      var f := PostFilter(Some(true), None, None);
      && ListingsCoherent(m, posts)
      && p in ListingAsWritten(m, true, posts, f, 1, 10).items
      && !Matches(f, p)
      && !ListingsCoherent(StoreAfterListingAsWritten(map[], true, posts, f, 1, 10), posts)
  {
    FirstPageCoherent([p]);
    OneDraftListings(p);
    var m2 := StoreAfterListingAsWritten(map[], true, [p], PostFilter(Some(true), None, None), 1, 10);
    assert m2[Cache.PostsKey(1, 10)] != CachedPage(ListPosts([p], NoFilter, 1, 10));
  }

  /** `getAllPosts` as corrected: the cache is consulted and filled only for unfiltered requests. */
  function Listing(m: map<string, CachedValue>, active: bool, posts: seq<Post>, f: PostFilter, page: nat, limit: nat)
    : Page<Post>
  {
    if IsUnfiltered(f) then ListingAsWritten(m, active, posts, f, page, limit) else ListPosts(posts, f, page, limit)
  }

  function StoreAfterListing(m: map<string, CachedValue>, active: bool, posts: seq<Post>, f: PostFilter, page: nat, limit: nat)
    : map<string, CachedValue>
  {
    if IsUnfiltered(f) then StoreAfterListingAsWritten(m, active, posts, f, page, limit) else m
  }

  /** With a coherent cache the corrected listing is the fresh one, and the cache stays coherent. */
  lemma ListingIsFresh(m: map<string, CachedValue>, active: bool, posts: seq<Post>, f: PostFilter, page: nat, limit: nat)
    requires ListingsCoherent(m, posts)
    ensures Listing(m, active, posts, f, page, limit) == ListPosts(posts, f, page, limit)
    ensures ListingsCoherent(StoreAfterListing(m, active, posts, f, page, limit), posts)
  {
    if IsUnfiltered(f) {
      assert f == NoFilter;
      var p, l := ResolvePage(page), ResolveLimit(limit, DefaultPostLimit);
      assert ListPosts(posts, f, p, l) == ListPosts(posts, f, page, limit);
      var m2 := StoreAfterListing(m, active, posts, f, page, limit);
      forall pg: nat, lm: nat | Cache.PostsKey(pg, lm) in m2
        ensures m2[Cache.PostsKey(pg, lm)] == CachedPage(ListPosts(posts, NoFilter, pg, lm))
      {
        if Cache.PostsKey(pg, lm) == Cache.PostsKey(p, l) {
          Cache.PostsKeyInjective(pg, lm, p, l);
        }
      }
    }
  }

  /** `getAllPosts` (corrected, see `Listing`). */
  method GetAllPosts(db: Database, cache: Cache.CacheService<CachedValue>, f: PostFilter, page: nat, limit: nat)
    returns (r: Page<Post>)
    modifies cache`store
    ensures r == Listing(old(cache.store), cache.Active(), db.posts, f, page, limit)
    ensures cache.store == StoreAfterListing(old(cache.store), cache.Active(), db.posts, f, page, limit)
    ensures ListingsCoherent(old(cache.store), db.posts) ==>
      IsPage(r, Reverse(Filter(db.posts, MatchesFilter(f))), page, limit, DefaultPostLimit)
  {
    if ListingsCoherent(cache.store, db.posts) {
      ListingIsFresh(cache.store, cache.Active(), db.posts, f, page, limit);
    }
    var key := ListingKey(page, limit);
    if IsUnfiltered(f) {
      var cached := cache.Get(key);
      if cached.Some? && cached.value.CachedPage? {
        return cached.value.page;
      }
    }
    r := ListPosts(db.posts, f, page, limit);
    if IsUnfiltered(f) {
      cache.Set(key, CachedPage(r));
    }
  }

  // ---------------------------------------------------------------------------
  // Search through the cache
  // ---------------------------------------------------------------------------

  /** A search request the key `search:<query>:page:<page>` fully describes. */
  predicate SearchCacheable(f: PostFilter, limit: nat) {
    IsUnfiltered(f) && ResolveLimit(limit, DefaultPostLimit) == DefaultPostLimit
  }

  /** Every cached search page is stored under its own query and page, at the default page size. */
  ghost predicate SearchEntriesWellFormed(m: map<string, CachedValue>) {
    forall q: string, p: nat :: Cache.SearchKey(q, p) in m ==>
      && m[Cache.SearchKey(q, p)].CachedSearch?
      && m[Cache.SearchKey(q, p)].result.query == q
      && m[Cache.SearchKey(q, p)].result.pagination.page == p
      && m[Cache.SearchKey(q, p)].result.pagination.limit == DefaultPostLimit
  }

  /** The cached answer a request would get, if any; `cacheable` says whether the key is consulted at all. */
  function CachedAnswer(m: map<string, CachedValue>, active: bool, cacheable: bool, query: string, page: nat)
    : Option<SearchResult>
  {
    var key := Cache.SearchKey(Trim(query), ResolvePage(page));
    if cacheable && active && key in m && m[key].CachedSearch? then Some(m[key].result) else None
  }

  /** `searchPosts` as written: the key ignores the filter and the page size. */
  function SearchAsWritten(m: map<string, CachedValue>, active: bool, posts: seq<Post>, query: string, page: nat,
                           limit: nat, f: PostFilter, oracle: Option<RankedHits>): Result<SearchResult>
  {
    if Trim(query) == [] then Err("Search query is required")
    else match CachedAnswer(m, active, true, query, page)
      case Some(hit) => Ok(hit)
      case None => Search(posts, query, page, limit, f, oracle)
  }

  lemma SingleSearchEntryWellFormed(q: string, cached: SearchResult)
    requires cached.query == q && cached.pagination.page == 1 && cached.pagination.limit == DefaultPostLimit
    ensures SearchEntriesWellFormed(map[Cache.SearchKey(q, 1) := CachedSearch(cached)])
  {
    var m := map[Cache.SearchKey(q, 1) := CachedSearch(cached)];
    forall q': string, p: nat | Cache.SearchKey(q', p) in m
      ensures m[Cache.SearchKey(q', p)].CachedSearch? && m[Cache.SearchKey(q', p)].result.query == q'
      ensures m[Cache.SearchKey(q', p)].result.pagination.page == p
      ensures m[Cache.SearchKey(q', p)].result.pagination.limit == DefaultPostLimit
    {
      Cache.SearchKeyInjective(q', p, q, 1);
    }
  }

  /**
   * With a well-formed cache holding the first page of a query at the default
   * size, a request for five results per page gets that page of ten.
   */
  lemma SearchAsWrittenIgnoresLimit(posts: seq<Post>, q: string, cached: SearchResult)
    requires q != [] && Trim(q) == q
    requires cached.query == q && cached.pagination.page == 1 && cached.pagination.limit == DefaultPostLimit
    ensures var m := map[Cache.SearchKey(q, 1) := CachedSearch(cached)];
      && SearchEntriesWellFormed(m)
      && SearchAsWritten(m, true, posts, q, 1, 5, NoFilter, None) == Ok(cached)
      && cached.pagination.limit != ResolveLimit(5, DefaultPostLimit)
  {
    SingleSearchEntryWellFormed(q, cached);
  }

  /** `searchPosts` as corrected: only requests the key describes read or fill the cache. */
  function SearchThroughCache(m: map<string, CachedValue>, active: bool, posts: seq<Post>, query: string, page: nat,
                              limit: nat, f: PostFilter, oracle: Option<RankedHits>): Result<SearchResult>
  {
    if Trim(query) == [] then Err("Search query is required")
    else match CachedAnswer(m, active, SearchCacheable(f, limit), query, page)
      case Some(hit) => Ok(hit)
      case None => Search(posts, query, page, limit, f, oracle)
  }

  /** Zero ranked hits are returned without being cached. */
  function StoreAfterSearch(m: map<string, CachedValue>, active: bool, posts: seq<Post>, query: string, page: nat,
                            limit: nat, f: PostFilter, oracle: Option<RankedHits>): map<string, CachedValue>
  {
    var r := Search(posts, query, page, limit, f, oracle);
    if r.Err? || !active || !SearchCacheable(f, limit) || CachedAnswer(m, active, true, query, page).Some? then m
    else if oracle.Some? && oracle.value.ids == [] then m
    else m[Cache.SearchKey(Trim(query), ResolvePage(page)) := CachedSearch(r.value)]
  }

  /** With well-formed entries, an answer of the corrected search is for the request made. */
  lemma SearchThroughCacheMatches(m: map<string, CachedValue>, active: bool, posts: seq<Post>, query: string, page: nat,
                                  limit: nat, f: PostFilter, oracle: Option<RankedHits>)
    requires SearchEntriesWellFormed(m)
    ensures var r := SearchThroughCache(m, active, posts, query, page, limit, f, oracle);
      r.Ok? ==> && r.value.query == Trim(query)
                && r.value.pagination.page == ResolvePage(page)
                && r.value.pagination.limit == ResolveLimit(limit, DefaultPostLimit)
  {
    var hit := CachedAnswer(m, active, SearchCacheable(f, limit), query, page);
    if Trim(query) != [] && hit.Some? {
      var key := Cache.SearchKey(Trim(query), ResolvePage(page));
      assert key in m && hit.value == m[key].result;
    }
  }

  /** Filling the cache after a search keeps its entries well formed. */
  lemma StoreAfterSearchWellFormed(m: map<string, CachedValue>, active: bool, posts: seq<Post>, query: string, page: nat,
                                   limit: nat, f: PostFilter, oracle: Option<RankedHits>)
    requires SearchEntriesWellFormed(m)
    ensures SearchEntriesWellFormed(StoreAfterSearch(m, active, posts, query, page, limit, f, oracle))
  {
    var m2 := StoreAfterSearch(m, active, posts, query, page, limit, f, oracle);
    var key := Cache.SearchKey(Trim(query), ResolvePage(page));
    forall q: string, p: nat | Cache.SearchKey(q, p) in m2
      ensures m2[Cache.SearchKey(q, p)].CachedSearch? && m2[Cache.SearchKey(q, p)].result.query == q
      ensures m2[Cache.SearchKey(q, p)].result.pagination.page == p
      ensures m2[Cache.SearchKey(q, p)].result.pagination.limit == DefaultPostLimit
    {
      if Cache.SearchKey(q, p) == key {
        Cache.SearchKeyInjective(q, p, Trim(query), ResolvePage(page));
      }
    }
  }

  /**
   * With well-formed entries, every answer of the corrected search carries the
   * trimmed query, the requested page and the requested page size, and the
   * entries stay well formed.
   */
  lemma SearchAnswersMatchRequest(m: map<string, CachedValue>, active: bool, posts: seq<Post>, query: string, page: nat,
                                  limit: nat, f: PostFilter, oracle: Option<RankedHits>)
    requires SearchEntriesWellFormed(m)
    ensures var r := SearchThroughCache(m, active, posts, query, page, limit, f, oracle);
      r.Ok? ==> && r.value.query == Trim(query)
                && r.value.pagination.page == ResolvePage(page)
                && r.value.pagination.limit == ResolveLimit(limit, DefaultPostLimit)
    ensures SearchEntriesWellFormed(StoreAfterSearch(m, active, posts, query, page, limit, f, oracle))
  {
    SearchThroughCacheMatches(m, active, posts, query, page, limit, f, oracle);
    StoreAfterSearchWellFormed(m, active, posts, query, page, limit, f, oracle);
  }

  /** `searchPosts` (corrected, see `SearchThroughCache`). */
  method SearchPosts(db: Database, cache: Cache.CacheService<CachedValue>, query: string, page: nat, limit: nat,
                     f: PostFilter, oracle: Option<RankedHits>)
    returns (r: Result<SearchResult>)
    modifies cache`store
    ensures r == SearchThroughCache(old(cache.store), cache.Active(), db.posts, query, page, limit, f, oracle)
    ensures cache.store == StoreAfterSearch(old(cache.store), cache.Active(), db.posts, query, page, limit, f, oracle)
  {
    var searchQuery := Trim(query);
    if searchQuery == [] {
      return Err("Search query is required");
    }
    var key := Cache.SearchKey(searchQuery, ResolvePage(page));
    if SearchCacheable(f, limit) {
      var cached := cache.Get(key);
      if cached.Some? && cached.value.CachedSearch? {
        return Ok(cached.value.result);
      }
    }
    r := Search(db.posts, query, page, limit, f, oracle);
    if SearchCacheable(f, limit) && !(oracle.Some? && oracle.value.ids == []) {
      cache.Set(key, CachedSearch(r.value));
    }
  }
}
