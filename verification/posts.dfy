/**
 * The first post service: plain create, read, update, delete and search,
 * with no cache, no revisions, no sanitizing and no scheduling. Its publish
 * rule keeps a post's flag and its publication instant in step.
 */
module PostService {
  import opened Common
  import opened Tables
  import opened Store
  import opened PostQueries

  /** `CreatePostDto` as this service reads it. */
  datatype PostInput = PostInput(
    title: string,
    content: string,
    excerpt: Option<string>,
    featuredImage: Option<string>,
    published: Option<bool>,
    categoryIds: Option<set<Id>>)

  /** `UpdatePostDto`: every field optional. */
  datatype PostUpdate = PostUpdate(
    title: Option<string>,
    content: Option<string>,
    excerpt: Option<string>,
    featuredImage: Option<string>,
    published: Option<bool>,
    categoryIds: Option<set<Id>>)

  /** The flag and the instant agree: a post is published exactly when it carries a publication instant. */
  predicate Stamped(p: Post) {
    p.published <==> p.publishedAt.Some?
  }

  /**
   * The row `createPost` inserts: the text as given, `published || false`,
   * stamped with the current instant when published, no tags, no
   * search-engine fields, no reading time and no schedule.
   */
  function CreatedPost(id: Id, input: PostInput, authorId: Id, slug: string, now: Time): (p: Post)
    ensures p.id == id && p.authorId == authorId && p.slug == slug
    ensures p.title == input.title && p.content == input.content && p.excerpt == input.excerpt
    ensures p.published <==> input.published == Some(true)
    ensures p.publishedAt == if input.published == Some(true) then Some(now) else None
    ensures p.scheduledPublishAt.None? && p.tagIds == {}
    ensures Stamped(p) && ScheduleExclusive(p)
  {
    var published := input.published == Some(true);
    Post(id, input.title, slug, input.content, input.excerpt, input.featuredImage,
         published, if published then Some(now) else None, None, None,
         Seo(None, None, None, None, None), authorId,
         if input.categoryIds.Some? then input.categoryIds.value else {}, {})
  }

  /**
   * `publishedAt` after an update: publishing keeps an existing instant or
   * stamps the current one, unpublishing clears it, and no flag keeps it.
   */
  function UpdatedPublishedAt(existing: Post, published: Option<bool>, now: Time): (r: Option<Time>)
    ensures published == Some(true) ==> r.Some? && (existing.publishedAt.Some? ==> r == existing.publishedAt)
    ensures published == Some(false) ==> r.None?
    ensures published.None? ==> r == existing.publishedAt
  {
    match published
    case Some(true) => if existing.publishedAt.Some? then existing.publishedAt else Some(now)
    case Some(false) => None
    case None => existing.publishedAt
  }

  /**
   * The row after `updatePost`: every supplied field is written (an empty
   * title included), the slug is recomputed for a new non-empty title, and
   * the schedule is left as stored.
   */
  function UpdatedPost(posts: seq<Post>, existing: Post, u: PostUpdate, now: Time, h: Helpers): (r: Post)
    ensures r.id == existing.id && r.authorId == existing.authorId
    ensures r.scheduledPublishAt == existing.scheduledPublishAt && r.tagIds == existing.tagIds
    ensures r.title == if u.title.Some? then u.title.value else existing.title
    ensures r.content == if u.content.Some? then u.content.value else existing.content
    ensures r.published == if u.published.Some? then u.published.value else existing.published
    ensures r.publishedAt == UpdatedPublishedAt(existing, u.published, now)
    ensures u.title.None? ==> r.slug == existing.slug
    ensures r.excerpt == if u.excerpt.Some? then u.excerpt else existing.excerpt
    ensures r.featuredImage == if u.featuredImage.Some? then u.featuredImage else existing.featuredImage
    ensures r.categoryIds == if u.categoryIds.Some? then u.categoryIds.value else existing.categoryIds
    ensures r.readingTime == existing.readingTime && r.seo == existing.seo
    ensures u.title == Some("") || u.title == Some(existing.title) ==> r.slug == existing.slug
    ensures u.title.Some? && u.title.value != "" && u.title.value != existing.title ==>
      var base := h.generateSlug(u.title.value);
      r.slug == h.makeUniqueSlug(base, SlugCollisions(posts, PostKey, PostSlug, base, Some(existing.id)))
  {
    var slug := UpdatedSlug(posts, existing, u.title, h);
    existing.(
      title := if u.title.Some? then u.title.value else existing.title,
      slug := slug,
      content := if u.content.Some? then u.content.value else existing.content,
      excerpt := if u.excerpt.Some? then u.excerpt else existing.excerpt,
      featuredImage := if u.featuredImage.Some? then u.featuredImage else existing.featuredImage,
      published := if u.published.Some? then u.published.value else existing.published,
      publishedAt := UpdatedPublishedAt(existing, u.published, now),
      categoryIds := if u.categoryIds.Some? then u.categoryIds.value else existing.categoryIds)
  }

  /** Every update keeps a stamped post stamped. */
  lemma UpdateKeepsStamped(posts: seq<Post>, existing: Post, u: PostUpdate, now: Time, h: Helpers)
    requires Stamped(existing)
    ensures Stamped(UpdatedPost(posts, existing, u, now, h))
  {
  }

  /** Publishing an already published post keeps its original publication instant. */
  lemma RepublishKeepsInstant(posts: seq<Post>, existing: Post, now: Time, h: Helpers)
    requires existing.published && Stamped(existing)
    ensures UpdatedPost(posts, existing, PostUpdate(None, None, None, None, Some(true), None), now, h).publishedAt
      == existing.publishedAt
  {
  }

  /**
   * This service predates scheduling: publishing a scheduled draft through it
   * stamps the post and leaves its schedule in place.
   */
  lemma UpdateIgnoresSchedule(posts: seq<Post>, existing: Post, at: Time, now: Time, h: Helpers)
    requires !existing.published && existing.publishedAt.None? && existing.scheduledPublishAt == Some(at)
    ensures var r := UpdatedPost(posts, existing, PostUpdate(None, None, None, None, Some(true), None), now, h);
      r.published && r.publishedAt == Some(now) && r.scheduledPublishAt == Some(at) && !ScheduleExclusive(r)
  {
  }

  ghost predicate AllStamped(posts: seq<Post>) {
    forall i :: 0 <= i < |posts| ==> Stamped(posts[i])
  }

  /** `createPost`: the post gets a fresh id and a slug unique among its base's posts. */
  method CreatePost(db: Database, h: Helpers, input: PostInput, authorId: Id, now: Time) returns (post: Post)
    requires db.Valid()
    modifies db`posts
    ensures db.Valid()
    ensures post == CreatedPost(FreshKey(old(db.posts), PostKey), input, authorId, CreationSlug(old(db.posts), input.title, h), now)
    ensures db.posts == old(db.posts) + [post]
    ensures AllStamped(old(db.posts)) ==> AllStamped(db.posts)
  {
    var baseSlug := h.generateSlug(input.title);
    var existingSlugs := SlugCollisions(db.posts, PostKey, PostSlug, baseSlug, None);
    var uniqueSlug := h.makeUniqueSlug(baseSlug, existingSlugs);
    post := CreatedPost(FreshKey(db.posts, PostKey), input, authorId, uniqueSlug, now);
    AppendFreshKeepsDistinct(db.posts, PostKey, post);
    db.posts := db.posts + [post];
  }

  /** `updatePost`: a missing post or a caller who is neither author nor admin fails, writing nothing. */
  method UpdatePost(db: Database, h: Helpers, id: Id, u: PostUpdate, userId: Id, role: string, now: Time)
    returns (r: Result<Post>)
    requires db.Valid()
    modifies db`posts
    ensures db.Valid()
    ensures IndexOf(old(db.posts), PostKey, id).None? ==> r == Err("Post not found") && db.posts == old(db.posts)
    ensures IndexOf(old(db.posts), PostKey, id).Some? ==>
      var i := IndexOf(old(db.posts), PostKey, id).value;
      if !MayModify(old(db.posts)[i].authorId, userId, role) then
        r == Err("You are not authorized to update this post") && db.posts == old(db.posts)
      else
        var updated := UpdatedPost(old(db.posts), old(db.posts)[i], u, now, h);
        r == Ok(updated) && db.posts == old(db.posts)[i := updated]
    ensures AllStamped(old(db.posts)) ==> AllStamped(db.posts)
  {
    var at := IndexOf(db.posts, PostKey, id);
    if at.None? {
      return Err("Post not found");
    }
    var existing := db.posts[at.value];
    if existing.authorId != userId && !IsAdmin(role) {
      return Err("You are not authorized to update this post");
    }
    var updated := UpdatedPost(db.posts, existing, u, now, h);
    if AllStamped(db.posts) {
      UpdateKeepsStamped(db.posts, existing, u, now, h);
    }
    db.ReplacePost(at.value, updated);
    r := Ok(updated);
  }

  /** `deletePost`: same guards as update; then the row goes. */
  method DeletePost(db: Database, id: Id, userId: Id, role: string) returns (r: Result<string>)
    requires db.Valid()
    modifies db`posts
    ensures db.Valid()
    ensures IndexOf(old(db.posts), PostKey, id).None? ==> r == Err("Post not found") && db.posts == old(db.posts)
    ensures IndexOf(old(db.posts), PostKey, id).Some? ==>
      if !MayModify(old(db.posts)[IndexOf(old(db.posts), PostKey, id).value].authorId, userId, role) then
        r == Err("You are not authorized to delete this post") && db.posts == old(db.posts)
      else
        r == Ok("Post deleted successfully") && db.posts == RemoveKeys(old(db.posts), PostKey, {id})
    ensures !HasKey(db.posts, PostKey, id) || db.posts == old(db.posts)
  {
    var at := IndexOf(db.posts, PostKey, id);
    if at.None? {
      return Err("Post not found");
    }
    var existing := db.posts[at.value];
    if existing.authorId != userId && !IsAdmin(role) {
      return Err("You are not authorized to delete this post");
    }
    FilterKeepsDistinct(db.posts, PostKey, NotIn(PostKey, {id}));
    db.posts := RemoveKeys(db.posts, PostKey, {id});
    r := Ok("Post deleted successfully");
  }

  /** `getPostBySlug`: no cache; an unknown slug fails. */
  function GetPostBySlug(posts: seq<Post>, slug: string): (r: Result<Post>)
    ensures r.Ok? ==> r.value in posts && r.value.slug == slug
    ensures r.Err? ==> r.message == "Post not found" && forall p :: p in posts ==> p.slug != slug
  {
    match FindBySlug(posts, slug)
    case Some(p) => Ok(p)
    case None => Err("Post not found")
  }
}
