/**
 * The relational store the services talk to through the ORM client: one table
 * per entity, each a sequence of rows in creation order, so that
 * `orderBy: { createdAt: 'desc' }` is the reverse of a table. Many-to-many
 * relations (post–category, post–tag) are id sets on the post row.
 */
module Store {
  import opened Common
  import opened Tables

  /** The search-engine and social-card fields of a post. */
  datatype Seo = Seo(
    metaTitle: Option<string>,
    metaDescription: Option<string>,
    ogTitle: Option<string>,
    ogDescription: Option<string>,
    ogImage: Option<string>)

  datatype Post = Post(
    id: Id,
    title: string,
    slug: string,
    content: string,
    excerpt: Option<string>,
    featuredImage: Option<string>,
    published: bool,
    publishedAt: Option<Time>,
    scheduledPublishAt: Option<Time>,
    readingTime: Option<nat>,
    seo: Seo,
    authorId: Id,
    categoryIds: set<Id>,
    tagIds: set<Id>)

  /** A snapshot of a post's title, content and excerpt. */
  datatype Revision = Revision(
    id: Id,
    postId: Id,
    createdBy: Id,
    title: string,
    content: string,
    excerpt: Option<string>)

  datatype Category = Category(id: Id, name: string, slug: string, description: Option<string>)

  datatype Tag = Tag(id: Id, name: string, slug: string)

  datatype Comment = Comment(
    id: Id,
    content: string,
    postId: Id,
    authorId: Id,
    parentId: Option<Id>,
    approved: bool)

  datatype PostView = PostView(id: Id, postId: Id, viewedAt: Time)

  datatype User = User(id: Id, name: string, email: string, role: string)

  function PostKey(p: Post): Id { p.id }
  function RevisionKey(r: Revision): Id { r.id }
  function CategoryKey(c: Category): Id { c.id }
  function TagKey(t: Tag): Id { t.id }
  function CommentKey(c: Comment): Id { c.id }
  function ViewKey(v: PostView): Id { v.id }
  function UserKey(u: User): Id { u.id }

  /**
   * The enhanced post lifecycle never leaves a post both published at an
   * instant and scheduled for a later one.
   */
  predicate ScheduleExclusive(p: Post) {
    !(p.publishedAt.Some? && p.scheduledPublishAt.Some?)
  }

  /** `findUnique({ where: { slug } })`: the first post with that slug. */
  function FindBySlug(posts: seq<Post>, slug: string): (r: Option<Post>)
    ensures r.Some? ==> r.value in posts && r.value.slug == slug
    ensures r.None? ==> forall i :: 0 <= i < |posts| ==> posts[i].slug != slug
  {
    if posts == [] then None
    else if posts[0].slug == slug then Some(posts[0])
    else FindBySlug(posts[1..], slug)
  }

  ghost predicate AllScheduleExclusive(posts: seq<Post>) {
    forall i :: 0 <= i < |posts| ==> ScheduleExclusive(posts[i])
  }

  /** `findUnique({ where: { id } })` for posts, as the services report it. */
  function FindPost(posts: seq<Post>, id: Id): (r: Result<Post>)
    ensures r.Ok? <==> HasKey(posts, PostKey, id)
    ensures r.Ok? ==> r.value in posts && r.value.id == id
    ensures r.Err? ==> r.message == "Post not found"
  {
    match IndexOf(posts, PostKey, id)
    case Some(i) => Ok(posts[i])
    case None => Err("Post not found")
  }

  /** A row whose slug `makeUniqueSlug` must avoid. */
  predicate Collides<T>(row: T, key: T -> Id, slug: T -> string, base: string, exclude: Option<Id>) {
    StartsWith(slug(row), base) && (exclude.Some? ==> key(row) != exclude.value)
  }

  /**
   * The slugs `makeUniqueSlug` must avoid: those of the rows whose slug starts
   * with `base` (`where: { slug: { startsWith: base } }`), leaving out the row
   * being renamed (`id: { not: id }`) when there is one.
   */
  function SlugCollisions<T(!new)>(rows: seq<T>, key: T -> Id, slug: T -> string, base: string, exclude: Option<Id>)
    : (r: seq<string>)
    ensures forall s :: s in r <==>
      exists i :: 0 <= i < |rows| && Collides(rows[i], key, slug, base, exclude) && slug(rows[i]) == s
  {
    if rows == [] then []
    else
      var rest := SlugCollisions(rows[1..], key, slug, base, exclude);
      assert forall i :: 1 <= i < |rows| ==> rows[i] == rows[1..][i - 1];
      if Collides(rows[0], key, slug, base, exclude) then [slug(rows[0])] + rest else rest
  }

  /** The slug as a function of a post, for `SlugCollisions`. */
  function PostSlug(p: Post): string { p.slug }

  /** The slugs of a list of posts, in list order. */
  function Slugs(posts: seq<Post>): (r: seq<string>)
    ensures |r| == |posts| && forall i :: 0 <= i < |posts| ==> r[i] == posts[i].slug
  {
    seq(|posts|, i requires 0 <= i < |posts| => posts[i].slug)
  }

  lemma SlugsSnoc(posts: seq<Post>, p: Post)
    ensures Slugs(posts + [p]) == Slugs(posts) + [p.slug]
  {
  }

  /** The slug of a new post: unique against every existing slug with the same base. */
  function CreationSlug(posts: seq<Post>, title: string, h: Helpers): string {
    var base := h.generateSlug(title);
    h.makeUniqueSlug(base, SlugCollisions(posts, PostKey, PostSlug, base, None))
  }

  /**
   * The slug after an update: recomputed only when a non-empty title different
   * from the current one is supplied, against the slugs of the other posts.
   */
  function UpdatedSlug(posts: seq<Post>, existing: Post, title: Option<string>, h: Helpers): (r: string)
    ensures title.None? || title == Some("") || title == Some(existing.title) ==> r == existing.slug
    ensures title.Some? && title.value != "" && title.value != existing.title ==>
      var base := h.generateSlug(title.value);
      r == h.makeUniqueSlug(base, SlugCollisions(posts, PostKey, PostSlug, base, Some(existing.id)))
  {
    if title.Some? && title.value != "" && title.value != existing.title then
      var base := h.generateSlug(title.value);
      h.makeUniqueSlug(base, SlugCollisions(posts, PostKey, PostSlug, base, Some(existing.id)))
    else existing.slug
  }

  /**
   * The collision set of a renamed post leaves the post's own row out: when no
   * other post shares its slug, its current slug is never counted as taken.
   */
  lemma OwnSlugNeverCollides(posts: seq<Post>, existing: Post, base: string)
    requires forall i :: 0 <= i < |posts| && posts[i].slug == existing.slug ==> posts[i].id == existing.id
    ensures existing.slug !in SlugCollisions(posts, PostKey, PostSlug, base, Some(existing.id))
  {
  }

  /** The ORM client: every table, mutated in place by the services. */
  class Database {
    var posts: seq<Post>
    var revisions: seq<Revision>
    var categories: seq<Category>
    var tags: seq<Tag>
    var comments: seq<Comment>
    var views: seq<PostView>
    var users: seq<User>

    /** Primary keys are unique in every table. */
    ghost predicate Valid()
      reads this
    {
      && DistinctKeys(posts, PostKey)
      && DistinctKeys(revisions, RevisionKey)
      && DistinctKeys(categories, CategoryKey)
      && DistinctKeys(tags, TagKey)
      && DistinctKeys(comments, CommentKey)
      && DistinctKeys(views, ViewKey)
      && DistinctKeys(users, UserKey)
    }

    constructor ()
      ensures Valid()
      ensures posts == [] && revisions == [] && categories == [] && tags == []
      ensures comments == [] && views == [] && users == []
    {
      posts, revisions, categories, tags := [], [], [], [];
      comments, views, users := [], [], [];
    }

    /** `post.update` by id: the row at `i` is replaced by one with the same id. */
    method ReplacePost(i: nat, p: Post)
      requires Valid() && i < |posts| && p.id == posts[i].id
      modifies this`posts
      ensures Valid() && posts == old(posts)[i := p]
    {
      ReplaceKeepsDistinct(posts, PostKey, i, p);
      posts := posts[i := p];
    }
  }
}
