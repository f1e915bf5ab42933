/**
 * The tag service: the category service without descriptions, and with the
 * opposite deletion policy: a tag is deleted even while posts carry it, and
 * the implicit post–tag relation drops it from those posts.
 */
module Tags {
  import opened Common
  import opened Tables
  import opened Sorting
  import opened Store

  const TagNotFound := "Tag not found"
  const TagDeleted := "Tag deleted successfully"

  /** Page size of `getTagWithPosts` when none is given. */
  const DefaultPageSize: nat := 10

  function TagSlug(t: Tag): string { t.slug }

  /**
   * The slug for a tag named `name`: unique against the slugs that start with
   * the same base, leaving out the tag `exclude` when renaming it.
   */
  function SlugFor(tags: seq<Tag>, name: string, h: Helpers, exclude: Option<Id>): string {
    var base := h.generateSlug(name);
    h.makeUniqueSlug(base, SlugCollisions(tags, TagKey, TagSlug, base, exclude))
  }

  /** `createTag`: a new row with a fresh id and the given name. */
  method CreateTag(db: Database, h: Helpers, name: string) returns (t: Tag)
    requires db.Valid()
    modifies db`tags
    ensures db.Valid()
    ensures !HasKey(old(db.tags), TagKey, t.id)
    ensures t == Tag(t.id, name, SlugFor(old(db.tags), name, h, None))
    ensures db.tags == old(db.tags) + [t]
  {
    t := Tag(FreshKey(db.tags, TagKey), name, SlugFor(db.tags, name, h, None));
    AppendFreshKeepsDistinct(db.tags, TagKey, t);
    db.tags := db.tags + [t];
  }

  function NameOf(t: Tag): string { t.name }

  /** `getAllTags`: every tag, once, ordered by name. */
  function GetAllTags(tags: seq<Tag>): (r: seq<Tag>)
    ensures multiset(r) == multiset(tags)
    ensures Sorted(r, ByField(NameOf))
  {
    ByFieldIsTotalPreorder(NameOf);
    SortByPerm(tags, ByField(NameOf));
    SortBySorted(tags, ByField(NameOf));
    SortBy(tags, ByField(NameOf))
  }

  /** `getTagById`. */
  function GetTagById(tags: seq<Tag>, id: Id): (r: Result<Tag>)
    ensures r.Ok? <==> HasKey(tags, TagKey, id)
    ensures r.Ok? ==> r.value in tags && r.value.id == id
    ensures r.Err? ==> r.message == TagNotFound
  {
    FindRow(tags, TagKey, id, TagNotFound)
  }

  function HasSlug(slug: string): Tag -> bool {
    (t: Tag) => t.slug == slug
  }

  /** `getTagBySlug`. */
  function GetTagBySlug(tags: seq<Tag>, slug: string): (r: Result<Tag>)
    ensures r.Ok? ==> r.value in tags && r.value.slug == slug
    ensures r.Err? <==> forall t :: t in tags ==> t.slug != slug
    ensures r.Err? ==> r.message == TagNotFound
  {
    match FindFirst(tags, HasSlug(slug))
    case Some(t) => Ok(t)
    case None => Err(TagNotFound)
  }

  /** The `where` of `getTagWithPosts`: carrying the tag, and of the requested state. */
  predicate Listed(id: Id, published: Option<bool>, p: Post) {
    id in p.tagIds && (published.Some? ==> p.published == published.value)
  }

  function ListedIn(id: Id, published: Option<bool>): Post -> bool {
    p => Listed(id, published, p)
  }

  datatype TagPosts = TagPosts(tag: Tag, posts: Page<Post>)

  /**
   * `getTagWithPosts`: an unknown slug fails before anything is listed;
   * otherwise one page of the posts carrying the tag, newest first.
   */
  function GetTagWithPosts(tags: seq<Tag>, posts: seq<Post>, slug: string,
                           page: nat, limit: nat, published: Option<bool>): (r: Result<TagPosts>)
    ensures r.Err? <==> GetTagBySlug(tags, slug).Err?
    ensures r.Err? ==> r.message == TagNotFound
    ensures r.Ok? ==>
      var t := r.value.tag;
      var listing := r.value.posts;
      && t in tags && t.slug == slug
      && listing.pagination.total == |Filter(posts, ListedIn(t.id, published))|
      && (forall p :: p in listing.items ==> p in posts && Listed(t.id, published, p))
    ensures r.Ok? ==>
      IsPage(r.value.posts, Reverse(Filter(posts, ListedIn(r.value.tag.id, published))), page, limit, DefaultPageSize)
  {
    match GetTagBySlug(tags, slug)
    case Err(e) => Err(e)
    case Ok(t) =>
      var rows := NewestFirst(posts, ListedIn(t.id, published));
      var listing := Paginate(rows, page, limit, DefaultPageSize);
      assert forall i :: 0 <= i < |listing.items| ==> listing.items[i] in rows;
      Ok(TagPosts(t, listing))
  }

  /**
   * The row after `update({ data: { name, slug } })`: a supplied name is
   * written, and the slug is recomputed only for a non-empty name that differs
   * from the current one.
   */
  function UpdatedTag(tags: seq<Tag>, existing: Tag, name: Option<string>, h: Helpers): (r: Tag)
    ensures r.id == existing.id
    ensures r.name == (if name.Some? then name.value else existing.name)
    ensures r.slug != existing.slug ==> name.Some? && name.value != "" && name.value != existing.name
  {
    var slug := if name.Some? && name.value != "" && name.value != existing.name
      then SlugFor(tags, name.value, h, Some(existing.id)) else existing.slug;
    Tag(existing.id, if name.Some? then name.value else existing.name, slug)
  }

  /** A renamed tag keeps its slug unless the new name differs. */
  lemma RenameKeepsSlugUnlessNameChanges(tags: seq<Tag>, existing: Tag, name: string, h: Helpers)
    ensures name == existing.name || name == "" ==> UpdatedTag(tags, existing, Some(name), h).slug == existing.slug
    ensures name != existing.name && name != "" ==>
      UpdatedTag(tags, existing, Some(name), h).slug == SlugFor(tags, name, h, Some(existing.id))
  {
  }

  /** `updateTag`: a missing id fails and writes nothing. */
  method UpdateTag(db: Database, h: Helpers, id: Id, name: Option<string>) returns (r: Result<Tag>)
    requires db.Valid()
    modifies db`tags
    ensures db.Valid()
    ensures !HasKey(old(db.tags), TagKey, id) ==> r == Err(TagNotFound) && db.tags == old(db.tags)
    ensures HasKey(old(db.tags), TagKey, id) ==>
      var i := IndexOf(old(db.tags), TagKey, id).value;
      var updated := UpdatedTag(old(db.tags), old(db.tags)[i], name, h);
      r == Ok(updated) && db.tags == old(db.tags)[i := updated]
  {
    var at := IndexOf(db.tags, TagKey, id);
    if at.None? {
      return Err(TagNotFound);
    }
    var i := at.value;
    var updated := UpdatedTag(db.tags, db.tags[i], name, h);
    ReplaceKeepsDistinct(db.tags, TagKey, i, updated);
    db.tags := db.tags[i := updated];
    r := Ok(updated);
  }

  /** What deleting the tag does to the post–tag relation: every post loses it. */
  function Detached(posts: seq<Post>, id: Id): (r: seq<Post>)
    ensures |r| == |posts|
    ensures forall i :: 0 <= i < |r| ==> r[i] == posts[i].(tagIds := posts[i].tagIds - {id})
  {
    seq(|posts|, i requires 0 <= i < |posts| => posts[i].(tagIds := posts[i].tagIds - {id}))
  }

  /** Detaching keeps every post and its id, and leaves no post carrying the tag. */
  lemma DetachedKeepsPosts(posts: seq<Post>, id: Id)
    ensures DistinctKeys(posts, PostKey) ==> DistinctKeys(Detached(posts, id), PostKey)
    ensures forall p :: p in Detached(posts, id) ==> id !in p.tagIds
    ensures forall i :: 0 <= i < |posts| ==> Detached(posts, id)[i].id == posts[i].id
  {
    var r := Detached(posts, id);
    forall p | p in r ensures id !in p.tagIds {
      var i :| 0 <= i < |r| && r[i] == p;
    }
  }

  /**
   * `deleteTag`: a missing id fails; otherwise the tag goes whatever posts
   * carry it, and they no longer carry it.
   */
  method DeleteTag(db: Database, id: Id) returns (r: Result<string>)
    requires db.Valid()
    modifies db`tags, db`posts
    ensures db.Valid()
    ensures !HasKey(old(db.tags), TagKey, id) ==>
      r == Err(TagNotFound) && db.tags == old(db.tags) && db.posts == old(db.posts)
    ensures HasKey(old(db.tags), TagKey, id) ==>
      && r == Ok(TagDeleted)
      && db.tags == RemoveKeys(old(db.tags), TagKey, {id})
      && db.posts == Detached(old(db.posts), id)
  {
    var at := IndexOf(db.tags, TagKey, id);
    if at.None? {
      return Err(TagNotFound);
    }
    FilterKeepsDistinct(db.tags, TagKey, NotIn(TagKey, {id}));
    DetachedKeepsPosts(db.posts, id);
    db.tags := RemoveKeys(db.tags, TagKey, {id});
    db.posts := Detached(db.posts, id);
    r := Ok(TagDeleted);
  }
}
