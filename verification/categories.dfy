/**
 * The category service: categories with unique slugs, looked up by id or
 * slug, listed by name, paged through with their posts, renamed, and deleted
 * only while no post refers to them.
 */
module Categories {
  import opened Common
  import opened Tables
  import opened Sorting
  import opened Store

  const CategoryNotFound := "Category not found"
  const CategoryDeleted := "Category deleted successfully"

  /** Page size of `getCategoryWithPosts` when none is given. */
  const DefaultPageSize: nat := 10

  function CategorySlug(c: Category): string { c.slug }

  /**
   * The slug for a category named `name`: unique against the slugs that start
   * with the same base, leaving out the category `exclude` when renaming it.
   */
  function SlugFor(cats: seq<Category>, name: string, h: Helpers, exclude: Option<Id>): string {
    var base := h.generateSlug(name);
    h.makeUniqueSlug(base, SlugCollisions(cats, CategoryKey, CategorySlug, base, exclude))
  }

  /** `createCategory`: a new row with a fresh id, the given name and description. */
  method CreateCategory(db: Database, h: Helpers, name: string, description: Option<string>)
    returns (c: Category)
    requires db.Valid()
    modifies db`categories
    ensures db.Valid()
    ensures !HasKey(old(db.categories), CategoryKey, c.id)
    ensures c == Category(c.id, name, SlugFor(old(db.categories), name, h, None), description)
    ensures db.categories == old(db.categories) + [c]
  {
    c := Category(FreshKey(db.categories, CategoryKey), name, SlugFor(db.categories, name, h, None), description);
    AppendFreshKeepsDistinct(db.categories, CategoryKey, c);
    db.categories := db.categories + [c];
  }

  /** `orderBy: { name: 'asc' }`. */
  function NameOf(c: Category): string { c.name }

  /** `getAllCategories`: every category, once, ordered by name. */
  function GetAllCategories(cats: seq<Category>): (r: seq<Category>)
    ensures multiset(r) == multiset(cats)
    ensures Sorted(r, ByField(NameOf))
  {
    ByFieldIsTotalPreorder(NameOf);
    SortByPerm(cats, ByField(NameOf));
    SortBySorted(cats, ByField(NameOf));
    SortBy(cats, ByField(NameOf))
  }

  /** `getCategoryById`. */
  function GetCategoryById(cats: seq<Category>, id: Id): (r: Result<Category>)
    ensures r.Ok? <==> HasKey(cats, CategoryKey, id)
    ensures r.Ok? ==> r.value in cats && r.value.id == id
    ensures r.Err? ==> r.message == CategoryNotFound
  {
    FindRow(cats, CategoryKey, id, CategoryNotFound)
  }

  function HasSlug(slug: string): Category -> bool {
    (c: Category) => c.slug == slug
  }

  /** `getCategoryBySlug`. */
  function GetCategoryBySlug(cats: seq<Category>, slug: string): (r: Result<Category>)
    ensures r.Ok? ==> r.value in cats && r.value.slug == slug
    ensures r.Err? <==> forall c :: c in cats ==> c.slug != slug
    ensures r.Err? ==> r.message == CategoryNotFound
  {
    match FindFirst(cats, HasSlug(slug))
    case Some(c) => Ok(c)
    case None => Err(CategoryNotFound)
  }

  /** The `where` of `getCategoryWithPosts`: in the category, and of the requested state. */
  predicate Listed(id: Id, published: Option<bool>, p: Post) {
    id in p.categoryIds && (published.Some? ==> p.published == published.value)
  }

  function ListedIn(id: Id, published: Option<bool>): Post -> bool {
    p => Listed(id, published, p)
  }

  datatype CategoryPosts = CategoryPosts(category: Category, posts: Page<Post>)

  /**
   * `getCategoryWithPosts`: an unknown slug fails before anything is listed;
   * otherwise one page of the category's posts, newest first.
   */
  function GetCategoryWithPosts(cats: seq<Category>, posts: seq<Post>, slug: string,
                                page: nat, limit: nat, published: Option<bool>): (r: Result<CategoryPosts>)
    ensures r.Err? <==> GetCategoryBySlug(cats, slug).Err?
    ensures r.Err? ==> r.message == CategoryNotFound
    ensures r.Ok? ==>
      var c := r.value.category;
      var listing := r.value.posts;
      && c in cats && c.slug == slug
      && listing.pagination.total == |Filter(posts, ListedIn(c.id, published))|
      && (forall p :: p in listing.items ==> p in posts && Listed(c.id, published, p))
    ensures r.Ok? ==>
      IsPage(r.value.posts, Reverse(Filter(posts, ListedIn(r.value.category.id, published))), page, limit, DefaultPageSize)
  {
    match GetCategoryBySlug(cats, slug)
    case Err(e) => Err(e)
    case Ok(c) =>
      var rows := NewestFirst(posts, ListedIn(c.id, published));
      var listing := Paginate(rows, page, limit, DefaultPageSize);
      assert forall i :: 0 <= i < |listing.items| ==> listing.items[i] in rows;
      Ok(CategoryPosts(c, listing))
  }

  /**
   * The row after `update({ data: { name, slug, description } })`: supplied
   * fields are written, and the slug is recomputed only for a non-empty name
   * that differs from the current one.
   */
  function UpdatedCategory(cats: seq<Category>, existing: Category, name: Option<string>,
                           description: Option<string>, h: Helpers): (r: Category)
    ensures r.id == existing.id
    ensures r.name == (if name.Some? then name.value else existing.name)
    ensures r.description == (if description.Some? then description else existing.description)
    ensures r.slug != existing.slug ==> name.Some? && name.value != "" && name.value != existing.name
  {
    var slug := if name.Some? && name.value != "" && name.value != existing.name
      then SlugFor(cats, name.value, h, Some(existing.id)) else existing.slug;
    Category(existing.id, if name.Some? then name.value else existing.name, slug,
             if description.Some? then description else existing.description)
  }

  /** `updateCategory`: a missing id fails and writes nothing. */
  method UpdateCategory(db: Database, h: Helpers, id: Id, name: Option<string>, description: Option<string>)
    returns (r: Result<Category>)
    requires db.Valid()
    modifies db`categories
    ensures db.Valid()
    ensures !HasKey(old(db.categories), CategoryKey, id) ==>
      r == Err(CategoryNotFound) && db.categories == old(db.categories)
    ensures HasKey(old(db.categories), CategoryKey, id) ==>
      var i := IndexOf(old(db.categories), CategoryKey, id).value;
      var updated := UpdatedCategory(old(db.categories), old(db.categories)[i], name, description, h);
      r == Ok(updated) && db.categories == old(db.categories)[i := updated]
  {
    var at := IndexOf(db.categories, CategoryKey, id);
    if at.None? {
      return Err(CategoryNotFound);
    }
    var i := at.value;
    var updated := UpdatedCategory(db.categories, db.categories[i], name, description, h);
    ReplaceKeepsDistinct(db.categories, CategoryKey, i, updated);
    db.categories := db.categories[i := updated];
    r := Ok(updated);
  }

  /** A renamed category keeps its slug unless the new name differs; it never takes another's id. */
  lemma RenameKeepsSlugUnlessNameChanges(cats: seq<Category>, existing: Category, name: string,
                                         description: Option<string>, h: Helpers)
    ensures name == existing.name || name == "" ==>
      UpdatedCategory(cats, existing, Some(name), description, h).slug == existing.slug
    ensures name != existing.name && name != "" ==>
      UpdatedCategory(cats, existing, Some(name), description, h).slug
        == SlugFor(cats, name, h, Some(existing.id))
  {
  }

  /** `_count.posts`: how many posts refer to the category. */
  function PostCount(posts: seq<Post>, id: Id): nat {
    |Filter(posts, (p: Post) => id in p.categoryIds)|
  }

  /** The count is positive exactly when some post refers to the category. */
  lemma PostCountPositiveIffReferenced(posts: seq<Post>, id: Id)
    ensures PostCount(posts, id) > 0 <==> exists p :: p in posts && id in p.categoryIds
  {
    var f := Filter(posts, (p: Post) => id in p.categoryIds);
    if f != [] {
      assert f[0] in f;
    }
  }

  function DeleteBlocked(count: nat): string {
    "Cannot delete category. It has " + NatToString(count)
      + " post(s) associated with it. Please remove the posts first."
  }

  /**
   * `deleteCategory`: a missing id fails; a category any post refers to is
   * kept and the call fails with the count; otherwise the row goes.
   */
  method DeleteCategory(db: Database, id: Id) returns (r: Result<string>)
    requires db.Valid()
    modifies db`categories
    ensures db.Valid()
    ensures !HasKey(old(db.categories), CategoryKey, id) ==>
      r == Err(CategoryNotFound) && db.categories == old(db.categories)
    ensures HasKey(old(db.categories), CategoryKey, id) && PostCount(db.posts, id) > 0 ==>
      r == Err(DeleteBlocked(PostCount(db.posts, id))) && db.categories == old(db.categories)
    ensures HasKey(old(db.categories), CategoryKey, id) && PostCount(db.posts, id) == 0 ==>
      r == Ok(CategoryDeleted) && db.categories == RemoveKeys(old(db.categories), CategoryKey, {id})
  {
    var at := IndexOf(db.categories, CategoryKey, id);
    if at.None? {
      return Err(CategoryNotFound);
    }
    var count := PostCount(db.posts, id);
    if count > 0 {
      return Err(DeleteBlocked(count));
    }
    FilterKeepsDistinct(db.categories, CategoryKey, NotIn(CategoryKey, {id}));
    db.categories := RemoveKeys(db.categories, CategoryKey, {id});
    r := Ok(CategoryDeleted);
  }

  /**
   * After a successful delete no category has that id, and no post referred
   * to it, so no post is left pointing at a missing category.
   */
  lemma DeletedCategoryUnreferenced(cats: seq<Category>, posts: seq<Post>, id: Id)
    requires PostCount(posts, id) == 0
    ensures !HasKey(RemoveKeys(cats, CategoryKey, {id}), CategoryKey, id)
    ensures forall p :: p in posts ==> id !in p.categoryIds
  {
    PostCountPositiveIffReferenced(posts, id);
    var r := RemoveKeys(cats, CategoryKey, {id});
    forall i | 0 <= i < |r| ensures r[i].id != id {
      assert r[i] in r;
    }
  }
}
