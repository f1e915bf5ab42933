/**
 * Backups: a JSON dump of selected tables, a CSV export of the posts, the
 * listing of the backup directory, and the import that upserts categories,
 * tags and posts from a dump.
 */
module Backup {
  import opened Common
  import opened Tables
  import opened Store

  // ---------------------------------------------------------------------------
  // File names and the backup directory
  // ---------------------------------------------------------------------------

  /** `toISOString().replace(/[:.]/g, '-')`: a timestamp usable in a file name. */
  function FileTimestamp(iso: string): (r: string)
    ensures |r| == |iso|
    ensures ':' !in r && '.' !in r
    ensures forall i :: 0 <= i < |r| && iso[i] != ':' && iso[i] != '.' ==> r[i] == iso[i]
    ensures forall i :: 0 <= i < |r| && (iso[i] == ':' || iso[i] == '.') ==> r[i] == '-'
  {
    seq(|iso|, i requires 0 <= i < |iso| => if iso[i] == ':' || iso[i] == '.' then '-' else iso[i])
  }

  function JsonBackupName(iso: string): string {
    "backup-" + FileTimestamp(iso) + ".json"
  }

  function CsvExportName(iso: string): string {
    "posts-export-" + FileTimestamp(iso) + ".csv"
  }

  predicate EndsWith(s: string, suffix: string) {
    |suffix| <= |s| && s[|s| - |suffix|..] == suffix
  }

  predicate IsBackupFile(name: string) {
    EndsWith(name, ".json") || EndsWith(name, ".csv")
  }

  /** `getBackupFiles`: the directory entries ending in `.json` or `.csv`, in listing order. */
  function GetBackupFiles(entries: seq<string>): (r: seq<string>)
    ensures forall f :: f in r <==> f in entries && IsBackupFile(f)
    ensures |r| <= |entries|
  {
    Filter(entries, IsBackupFile)
  }

  /**
   * Both kinds of file the service writes are listed by `getBackupFiles`, and
   * the extension's dot is the only dot in their names.
   */
  lemma WrittenFilesAreListed(iso: string, entries: seq<string>)
    ensures IsBackupFile(JsonBackupName(iso)) && IsBackupFile(CsvExportName(iso))
    ensures JsonBackupName(iso) in entries ==> JsonBackupName(iso) in GetBackupFiles(entries)
    ensures CsvExportName(iso) in entries ==> CsvExportName(iso) in GetBackupFiles(entries)
    ensures var j := JsonBackupName(iso); '.' !in j[..|j| - 5]
    ensures var c := CsvExportName(iso); '.' !in c[..|c| - 4]
  {
    var ts := FileTimestamp(iso);
    var j := JsonBackupName(iso);
    var c := CsvExportName(iso);
    assert j[|j| - 5..] == ".json";
    assert c[|c| - 4..] == ".csv";
    assert j[..|j| - 5] == "backup-" + ts;
    assert c[..|c| - 4] == "posts-export-" + ts;
  }

  // ---------------------------------------------------------------------------
  // exportToJSON
  // ---------------------------------------------------------------------------

  /** The tables a dump holds by default, under their keys in the dump. */
  const AllModels: seq<string> := [
    "users", "posts", "categories", "tags", "comments",
    "postRevisions", "postViews", "media", "socialShares"]

  const Version := "1.0.0"

  /** `models || [...all]`: an absent list means every table; an empty one, none. */
  function Selected(models: Option<seq<string>>): seq<string> {
    if models.Some? then models.value else AllModels
  }

  /**
   * The object `exportToJSON` writes, one field per key: a table's key is
   * absent (`None`) unless it was selected. The rows of `media` and
   * `socialShares` are not modelled, only whether their keys are present.
   */
  datatype Dump = Dump(
    users: Option<seq<User>>,
    posts: Option<seq<Post>>,
    categories: Option<seq<Category>>,
    tags: Option<seq<Tag>>,
    comments: Option<seq<Comment>>,
    postRevisions: Option<seq<Revision>>,
    postViews: Option<seq<PostView>>,
    media: bool,
    socialShares: bool,
    exportedAt: string,
    version: string)

  /** `if (modelsToExport.includes(name)) data[name] = await ...findMany()`. */
  method Include<T>(selected: seq<string>, name: string, rows: seq<T>) returns (r: Option<seq<T>>)
    ensures r.Some? <==> name in selected
    ensures r.Some? ==> r.value == rows
  {
    r := None;
    if name in selected {
      r := Some(rows);
    }
  }

  /**
   * `exportToJSON(models)`: the dump holds every selected table the service
   * knows, whole and in table order, and no other; names it does not know are
   * ignored. It is stamped with the export time and the format version.
   */
  method ExportToJson(db: Database, models: Option<seq<string>>, h: Helpers, now: Time) returns (data: Dump)
    ensures data.users == (if "users" in Selected(models) then Some(db.users) else None)
    ensures data.posts == (if "posts" in Selected(models) then Some(db.posts) else None)
    ensures data.categories == (if "categories" in Selected(models) then Some(db.categories) else None)
    ensures data.tags == (if "tags" in Selected(models) then Some(db.tags) else None)
    ensures data.comments == (if "comments" in Selected(models) then Some(db.comments) else None)
    ensures data.postRevisions == (if "postRevisions" in Selected(models) then Some(db.revisions) else None)
    ensures data.postViews == (if "postViews" in Selected(models) then Some(db.views) else None)
    ensures data.media <==> "media" in Selected(models)
    ensures data.socialShares <==> "socialShares" in Selected(models)
    ensures data.exportedAt == h.isoString(now) && data.version == Version
  {
    var selected := Selected(models);
    var users := Include(selected, "users", db.users);
    var posts := Include(selected, "posts", db.posts);
    var categories := Include(selected, "categories", db.categories);
    var tags := Include(selected, "tags", db.tags);
    var comments := Include(selected, "comments", db.comments);
    var postRevisions := Include(selected, "postRevisions", db.revisions);
    var postViews := Include(selected, "postViews", db.views);
    data := Dump(users, posts, categories, tags, comments, postRevisions, postViews,
                 "media" in selected, "socialShares" in selected, h.isoString(now), Version);
  }

  // ---------------------------------------------------------------------------
  // importFromJSON
  // ---------------------------------------------------------------------------

  /** `update: category, create: category`: the row becomes the imported one. */
  function OverwriteCategory(prior: Option<Category>, x: Category): Category { x }

  /** `update: tag, create: tag`. */
  function OverwriteTag(prior: Option<Tag>, x: Tag): Tag { x }

  /**
   * `update: post, create: post` with the scalar columns a dump holds: an
   * update keeps the post's categories and tags, a create gives it none.
   */
  function ImportedPost(prior: Option<Post>, x: Post): (r: Post)
    ensures r.id == x.id && r.title == x.title && r.content == x.content && r.published == x.published
    ensures prior.Some? ==> r.categoryIds == prior.value.categoryIds && r.tagIds == prior.value.tagIds
    ensures prior.None? ==> r.categoryIds == {} && r.tagIds == {}
  {
    if prior.Some? then x.(categoryIds := prior.value.categoryIds, tagIds := prior.value.tagIds)
    else x.(categoryIds := {}, tagIds := {})
  }

  /** The import writes keep ids, and a later write of a row leaves nothing of an earlier one. */
  lemma ImportWritesAbsorb()
    ensures KeepsKey(CategoryKey, OverwriteCategory) && Absorbs(CategoryKey, OverwriteCategory)
    ensures KeepsKey(TagKey, OverwriteTag) && Absorbs(TagKey, OverwriteTag)
    ensures KeepsKey(PostKey, ImportedPost) && Absorbs(PostKey, ImportedPost)
  {
  }

  /** A table after the import loop for `rows`, when the dump holds that table. */
  function Imported<T(!new)>(s: seq<T>, key: T -> Id, write: (Option<T>, T) -> T, rows: Option<seq<T>>): seq<T> {
    if rows.Some? then UpsertAll(s, key, write, rows.value) else s
  }

  method ImportCategories(db: Database, rows: seq<Category>)
    requires db.Valid()
    modifies db`categories
    ensures db.Valid()
    ensures db.categories == UpsertAll(old(db.categories), CategoryKey, OverwriteCategory, rows)
  {
    ImportWritesAbsorb();
    ghost var start := db.categories;
    for i := 0 to |rows|
      invariant db.Valid()
      invariant db.categories == UpsertAll(start, CategoryKey, OverwriteCategory, rows[..i])
    {
      UpsertAt(db.categories, CategoryKey, OverwriteCategory, rows[i]);
      assert rows[..i + 1][..i] == rows[..i];
      db.categories := Upsert(db.categories, CategoryKey, OverwriteCategory, rows[i]);
    }
    assert rows[..|rows|] == rows;
  }

  method ImportTags(db: Database, rows: seq<Tag>)
    requires db.Valid()
    modifies db`tags
    ensures db.Valid()
    ensures db.tags == UpsertAll(old(db.tags), TagKey, OverwriteTag, rows)
  {
    ImportWritesAbsorb();
    ghost var start := db.tags;
    for i := 0 to |rows|
      invariant db.Valid()
      invariant db.tags == UpsertAll(start, TagKey, OverwriteTag, rows[..i])
    {
      UpsertAt(db.tags, TagKey, OverwriteTag, rows[i]);
      assert rows[..i + 1][..i] == rows[..i];
      db.tags := Upsert(db.tags, TagKey, OverwriteTag, rows[i]);
    }
    assert rows[..|rows|] == rows;
  }

  method ImportPosts(db: Database, rows: seq<Post>)
    requires db.Valid()
    modifies db`posts
    ensures db.Valid()
    ensures db.posts == UpsertAll(old(db.posts), PostKey, ImportedPost, rows)
  {
    ImportWritesAbsorb();
    ghost var start := db.posts;
    for i := 0 to |rows|
      invariant db.Valid()
      invariant db.posts == UpsertAll(start, PostKey, ImportedPost, rows[..i])
    {
      UpsertAt(db.posts, PostKey, ImportedPost, rows[i]);
      assert rows[..i + 1][..i] == rows[..i];
      db.posts := Upsert(db.posts, PostKey, ImportedPost, rows[i]);
    }
    assert rows[..|rows|] == rows;
  }

  /**
   * `importFromJSON`: categories, then tags, then posts are upserted by id
   * from the dump; users are only counted, and no other table is written.
   */
  method ImportFromJson(db: Database, dump: Dump)
    requires db.Valid()
    modifies db`categories, db`tags, db`posts
    ensures db.Valid()
    ensures db.categories == Imported(old(db.categories), CategoryKey, OverwriteCategory, dump.categories)
    ensures db.tags == Imported(old(db.tags), TagKey, OverwriteTag, dump.tags)
    ensures db.posts == Imported(old(db.posts), PostKey, ImportedPost, dump.posts)
  {
    if dump.categories.Some? {
      ImportCategories(db, dump.categories.value);
    }
    if dump.tags.Some? {
      ImportTags(db, dump.tags.value);
    }
    if dump.posts.Some? {
      ImportPosts(db, dump.posts.value);
    }
  }

  /** Importing the same dump twice leaves what importing it once left. */
  lemma ImportTwiceIsImportOnce(cats: seq<Category>, tags: seq<Tag>, posts: seq<Post>, dump: Dump)
    requires DistinctKeys(cats, CategoryKey) && DistinctKeys(tags, TagKey) && DistinctKeys(posts, PostKey)
    ensures var c := Imported(cats, CategoryKey, OverwriteCategory, dump.categories);
      Imported(c, CategoryKey, OverwriteCategory, dump.categories) == c
    ensures var t := Imported(tags, TagKey, OverwriteTag, dump.tags);
      Imported(t, TagKey, OverwriteTag, dump.tags) == t
    ensures var p := Imported(posts, PostKey, ImportedPost, dump.posts);
      Imported(p, PostKey, ImportedPost, dump.posts) == p
  {
    ImportWritesAbsorb();
    if dump.categories.Some? {
      UpsertAllIdempotent(cats, CategoryKey, OverwriteCategory, dump.categories.value);
    }
    if dump.tags.Some? {
      UpsertAllIdempotent(tags, TagKey, OverwriteTag, dump.tags.value);
    }
    if dump.posts.Some? {
      UpsertAllIdempotent(posts, PostKey, ImportedPost, dump.posts.value);
    }
  }

  /** Importing a dump of the current tables into them changes none of them. */
  lemma ReimportChangesNothing(cats: seq<Category>, tags: seq<Tag>, posts: seq<Post>, dump: Dump)
    requires DistinctKeys(cats, CategoryKey) && DistinctKeys(tags, TagKey) && DistinctKeys(posts, PostKey)
    requires dump.categories.Some? ==> dump.categories.value == cats
    requires dump.tags.Some? ==> dump.tags.value == tags
    requires dump.posts.Some? ==> dump.posts.value == posts
    ensures Imported(cats, CategoryKey, OverwriteCategory, dump.categories) == cats
    ensures Imported(tags, TagKey, OverwriteTag, dump.tags) == tags
    ensures Imported(posts, PostKey, ImportedPost, dump.posts) == posts
  {
    ImportWritesAbsorb();
    if dump.categories.Some? {
      UpsertAllSelf(cats, CategoryKey, OverwriteCategory);
    }
    if dump.tags.Some? {
      UpsertAllSelf(tags, TagKey, OverwriteTag);
    }
    if dump.posts.Some? {
      UpsertAllSelf(posts, PostKey, ImportedPost);
    }
  }

  /**
   * Restoring a dump into empty tables gives back its categories and tags as
   * they were, and its posts without any category or tag.
   */
  lemma RestoreIntoEmpty(dump: Dump)
    requires dump.categories.Some? ==> DistinctKeys(dump.categories.value, CategoryKey)
    requires dump.tags.Some? ==> DistinctKeys(dump.tags.value, TagKey)
    requires dump.posts.Some? ==> DistinctKeys(dump.posts.value, PostKey)
    ensures dump.categories.Some? ==> Imported([], CategoryKey, OverwriteCategory, dump.categories) == dump.categories.value
    ensures dump.tags.Some? ==> Imported([], TagKey, OverwriteTag, dump.tags) == dump.tags.value
    ensures dump.posts.Some? ==>
      var ps := dump.posts.value;
      var r := Imported([], PostKey, ImportedPost, dump.posts);
      |r| == |ps| && forall i :: 0 <= i < |ps| ==> r[i] == ps[i].(categoryIds := {}, tagIds := {})
  {
    ImportWritesAbsorb();
    if dump.categories.Some? {
      UpsertAllIntoEmpty(dump.categories.value, CategoryKey, OverwriteCategory);
    }
    if dump.tags.Some? {
      UpsertAllIntoEmpty(dump.tags.value, TagKey, OverwriteTag);
    }
    if dump.posts.Some? {
      UpsertAllIntoEmpty(dump.posts.value, PostKey, ImportedPost);
    }
  }

  // ---------------------------------------------------------------------------
  // exportPostsToCSV
  // ---------------------------------------------------------------------------

  /** A cell as the export writes it: wrapped in double quotes, or as is. */
  datatype Field = Quoted(text: string) | Bare(text: string)

  /** `replace(/"/g, '""')`. */
  function DoubleQuotes(s: string): string
    decreases |s|
  {
    if s == [] then "" else (if s[0] == '"' then "\"\"" else [s[0]]) + DoubleQuotes(s[1..])
  }

  function Encode(f: Field): string {
    match f
    case Quoted(t) => "\"" + DoubleQuotes(t) + "\""
    case Bare(t) => t
  }

  function Cells(fs: seq<Field>): (r: seq<string>)
    ensures |r| == |fs|
    ensures forall i :: 0 <= i < |fs| ==> r[i] == Encode(fs[i])
  {
    seq(|fs|, i requires 0 <= i < |fs| => Encode(fs[i]))
  }

  function Texts(fs: seq<Field>): (r: seq<string>)
    ensures |r| == |fs|
    ensures forall i :: 0 <= i < |fs| ==> r[i] == fs[i].text
  {
    seq(|fs|, i requires 0 <= i < |fs| => fs[i].text)
  }

  /** `row.join(',')`. */
  function Line(fs: seq<Field>): string {
    JoinWith(Cells(fs), ",")
  }

  /** A post as `findMany({ include: { author: { select: { name, email } } } })` returns it. */
  datatype CsvPost = CsvPost(post: Post, authorName: string, authorEmail: string, createdAt: Time, updatedAt: Time)

  const Headers: seq<string> := [
    "ID", "Title", "Slug", "Excerpt", "Published",
    "Published At", "Author Name", "Author Email", "Created At", "Updated At"]

  /** Cells written as is. */
  function Bares(names: seq<string>): (r: seq<Field>)
    ensures |r| == |names|
    ensures forall i :: 0 <= i < |names| ==> r[i] == Bare(names[i])
  {
    seq(|names|, i requires 0 <= i < |names| => Bare(names[i]))
  }

  /** `post.excerpt ? "..." : ''`: a missing or empty excerpt is an empty cell. */
  function ExcerptField(excerpt: Option<string>): Field {
    if excerpt.Some? && excerpt.value != "" then Quoted(excerpt.value) else Bare("")
  }

  function PublishedAtText(p: Post, h: Helpers): string {
    if p.publishedAt.Some? then h.isoString(p.publishedAt.value) else ""
  }

  /**
   * The ten values a row stands for, in header order: the id, title, slug,
   * excerpt (empty when missing), `true`/`false`, the publication instant
   * (empty when missing), the author's name and email, and the timestamps.
   */
  function Values(c: CsvPost, h: Helpers): (r: seq<string>)
    ensures |r| == |Headers|
  {
    [NatToString(c.post.id), c.post.title, c.post.slug,
     if c.post.excerpt.Some? then c.post.excerpt.value else "",
     if c.post.published then "true" else "false",
     PublishedAtText(c.post, h), c.authorName, c.authorEmail,
     h.isoString(c.createdAt), h.isoString(c.updatedAt)]
  }

  /** The row as the service writes it: only the title and excerpt are quoted. */
  function RowAsWritten(c: CsvPost, h: Helpers): (r: seq<Field>)
    ensures Texts(r) == Values(c, h)
  {
    [Bare(NatToString(c.post.id)), Quoted(c.post.title), Bare(c.post.slug),
     ExcerptField(c.post.excerpt), Bare(if c.post.published then "true" else "false"),
     Bare(PublishedAtText(c.post, h)), Bare(c.authorName), Bare(c.authorEmail),
     Bare(h.isoString(c.createdAt)), Bare(h.isoString(c.updatedAt))]
  }

  /** The corrected row: the author's name is quoted as well, so a comma in it stays inside its cell. */
  function Row(c: CsvPost, h: Helpers): (r: seq<Field>)
    ensures Texts(r) == Values(c, h)
  {
    RowAsWritten(c, h)[6 := Quoted(c.authorName)]
  }

  /** `[headers.join(','), ...rows.map(row => row.join(','))]`, with the rows as the service writes them. */
  function CsvLinesAsWritten(posts: seq<CsvPost>, h: Helpers): (r: seq<string>)
    ensures |r| == |posts| + 1 && r[0] == Line(Bares(Headers))
    ensures forall i :: 0 <= i < |posts| ==> r[i + 1] == Line(RowAsWritten(posts[i], h))
  {
    [Line(Bares(Headers))] + RowLinesAsWritten(posts, h)
  }

  function RowLinesAsWritten(posts: seq<CsvPost>, h: Helpers): (r: seq<string>)
    ensures |r| == |posts|
    ensures forall i :: 0 <= i < |posts| ==> r[i] == Line(RowAsWritten(posts[i], h))
  {
    seq(|posts|, i requires 0 <= i < |posts| => Line(RowAsWritten(posts[i], h)))
  }

  /** The file the service writes: its lines joined with `'\n'`. */
  function PostsCsvAsWritten(posts: seq<CsvPost>, h: Helpers): string {
    JoinWith(CsvLinesAsWritten(posts, h), "\n")
  }

  /** The lines of the corrected export, whose rows quote the author's name. */
  function CsvLines(posts: seq<CsvPost>, h: Helpers): (r: seq<string>)
    ensures |r| == |posts| + 1 && r[0] == Line(Bares(Headers))
    ensures forall i :: 0 <= i < |posts| ==> r[i + 1] == Line(Row(posts[i], h))
  {
    [Line(Bares(Headers))] + RowLines(posts, h)
  }

  function RowLines(posts: seq<CsvPost>, h: Helpers): (r: seq<string>)
    ensures |r| == |posts|
    ensures forall i :: 0 <= i < |posts| ==> r[i] == Line(Row(posts[i], h))
  {
    seq(|posts|, i requires 0 <= i < |posts| => Line(Row(posts[i], h)))
  }

  /** The corrected file: its lines joined with `'\n'`. */
  function PostsCsv(posts: seq<CsvPost>, h: Helpers): string {
    JoinWith(CsvLines(posts, h), "\n")
  }

  // ---------------------------------------------------------------------------
  // Reading a record back (section 2 of RFC 4180)
  // ---------------------------------------------------------------------------

  function Prepend(v: string, r: Option<seq<string>>): Option<seq<string>> {
    if r.Some? then Some([v] + r.value) else None
  }

  /**
   * The fields of one record: each is either enclosed in double quotes, where
   * `""` stands for one quote, or holds neither a quote nor a comma. `None`
   * when the text is not a well-formed record.
   */
  function ParseRecord(s: string): Option<seq<string>>
    decreases |s|, 1
  {
    if s != [] && s[0] == '"' then ParseQuoted(s[1..], "") else ParseBare(s, "")
  }

  /** The rest of a record inside an unquoted field holding `acc` so far. */
  function ParseBare(s: string, acc: string): Option<seq<string>>
    decreases |s|, 0
  {
    if s == [] then Some([acc])
    else if s[0] == ',' then Prepend(acc, ParseRecord(s[1..]))
    else if s[0] == '"' then None
    else ParseBare(s[1..], acc + [s[0]])
  }

  /** The rest of a record inside a quoted field holding `acc` so far. */
  function ParseQuoted(s: string, acc: string): Option<seq<string>>
    decreases |s|, 0
  {
    if s == [] then None
    else if s[0] != '"' then ParseQuoted(s[1..], acc + [s[0]])
    else if |s| > 1 && s[1] == '"' then ParseQuoted(s[2..], acc + ['"'])
    else if |s| == 1 then Some([acc])
    else if s[1] == ',' then Prepend(acc, ParseRecord(s[2..]))
    else None
  }

  predicate BareSafe(s: string) {
    ',' !in s && '"' !in s
  }

  /** A cell reads back as its value: quoted ones always, bare ones without commas or quotes. */
  predicate ReadsBack(f: Field) {
    f.Quoted? || BareSafe(f.text)
  }

  lemma {:induction false} ParseBareText(v: string, t: string, acc: string)
    requires BareSafe(v)
    ensures ParseBare(v + t, acc) == ParseBare(t, acc + v)
    decreases |v|
  {
    if v != [] {
      assert v[0] in v;
      assert (v + t)[1..] == v[1..] + t;
      assert ParseBare(v + t, acc) == ParseBare(v[1..] + t, acc + [v[0]]);
      ParseBareText(v[1..], t, acc + [v[0]]);
      assert acc + [v[0]] + v[1..] == acc + v;
    } else {
      assert v + t == t && acc + v == acc;
    }
  }

  lemma {:induction false} ParseQuotedText(v: string, t: string, acc: string)
    ensures ParseQuoted(DoubleQuotes(v) + t, acc) == ParseQuoted(t, acc + v)
    decreases |v|
  {
    if v != [] {
      var e := DoubleQuotes(v[1..]);
      ParseQuotedText(v[1..], t, acc + [v[0]]);
      if v[0] == '"' {
        var s := "\"\"" + e + t;
        assert DoubleQuotes(v) + t == s;
        assert s[2..] == e + t;
        assert ParseQuoted(s, acc) == ParseQuoted(e + t, acc + [v[0]]);
      } else {
        var s := [v[0]] + e + t;
        assert DoubleQuotes(v) + t == s;
        assert s[1..] == e + t;
        assert ParseQuoted(s, acc) == ParseQuoted(e + t, acc + [v[0]]);
      }
      assert acc + [v[0]] + v[1..] == acc + v;
    } else {
      assert DoubleQuotes(v) + t == t && acc + v == acc;
    }
  }

  /** A quoted cell alone reads back as its text. */
  lemma QuotedCellAlone(t: string)
    ensures ParseRecord(Encode(Quoted(t))) == Some([t])
  {
    var e := Encode(Quoted(t));
    assert e[0] == '"' && e[1..] == DoubleQuotes(t) + "\"";
    ParseQuotedText(t, "\"", "");
    assert "" + t == t;
  }

  /** A quoted cell before more cells reads back as its text. */
  lemma QuotedCellBeforeMore(t: string, rest: string)
    ensures ParseRecord(Encode(Quoted(t)) + "," + rest) == Prepend(t, ParseRecord(rest))
  {
    var s := Encode(Quoted(t)) + "," + rest;
    var tail := "\"," + rest;
    assert s[0] == '"' && s[1..] == DoubleQuotes(t) + tail;
    ParseQuotedText(t, tail, "");
    assert "" + t == t;
    assert tail[2..] == rest;
  }

  /** A bare cell with text before more cells reads back as its text. */
  lemma BareCellBeforeMore(t: string, rest: string)
    requires BareSafe(t) && t != []
    ensures ParseRecord(t + "," + rest) == Prepend(t, ParseRecord(rest))
  {
    var s := t + ("," + rest);
    assert t + "," + rest == s;
    assert t[0] in t;
    assert s[0] == t[0] && ParseRecord(s) == ParseBare(s, "");
    ParseBareText(t, "," + rest, "");
    assert "" + t == t;
    assert ("," + rest)[1..] == rest;
  }

  /** A bare cell alone reads back as its text. */
  lemma BareCellAlone(t: string)
    requires BareSafe(t)
    ensures ParseRecord(t) == Some([t])
  {
    if t != [] {
      assert t[0] in t;
      assert ParseRecord(t) == ParseBare(t, "");
      ParseBareText(t, "", "");
      assert t + "" == t && "" + t == t;
    }
  }

  /** One cell, alone or followed by a comma and more of the record, reads back as its value. */
  lemma FieldReadsBack(f: Field, rest: string)
    requires ReadsBack(f)
    ensures ParseRecord(Encode(f)) == Some([f.text])
    ensures ParseRecord(Encode(f) + "," + rest) == Prepend(f.text, ParseRecord(rest))
  {
    match f
    case Quoted(t) =>
      QuotedCellAlone(t);
      QuotedCellBeforeMore(t, rest);
    case Bare(t) =>
      BareCellAlone(t);
      if t == [] {
        assert Encode(f) + "," + rest == "," + rest;
        assert ("," + rest)[1..] == rest;
      } else {
        BareCellBeforeMore(t, rest);
      }
  }

  /**
   * The excerpt cell is empty exactly when the excerpt is missing or empty,
   * and otherwise reads back as the excerpt, whatever quotes it holds.
   */
  lemma ExcerptCellReadsBack(excerpt: Option<string>)
    ensures Encode(ExcerptField(excerpt)) == "" <==> excerpt.None? || excerpt.value == ""
    ensures ParseRecord(Encode(ExcerptField(excerpt))) == Some([if excerpt.Some? then excerpt.value else ""])
  {
    FieldReadsBack(ExcerptField(excerpt), "");
  }

  /** A row whose cells all read back parses into exactly their values. */
  lemma {:induction false} LineReadsBack(fs: seq<Field>)
    requires fs != []
    requires forall i :: 0 <= i < |fs| ==> ReadsBack(fs[i])
    ensures ParseRecord(Line(fs)) == Some(Texts(fs))
    decreases |fs|
  {
    if |fs| == 1 {
      FieldReadsBack(fs[0], "");
      assert Texts(fs) == [fs[0].text];
    } else {
      LineReadsBack(fs[1..]);
      assert Cells(fs)[1..] == Cells(fs[1..]);
      FieldReadsBack(fs[0], Line(fs[1..]));
      assert Texts(fs) == [fs[0].text] + Texts(fs[1..]);
    }
  }

  // ---------------------------------------------------------------------------
  // What the export promises a reader
  // ---------------------------------------------------------------------------

  /** No comma, quote or line break. */
  predicate Plain(s: string) {
    forall i :: 0 <= i < |s| ==> s[i] != ',' && s[i] != '"' && s[i] != '\n'
  }

  lemma HeadersArePlain()
    ensures forall i :: 0 <= i < |Headers| ==> Plain(Headers[i])
  {
    assert Plain("ID"); assert Plain("Title"); assert Plain("Slug");
    assert Plain("Excerpt"); assert Plain("Published"); assert Plain("Published At");
    assert Plain("Author Name"); assert Plain("Author Email");
    assert Plain("Created At"); assert Plain("Updated At");
  }

  /** The header line reads back as the ten column names, and holds no line break. */
  lemma HeaderReadsBack()
    ensures ParseRecord(Line(Bares(Headers))) == Some(Headers)
    ensures '\n' !in Line(Bares(Headers))
  {
    var fs := Bares(Headers);
    HeadersArePlain();
    LineReadsBack(fs);
    assert Texts(fs) == Headers;
    JoinWithAvoids(Cells(fs), ",", '\n');
  }

  lemma {:induction false} DigitsAreBareSafe(s: string)
    requires forall i :: 0 <= i < |s| ==> IsDigit(s[i])
    ensures BareSafe(s)
  {
  }

  /**
   * What a post needs for its row to read back: the cells written bare hold
   * no comma or quote, and no value holds a line break.
   */
  predicate Exportable(c: CsvPost, h: Helpers) {
    && BareSafe(c.post.slug)
    && BareSafe(PublishedAtText(c.post, h))
    && BareSafe(c.authorEmail)
    && BareSafe(h.isoString(c.createdAt))
    && BareSafe(h.isoString(c.updatedAt))
    && forall v :: v in Values(c, h) ==> '\n' !in v
  }

  /** Every cell but the author's name reads back as written. */
  lemma AsWrittenCellsReadBack(c: CsvPost, h: Helpers)
    requires Exportable(c, h)
    ensures forall i :: 0 <= i < |RowAsWritten(c, h)| && i != 6 ==> ReadsBack(RowAsWritten(c, h)[i])
  {
    DigitsAreBareSafe(NatToString(c.post.id));
  }

  lemma RowCellsReadBack(c: CsvPost, h: Helpers)
    requires Exportable(c, h)
    ensures forall i :: 0 <= i < |Row(c, h)| ==> ReadsBack(Row(c, h)[i])
  {
    AsWrittenCellsReadBack(c, h);
  }

  /** The row of a post reads back, per RFC 4180, as exactly its ten values. */
  lemma RowReadsBack(c: CsvPost, h: Helpers)
    requires Exportable(c, h)
    ensures ParseRecord(Line(Row(c, h))) == Some(Values(c, h))
  {
    RowCellsReadBack(c, h);
    LineReadsBack(Row(c, h));
  }

  /** A comma inside a part reads the same as a comma between two parts. */
  lemma JoinCommaInPart(a: string, b: string, rest: seq<string>)
    requires rest != []
    ensures JoinWith([a + "," + b] + rest, ",") == JoinWith([a, b] + rest, ",")
  {
    var x, y := [a + "," + b] + rest, [a, b] + rest;
    assert x[1..] == rest;
    assert y[1..] == [b] + rest;
    assert ([b] + rest)[1..] == rest;
    assert JoinWith(y, ",") == a + "," + (b + "," + JoinWith(rest, ","));
  }

  /** Cutting a bare cell at a comma into two cells leaves the line as it was. */
  lemma SplitBareCell(p: seq<Field>, a: string, b: string, q: seq<Field>)
    requires p != [] && q != []
    ensures Line(p + [Bare(a + "," + b)] + q) == Line(p + [Bare(a), Bare(b)] + q)
  {
    var cp, cq := Cells(p), Cells(q);
    var x, y := [a + "," + b] + cq, [a, b] + cq;
    assert Cells(p + [Bare(a + "," + b)] + q) == cp + x;
    assert Cells(p + [Bare(a), Bare(b)] + q) == cp + y;
    JoinWithAppend(cp, x, ",");
    JoinWithAppend(cp, y, ",");
    JoinCommaInPart(a, b, cq);
  }

  /** Each cell of the row read as the parser sees it, with the name split in two, reads back. */
  lemma SplitRowCellsReadBack(c: CsvPost, h: Helpers, a: string, b: string)
    requires Exportable(c, h)
    requires c.authorName == a + "," + b && BareSafe(a) && BareSafe(b)
    ensures var fs := RowAsWritten(c, h);
      var gs := fs[..6] + [Bare(a), Bare(b)] + fs[7..];
      forall i :: 0 <= i < |gs| ==> ReadsBack(gs[i])
  {
    var fs := RowAsWritten(c, h);
    var gs := fs[..6] + [Bare(a), Bare(b)] + fs[7..];
    AsWrittenCellsReadBack(c, h);
    forall i | 0 <= i < |gs| ensures ReadsBack(gs[i]) {
      if i < 6 {
        assert gs[i] == fs[i];
      } else if i > 7 {
        assert gs[i] == fs[i - 1];
      }
    }
  }

  /**
   * As written, the author's name goes out unquoted: a name with a comma in
   * it reads back as two values, and the row as eleven.
   */
  lemma AuthorNameWithCommaSplits(c: CsvPost, h: Helpers, a: string, b: string)
    requires Exportable(c, h)
    requires c.authorName == a + "," + b && BareSafe(a) && BareSafe(b)
    ensures var v := Values(c, h);
      ParseRecord(Line(RowAsWritten(c, h))) == Some(v[..6] + [a, b] + v[7..])
    ensures ParseRecord(Line(RowAsWritten(c, h))) != Some(Values(c, h))
  {
    var fs := RowAsWritten(c, h);
    var p, q := fs[..6], fs[7..];
    assert fs == p + [Bare(a + "," + b)] + q;
    SplitBareCell(p, a, b, q);
    var gs := p + [Bare(a), Bare(b)] + q;
    SplitRowCellsReadBack(c, h, a, b);
    LineReadsBack(gs);
    var v := Values(c, h);
    assert Texts(gs) == v[..6] + [a, b] + v[7..];
  }

  /** `text.split(c)`. */
  function SplitOn(s: string, c: char): seq<string>
    decreases |s|
  {
    var k := FirstIndexOf(s, c);
    if k == |s| then [s] else [s[..k]] + SplitOn(s[k + 1..], c)
  }

  /** Splitting at `c` undoes joining with `c` parts that hold no `c`. */
  lemma {:induction false} SplitOnJoin(parts: seq<string>, c: char)
    requires parts != []
    requires forall i :: 0 <= i < |parts| ==> c !in parts[i]
    ensures SplitOn(JoinWith(parts, [c]), c) == parts
    decreases |parts|
  {
    if |parts| == 1 {
      FirstIndexAbsent(parts[0], c);
    } else {
      var rest := JoinWith(parts[1..], [c]);
      var s := parts[0] + [c] + rest;
      FirstIndexAfter(parts[0], rest, c);
      assert s[..|parts[0]|] == parts[0];
      assert s[|parts[0]| + 1..] == rest;
      SplitOnJoin(parts[1..], c);
    }
  }

  lemma {:induction false} DoubleQuotesAvoids(s: string, c: char)
    requires c != '"' && c !in s
    ensures c !in DoubleQuotes(s)
    decreases |s|
  {
    if s != [] {
      DoubleQuotesAvoids(s[1..], c);
    }
  }

  /** A row standing for the values of an exportable post holds no line break. */
  lemma RowHasNoLineBreak(fs: seq<Field>, c: CsvPost, h: Helpers)
    requires Exportable(c, h) && Texts(fs) == Values(c, h)
    ensures '\n' !in Line(fs)
  {
    forall i | 0 <= i < |fs| ensures '\n' !in Cells(fs)[i] {
      assert fs[i].text == Values(c, h)[i];
      DoubleQuotesAvoids(fs[i].text, '\n');
    }
    JoinWithAvoids(Cells(fs), ",", '\n');
  }

  /**
   * Lines after the header, each free of line breaks and reading back as its
   * post's values, make a file that splits back into exactly those lines.
   */
  lemma {:induction false} LinesReadBack(all: seq<string>, posts: seq<CsvPost>, h: Helpers)
    requires |all| == |posts| + 1 && all[0] == Line(Bares(Headers))
    requires forall i :: 0 <= i < |posts| ==>
      '\n' !in all[i + 1] && ParseRecord(all[i + 1]) == Some(Values(posts[i], h))
    ensures var lines := SplitOn(JoinWith(all, "\n"), '\n');
      && |lines| == |posts| + 1
      && ParseRecord(lines[0]) == Some(Headers)
      && forall i :: 0 <= i < |posts| ==> ParseRecord(lines[i + 1]) == Some(Values(posts[i], h))
  {
    HeaderReadsBack();
    forall i | 0 <= i < |all| ensures '\n' !in all[i] {
      if i > 0 {
        var j := i - 1;
        assert ParseRecord(all[j + 1]) == Some(Values(posts[j], h));
      }
    }
    assert "\n" == ['\n'];
    SplitOnJoin(all, '\n');
  }

  /**
   * The corrected export: split at line breaks, the file is the header and
   * then one row per post, in table order, and each line reads back as the
   * header names or as that post's ten values.
   */
  lemma CsvReadsBack(posts: seq<CsvPost>, h: Helpers)
    requires forall i :: 0 <= i < |posts| ==> Exportable(posts[i], h)
    ensures var lines := SplitOn(PostsCsv(posts, h), '\n');
      && |lines| == |posts| + 1
      && ParseRecord(lines[0]) == Some(Headers)
      && forall i :: 0 <= i < |posts| ==> ParseRecord(lines[i + 1]) == Some(Values(posts[i], h))
  {
    var all := CsvLines(posts, h);
    forall i | 0 <= i < |posts|
      ensures '\n' !in all[i + 1] && ParseRecord(all[i + 1]) == Some(Values(posts[i], h))
    {
      RowHasNoLineBreak(Row(posts[i], h), posts[i], h);
      RowReadsBack(posts[i], h);
    }
    LinesReadBack(all, posts, h);
  }

  /** As written, a row reads back as its post's values when the author's name needs no quoting. */
  lemma RowAsWrittenReadsBack(c: CsvPost, h: Helpers)
    requires Exportable(c, h) && BareSafe(c.authorName)
    ensures ParseRecord(Line(RowAsWritten(c, h))) == Some(Values(c, h))
  {
    AsWrittenCellsReadBack(c, h);
    LineReadsBack(RowAsWritten(c, h));
  }

  /**
   * `exportPostsToCSV` as written: the file reads back as the header and each
   * post's ten values provided no author's name holds a comma or a quote
   * (`AuthorNameWithCommaSplits` shows a name with a comma breaking its line).
   */
  lemma CsvAsWrittenReadsBack(posts: seq<CsvPost>, h: Helpers)
    requires forall i :: 0 <= i < |posts| ==> Exportable(posts[i], h) && BareSafe(posts[i].authorName)
    ensures var lines := SplitOn(PostsCsvAsWritten(posts, h), '\n');
      && |lines| == |posts| + 1
      && ParseRecord(lines[0]) == Some(Headers)
      && forall i :: 0 <= i < |posts| ==> ParseRecord(lines[i + 1]) == Some(Values(posts[i], h))
  {
    var all := CsvLinesAsWritten(posts, h);
    forall i | 0 <= i < |posts|
      ensures '\n' !in all[i + 1] && ParseRecord(all[i + 1]) == Some(Values(posts[i], h))
    {
      RowHasNoLineBreak(RowAsWritten(posts[i], h), posts[i], h);
      RowAsWrittenReadsBack(posts[i], h);
    }
    LinesReadBack(all, posts, h);
  }
}
