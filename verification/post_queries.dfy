/**
 * The read side shared by both post services: the listing filter, the
 * newest-first paged listing, the reordering of ranked search hits and the
 * substring search used when ranked search is unavailable.
 */
module PostQueries {
  import opened Common
  import opened Tables
  import opened Store

  /** Listings and searches default to ten posts per page. */
  const DefaultPostLimit: nat := 10

  /** The optional `published`, `authorId` and `categoryId` conditions. */
  datatype PostFilter = PostFilter(published: Option<bool>, authorId: Option<Id>, categoryId: Option<Id>)

  predicate Matches(f: PostFilter, p: Post) {
    && (f.published.Some? ==> p.published == f.published.value)
    && (f.authorId.Some? ==> p.authorId == f.authorId.value)
    && (f.categoryId.Some? ==> f.categoryId.value in p.categoryIds)
  }

  function MatchesFilter(f: PostFilter): Post -> bool {
    p => Matches(f, p)
  }

  predicate IsUnfiltered(f: PostFilter) {
    f.published.None? && f.authorId.None? && f.categoryId.None?
  }

  /** `getAllPosts`' query: the matching posts, newest first, one page of them. */
  function ListPosts(posts: seq<Post>, f: PostFilter, page: nat, limit: nat): (r: Page<Post>)
    ensures r.pagination.total == |Filter(posts, MatchesFilter(f))|
    ensures forall x :: x in r.items ==> x in posts && Matches(f, x)
    ensures |r.items| <= r.pagination.limit && r.pagination.limit > 0
    ensures IsPage(r, Reverse(Filter(posts, MatchesFilter(f))), page, limit, DefaultPostLimit)
  {
    var rows := NewestFirst(posts, MatchesFilter(f));
    var r := Paginate(rows, page, limit, DefaultPostLimit);
    assert forall x :: x in r.items ==> x in rows;
    r
  }

  /** With no condition, every post matches. */
  lemma UnfilteredListsAll(posts: seq<Post>, f: PostFilter)
    requires IsUnfiltered(f)
    ensures Filter(posts, MatchesFilter(f)) == posts
  {
    FilterAll(posts, MatchesFilter(f));
  }

  // ---------------------------------------------------------------------------
  // Search
  // ---------------------------------------------------------------------------

  datatype SearchResult = SearchResult(posts: seq<Post>, query: string, pagination: Pagination)

  /**
   * What the ranked full-text query answers: the ids of one page of hits in
   * rank order, and the number of hits in all. When the query itself fails
   * the oracle is absent and the service falls back to substring search.
   */
  datatype RankedHits = RankedHits(ids: seq<Id>, count: nat)

  function Ids(s: seq<Post>): (r: seq<Id>)
    ensures |r| == |s| && forall i :: 0 <= i < |s| ==> r[i] == s[i].id
  {
    seq(|s|, i requires 0 <= i < |s| => s[i].id)
  }

  function Found(posts: seq<Post>): Id -> bool {
    (id: Id) => HasKey(posts, PostKey, id)
  }

  /**
   * `postIds.map(id => posts.find(p => p.id === id)).filter(Boolean)`: the
   * posts in the order of the ranked ids, ids without a post dropped.
   */
  function RankedPosts(posts: seq<Post>, ids: seq<Id>): (r: seq<Post>)
    ensures |r| <= |ids|
    ensures forall x :: x in r ==> x in posts && x.id in ids
  {
    if ids == [] then []
    else
      var rest := RankedPosts(posts, ids[1..]);
      match IndexOf(posts, PostKey, ids[0])
      case Some(i) => [posts[i]] + rest
      case None => rest
  }

  /** The ids of a row followed by more rows. */
  lemma IdsCons(x: Post, rest: seq<Post>)
    ensures Ids([x] + rest) == [x.id] + Ids(rest)
  {
  }

  /** The ranked posts carry exactly the ranked ids that have a post, in rank order. */
  lemma {:induction false} RankedPostsFollowIds(posts: seq<Post>, ids: seq<Id>)
    ensures Ids(RankedPosts(posts, ids)) == Filter(ids, Found(posts))
  {
    if ids != [] {
      RankedPostsFollowIds(posts, ids[1..]);
      var rest := RankedPosts(posts, ids[1..]);
      var at := IndexOf(posts, PostKey, ids[0]);
      if at.Some? {
        var x := posts[at.value];
        assert RankedPosts(posts, ids) == [x] + rest;
        assert Found(posts)(ids[0]);
        assert Filter(ids, Found(posts)) == [ids[0]] + Filter(ids[1..], Found(posts));
        IdsCons(x, rest);
      } else {
        assert RankedPosts(posts, ids) == rest;
        assert !Found(posts)(ids[0]);
        assert Filter(ids, Found(posts)) == Filter(ids[1..], Found(posts));
      }
    }
  }

  /** The fallback's condition: the query in the title, content or excerpt, ignoring case. */
  predicate TextMatches(q: string, p: Post) {
    || Contains(Lower(p.title), Lower(q))
    || Contains(Lower(p.content), Lower(q))
    || (p.excerpt.Some? && Contains(Lower(p.excerpt.value), Lower(q)))
  }

  function SearchFilter(q: string, f: PostFilter): Post -> bool {
    p => TextMatches(q, p) && Matches(f, p)
  }

  /** The ranked path's result once the hits are known (`postIds.length > 0`). */
  function RankedResult(posts: seq<Post>, q: string, page: nat, limit: nat, hits: RankedHits): (r: SearchResult)
    ensures r.query == q
    ensures r.pagination.page == ResolvePage(page) && r.pagination.limit == ResolveLimit(limit, DefaultPostLimit)
    ensures hits.ids == [] ==> r.posts == [] && r.pagination.total == 0 && r.pagination.totalPages == 0
    ensures hits.ids != [] ==>
      Ids(r.posts) == Filter(hits.ids, Found(posts)) && r.pagination.total == hits.count
    ensures hits.ids != [] ==> LeastCover(r.pagination.totalPages, hits.count, r.pagination.limit)
  {
    RankedPostsFollowIds(posts, hits.ids);
    var p := ResolvePage(page);
    var l := ResolveLimit(limit, DefaultPostLimit);
    if hits.ids == [] then SearchResult([], q, Pagination(p, l, 0, 0))
    else SearchResult(RankedPosts(posts, hits.ids), q, MakePagination(p, l, hits.count))
  }

  /** With ranked hits, the page count is `Math.ceil(count / limit)`. */
  lemma RankedPageCountIsCeil(posts: seq<Post>, q: string, page: nat, limit: nat, hits: RankedHits)
    requires hits.ids != []
    ensures var r := RankedResult(posts, q, page, limit, hits);
      r.pagination.totalPages == CeilDiv(hits.count, ResolveLimit(limit, DefaultPostLimit))
  {
    var r := RankedResult(posts, q, page, limit, hits);
    var l := ResolveLimit(limit, DefaultPostLimit);
    CeilDivIsLeastCover(hits.count, l);
    LeastCoverUnique(hits.count, l, r.pagination.totalPages, CeilDiv(hits.count, l));
  }

  /** The fallback path: substring matches that pass the filter, newest first, one page. */
  function FallbackResult(posts: seq<Post>, q: string, page: nat, limit: nat, f: PostFilter): (r: SearchResult)
    ensures r.query == q
    ensures r.pagination.page == ResolvePage(page) && r.pagination.limit == ResolveLimit(limit, DefaultPostLimit)
    ensures forall x :: x in r.posts ==> x in posts && TextMatches(q, x) && Matches(f, x)
    ensures IsPage(Page(r.posts, r.pagination), Reverse(Filter(posts, SearchFilter(q, f))), page, limit, DefaultPostLimit)
  {
    var rows := NewestFirst(posts, SearchFilter(q, f));
    var pg := Paginate(rows, page, limit, DefaultPostLimit);
    assert forall x :: x in pg.items ==> x in rows;
    SearchResult(pg.items, q, pg.pagination)
  }

  /**
   * `searchPosts` without its cache: an empty or blank query is refused, the
   * query is trimmed, ranked hits are used when the ranked query answers and
   * the substring fallback otherwise.
   */
  function Search(posts: seq<Post>, query: string, page: nat, limit: nat, f: PostFilter, oracle: Option<RankedHits>)
    : (r: Result<SearchResult>)
    ensures r.Err? <==> forall i :: 0 <= i < |query| ==> IsJsSpace(query[i])
    ensures r.Err? ==> r.message == "Search query is required"
    ensures r.Ok? ==> r.value.query == Trim(query) && r.value.query != []
    ensures r.Ok? ==> r.value.pagination.page == ResolvePage(page)
    ensures r.Ok? ==> r.value.pagination.limit == ResolveLimit(limit, DefaultPostLimit)
    ensures r.Ok? && oracle.Some? && oracle.value.ids == [] ==>
      r.value.posts == [] && r.value.pagination.total == 0 && r.value.pagination.totalPages == 0
    ensures r.Ok? && oracle.Some? && oracle.value.ids != [] ==>
      Ids(r.value.posts) == Filter(oracle.value.ids, Found(posts)) &&
      r.value.pagination.total == oracle.value.count
    ensures r.Ok? && oracle.Some? && oracle.value.ids != [] ==>
      LeastCover(r.value.pagination.totalPages, oracle.value.count, r.value.pagination.limit)
    ensures r.Ok? && oracle.None? ==>
      forall x :: x in r.value.posts ==> x in posts && TextMatches(Trim(query), x) && Matches(f, x)
    ensures r.Ok? && oracle.None? ==>
      IsPage(Page(r.value.posts, r.value.pagination), Reverse(Filter(posts, SearchFilter(Trim(query), f))),
        page, limit, DefaultPostLimit)
  {
    TrimEmptyIffAllSpace(query);
    var q := Trim(query);
    if q == [] then Err("Search query is required")
    else if oracle.Some? then Ok(RankedResult(posts, q, page, limit, oracle.value))
    else Ok(FallbackResult(posts, q, page, limit, f))
  }

  /** Zero ranked hits report no pages, whatever the count query said. */
  lemma ZeroHitsReportNothing(posts: seq<Post>, query: string, page: nat, limit: nat, f: PostFilter, count: nat)
    requires Trim(query) != []
    ensures var r := Search(posts, query, page, limit, f, Some(RankedHits([], count)));
      r.Ok? && r.value.posts == [] && r.value.pagination.total == 0 && r.value.pagination.totalPages == 0
  {
    TrimEmptyIffAllSpace(query);
  }
}
