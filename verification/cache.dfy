/**
 * The optional key-value cache in front of the read paths. When no backend is
 * configured the service is disabled: reads miss and writes do nothing. When
 * the backend fails, the error is swallowed the same way. Entries expire after
 * a time-to-live, which this model does not track.
 */
module Cache {
  import opened Common

  // ---------------------------------------------------------------------------
  // Key builders and their namespaces
  // ---------------------------------------------------------------------------

  function PostKey(slug: string): string {
    "post:" + slug
  }

  function PostsKey(page: nat, limit: nat): string {
    "posts:page:" + NatToString(page) + ":limit:" + NatToString(limit)
  }

  function CategoryKey(slug: string): string {
    "category:" + slug
  }

  function SearchKey(query: string, page: nat): string {
    "search:" + query + ":page:" + NatToString(page)
  }

  /** The prefix of the listing keys, deleted in bulk by the pattern `posts:*`. */
  const PostsNamespace: string := "posts:"

  /** The prefix of the search keys, deleted in bulk by the pattern `search:*`. */
  const SearchNamespace: string := "search:"

  /** Each builder lands in its own namespace, and `post:` keys are not in `posts:`. */
  lemma KeyNamespaces(slug: string, page: nat, limit: nat, query: string)
    ensures StartsWith(PostsKey(page, limit), PostsNamespace)
    ensures StartsWith(SearchKey(query, page), SearchNamespace)
    ensures !StartsWith(PostKey(slug), PostsNamespace) && !StartsWith(PostKey(slug), SearchNamespace)
    ensures !StartsWith(CategoryKey(slug), PostsNamespace) && !StartsWith(CategoryKey(slug), SearchNamespace)
    ensures !StartsWith(PostsKey(page, limit), SearchNamespace)
    ensures !StartsWith(SearchKey(query, page), PostsNamespace)
  {
    assert PostKey(slug)[4] == ':';
    assert PostsKey(page, limit)[..6] == PostsNamespace;
    assert SearchKey(query, page)[..7] == SearchNamespace;
    assert CategoryKey(slug)[0] == 'c';
  }

  lemma PostKeyInjective(a: string, b: string)
    requires PostKey(a) == PostKey(b)
    ensures a == b
  {
    assert a == PostKey(a)[5..];
  }

  lemma CategoryKeyInjective(a: string, b: string)
    requires CategoryKey(a) == CategoryKey(b)
    ensures a == b
  {
    assert a == CategoryKey(a)[9..];
  }

  lemma NoColonInNumber(n: nat)
    ensures ':' !in NatToString(n)
  {
    var s := NatToString(n);
    assert forall i :: 0 <= i < |s| ==> s[i] != ':';
  }

  /** Distinct pages or limits never share a listing key. */
  lemma PostsKeyInjective(p1: nat, l1: nat, p2: nat, l2: nat)
    requires PostsKey(p1, l1) == PostsKey(p2, l2)
    ensures p1 == p2 && l1 == l2
  {
    NoColonInNumber(l1);
    NoColonInNumber(l2);
    var a1 := "posts:page:" + NatToString(p1) + ":limit";
    var a2 := "posts:page:" + NatToString(p2) + ":limit";
    assert PostsKey(p1, l1) == a1 + [':'] + NatToString(l1);
    assert PostsKey(p2, l2) == a2 + [':'] + NatToString(l2);
    SplitAtLast(a1, NatToString(l1), a2, NatToString(l2), ':');
    assert NatToString(p1) == a1[11..|a1| - 6] == a2[11..|a2| - 6] == NatToString(p2);
    NatToStringInjective(p1, p2);
    NatToStringInjective(l1, l2);
  }

  /** Distinct queries or pages never share a search key, whatever the query contains. */
  lemma SearchKeyInjective(q1: string, p1: nat, q2: string, p2: nat)
    requires SearchKey(q1, p1) == SearchKey(q2, p2)
    ensures q1 == q2 && p1 == p2
  {
    NoColonInNumber(p1);
    NoColonInNumber(p2);
    var a1 := "search:" + q1 + ":page";
    var a2 := "search:" + q2 + ":page";
    assert SearchKey(q1, p1) == a1 + [':'] + NatToString(p1);
    assert SearchKey(q2, p2) == a2 + [':'] + NatToString(p2);
    SplitAtLast(a1, NatToString(p1), a2, NatToString(p2), ':');
    assert q1 == a1[7..|a1| - 5] == a2[7..|a2| - 5] == q2;
    NatToStringInjective(p1, p2);
  }

  // ---------------------------------------------------------------------------
  // What the deletions do to the stored entries
  // ---------------------------------------------------------------------------

  /** The entries left after `KEYS prefix*` and `DEL` of every key found. */
  function WithoutPrefix<V>(m: map<string, V>, prefix: string): (r: map<string, V>)
    ensures forall k :: k in r <==> k in m && !StartsWith(k, prefix)
    ensures forall k :: k in r ==> r[k] == m[k]
  {
    map k | k in m && !StartsWith(k, prefix) :: m[k]
  }

  /** `invalidatePost(slug)`: the post's own entry and both bulk namespaces go. */
  function InvalidatedPost<V>(m: map<string, V>, slug: string): (r: map<string, V>)
    ensures forall k :: k in r <==>
      k in m && k != PostKey(slug) && !StartsWith(k, PostsNamespace) && !StartsWith(k, SearchNamespace)
    ensures forall k :: k in r ==> r[k] == m[k]
  {
    WithoutPrefix(WithoutPrefix(m - {PostKey(slug)}, PostsNamespace), SearchNamespace)
  }

  /** `invalidatePosts()`: both bulk namespaces go; single-post entries stay. */
  function InvalidatedPosts<V>(m: map<string, V>): (r: map<string, V>)
    ensures forall k :: k in r <==> k in m && !StartsWith(k, PostsNamespace) && !StartsWith(k, SearchNamespace)
    ensures forall k :: k in r ==> r[k] == m[k]
  {
    WithoutPrefix(WithoutPrefix(m, PostsNamespace), SearchNamespace)
  }

  /** `invalidateCategory(slug)`: the category's entry and the listings go; searches stay. */
  function InvalidatedCategory<V>(m: map<string, V>, slug: string): (r: map<string, V>)
    ensures forall k :: k in r <==> k in m && k != CategoryKey(slug) && !StartsWith(k, PostsNamespace)
    ensures forall k :: k in r ==> r[k] == m[k]
  {
    WithoutPrefix(m - {CategoryKey(slug)}, PostsNamespace)
  }

  /** `for (const post of posts) await invalidatePost(post.slug)`, in list order. */
  function InvalidatedEach<V>(m: map<string, V>, slugs: seq<string>): map<string, V>
  {
    if slugs == [] then m else InvalidatedPost(InvalidatedEach(m, slugs[..|slugs| - 1]), slugs[|slugs| - 1])
  }

  /** The cache keys of the listed posts' own entries. */
  function PostKeys(slugs: seq<string>): (r: set<string>)
    ensures forall slug :: slug in slugs ==> PostKey(slug) in r
    ensures forall k :: k in r ==> exists slug :: slug in slugs && k == PostKey(slug)
  {
    set slug | slug in slugs :: PostKey(slug)
  }

  /**
   * After invalidating a list of posts: every listed post's entry is gone,
   * both bulk namespaces are gone unless the list is empty, and every other
   * entry is kept with its value.
   */
  lemma {:induction false} InvalidatedEachKeys<V>(m: map<string, V>, slugs: seq<string>)
    ensures var r := InvalidatedEach(m, slugs);
      && (forall k :: k in r <==>
           && k in m
           && k !in PostKeys(slugs)
           && (slugs != [] ==> !StartsWith(k, PostsNamespace) && !StartsWith(k, SearchNamespace)))
      && (forall k :: k in r ==> r[k] == m[k])
  {
    if slugs != [] {
      var init, last := slugs[..|slugs| - 1], slugs[|slugs| - 1];
      InvalidatedEachKeys(m, init);
      assert slugs == init + [last];
      assert PostKeys(slugs) == PostKeys(init) + {PostKey(last)};
    }
  }

  /** Invalidating one more post extends the fold by one step. */
  lemma InvalidatedEachSnoc<V>(m: map<string, V>, slugs: seq<string>, slug: string)
    ensures InvalidatedEach(m, slugs + [slug]) == InvalidatedPost(InvalidatedEach(m, slugs), slug)
  {
    assert (slugs + [slug])[..|slugs|] == slugs;
  }

  /** `invalidatePosts()` right after `invalidatePost(slug)` removes nothing more. */
  lemma InvalidatedPostsAfterPost<V>(m: map<string, V>, slug: string)
    ensures InvalidatedPosts(InvalidatedPost(m, slug)) == InvalidatedPost(m, slug)
  {
  }

  /**
   * The coarse-grained consequences: after `invalidatePosts` every cached
   * single post is still there, while every listing and search page is gone;
   * `invalidateCategory` keeps search pages.
   */
  lemma InvalidationScope<V>(m: map<string, V>, slug: string, other: string, page: nat, limit: nat, query: string)
    ensures PostKey(other) in m ==> PostKey(other) in InvalidatedPosts(m)
    ensures PostsKey(page, limit) !in InvalidatedPosts(m) && SearchKey(query, page) !in InvalidatedPosts(m)
    ensures PostKey(slug) !in InvalidatedPost(m, slug)
    ensures other != slug && PostKey(other) in m ==> PostKey(other) in InvalidatedPost(m, slug)
    ensures SearchKey(query, page) in m ==> SearchKey(query, page) in InvalidatedCategory(m, slug)
    ensures PostsKey(page, limit) !in InvalidatedCategory(m, slug)
  {
    KeyNamespaces(other, page, limit, query);
    KeyNamespaces(slug, page, limit, query);
    if other != slug {
      assert PostKey(other)[5..] != PostKey(slug)[5..];
    }
    assert SearchKey(query, page) != CategoryKey(slug) by {
      assert SearchKey(query, page)[0] != CategoryKey(slug)[0];
    }
  }

  /** Invalidating twice is invalidating once. */
  lemma InvalidationIdempotent<V>(m: map<string, V>, slug: string)
    ensures InvalidatedPost(InvalidatedPost(m, slug), slug) == InvalidatedPost(m, slug)
    ensures InvalidatedPosts(InvalidatedPosts(m)) == InvalidatedPosts(m)
    ensures InvalidatedCategory(InvalidatedCategory(m, slug), slug) == InvalidatedCategory(m, slug)
  {
  }

  // ---------------------------------------------------------------------------
  // The service
  // ---------------------------------------------------------------------------

  class CacheService<V> {
    /** Set once, when a backend address is configured. */
    var enabled: bool
    /** Whether the backend currently answers; its failures are swallowed. */
    var reachable: bool
    /** The backend's entries (time-to-live not tracked). */
    var store: map<string, V>

    /** Operations take effect only when the cache is enabled and its backend answers. */
    predicate Active()
      reads this
    {
      enabled && reachable
    }

    constructor (configured: bool)
      ensures enabled == configured && reachable && store == map[]
    {
      enabled := configured;
      reachable := true;
      store := map[];
    }

    /** A hit returns the stored value; disabled, unreachable or missing reads as null. */
    method Get(key: string) returns (r: Option<V>)
      ensures r.Some? <==> Active() && key in store
      ensures r.Some? ==> r.value == store[key]
    {
      if Active() && key in store {
        r := Some(store[key]);
      } else {
        r := None;
      }
    }

    method Set(key: string, value: V)
      modifies this`store
      ensures store == if Active() then old(store)[key := value] else old(store)
    {
      if Active() {
        store := store[key := value];
      }
    }

    method Del(key: string)
      modifies this`store
      ensures store == if Active() then old(store) - {key} else old(store)
    {
      if Active() {
        store := store - {key};
      }
    }

    /** `delPattern(prefix + '*')`: deletes every key that starts with `prefix`. */
    method DelPattern(prefix: string)
      modifies this`store
      ensures store == if Active() then WithoutPrefix(old(store), prefix) else old(store)
    {
      if Active() {
        store := WithoutPrefix(store, prefix);
      }
    }

    method Flush()
      modifies this`store
      ensures store == if Active() then map[] else old(store)
    {
      if Active() {
        store := map[];
      }
    }

    method InvalidatePost(slug: string)
      modifies this`store
      ensures store == if Active() then InvalidatedPost(old(store), slug) else old(store)
    {
      Del(PostKey(slug));
      DelPattern(PostsNamespace);
      DelPattern(SearchNamespace);
    }

    method InvalidatePosts()
      modifies this`store
      ensures store == if Active() then InvalidatedPosts(old(store)) else old(store)
    {
      DelPattern(PostsNamespace);
      DelPattern(SearchNamespace);
    }

    method InvalidateCategory(slug: string)
      modifies this`store
      ensures store == if Active() then InvalidatedCategory(old(store), slug) else old(store)
    {
      Del(CategoryKey(slug));
      DelPattern(PostsNamespace);
    }
  }

  /** With the cache active, a value written under a key is read back. */
  method SetThenGet<V>(c: CacheService<V>, key: string, value: V) returns (r: Option<V>)
    requires c.Active()
    modifies c
    ensures r == Some(value)
  {
    c.Set(key, value);
    r := c.Get(key);
  }
}
