/**
 * The relational store's tables, seen as sequences of rows in insertion
 * order. Every row has an id (given by a key function); the store keeps ids
 * distinct. These are the query primitives the services build on: filtered
 * reads (`findMany where`), lookup by id (`findUnique`), newest-first order
 * (`orderBy createdAt desc`), deletion by id set (`deleteMany id in`) and
 * upsert by id.
 */
module Tables {
  import opened Common

  /** The rows of `s` that satisfy `p`, in table order. */
  function Filter<T(!new)>(s: seq<T>, p: T -> bool): (r: seq<T>)
    ensures |r| <= |s|
    ensures forall x :: x in r <==> x in s && p(x)
  {
    if s == [] then [] else (if p(s[0]) then [s[0]] else []) + Filter(s[1..], p)
  }

  lemma {:induction false} FilterAppend<T(!new)>(a: seq<T>, b: seq<T>, p: T -> bool)
    ensures Filter(a + b, p) == Filter(a, p) + Filter(b, p)
  {
    if a != [] {
      assert (a + b)[0] == a[0];
      assert (a + b)[1..] == a[1..] + b;
      FilterAppend(a[1..], b, p);
    } else {
      assert a + b == b;
    }
  }

  /** Rows that satisfy both predicates. */
  function Both<T>(p: T -> bool, q: T -> bool): T -> bool {
    x => p(x) && q(x)
  }

  /** Filtering twice is filtering once by the conjunction. */
  lemma {:induction false} FilterFilter<T(!new)>(s: seq<T>, p: T -> bool, q: T -> bool)
    ensures Filter(Filter(s, p), q) == Filter(s, Both(p, q))
  {
    if s != [] {
      FilterFilter(s[1..], p, q);
      var fp := Filter(s, p);
      if p(s[0]) {
        assert fp == [s[0]] + Filter(s[1..], p);
        assert fp[0] == s[0] && fp[1..] == Filter(s[1..], p);
      } else {
        assert fp == Filter(s[1..], p);
      }
    }
  }

  /** Two predicates that agree on every row select the same rows. */
  lemma {:induction false} FilterExt<T(!new)>(s: seq<T>, p: T -> bool, q: T -> bool)
    requires forall i :: 0 <= i < |s| ==> p(s[i]) == q(s[i])
    ensures Filter(s, p) == Filter(s, q)
  {
    if s != [] {
      FilterExt(s[1..], p, q);
    }
  }

  /** A predicate every row satisfies selects the whole table. */
  lemma {:induction false} FilterAll<T(!new)>(s: seq<T>, p: T -> bool)
    requires forall i :: 0 <= i < |s| ==> p(s[i])
    ensures Filter(s, p) == s
  {
    if s != [] {
      FilterAll(s[1..], p);
    }
  }

  /** A predicate no row satisfies selects nothing. */
  lemma {:induction false} FilterNone<T(!new)>(s: seq<T>, p: T -> bool)
    requires forall i :: 0 <= i < |s| ==> !p(s[i])
    ensures Filter(s, p) == []
  {
    if s != [] {
      FilterNone(s[1..], p);
    }
  }

  /** Filtering keeps the order of the rows it selects. */
  lemma FilterKeepsOrder<T(!new)>(s: seq<T>, p: T -> bool, i: nat, j: nat)
    requires i < j < |s| && p(s[i]) && p(s[j])
    ensures exists a, b :: 0 <= a < b < |Filter(s, p)| && Filter(s, p)[a] == s[i] && Filter(s, p)[b] == s[j]
  {
    var front, back := s[..j], s[j..];
    assert s == front + back;
    FilterAppend(front, back, p);
    assert front[i] == s[i];
    var f := Filter(front, p);
    var a :| 0 <= a < |f| && f[a] == s[i];
    assert back[0] == s[j];
    assert Filter(back, p) == [back[0]] + Filter(back[1..], p);
    var r := Filter(s, p);
    assert r[a] == s[i] && r[|f|] == s[j];
  }

  /** Filtering a table with one more row at the end. */
  lemma FilterSnoc<T(!new)>(s: seq<T>, x: T, p: T -> bool)
    ensures Filter(s + [x], p) == if p(x) then Filter(s, p) + [x] else Filter(s, p)
  {
    FilterAppend(s, [x], p);
    assert [x][1..] == [];
  }

  /** `s` reversed: the newest row first when `s` is in insertion order. */
  function Reverse<T(!new)>(s: seq<T>): (r: seq<T>)
    ensures |r| == |s|
    ensures forall i :: 0 <= i < |s| ==> r[i] == s[|s| - 1 - i]
  {
    seq(|s|, i requires 0 <= i < |s| => s[|s| - 1 - i])
  }

  lemma ReverseMembers<T(!new)>(s: seq<T>)
    ensures forall x :: x in Reverse(s) <==> x in s
  {
    var r := Reverse(s);
    forall x | x in s ensures x in r {
      var i :| 0 <= i < |s| && s[i] == x;
      assert r[|s| - 1 - i] == x;
    }
  }

  lemma {:induction false} ReverseReverse<T(!new)>(s: seq<T>)
    ensures Reverse(Reverse(s)) == s
  {
    var r := Reverse(Reverse(s));
    assert forall i :: 0 <= i < |s| ==> r[i] == s[i];
  }

  /** Newest-first listing of the rows that satisfy `p`. */
  function NewestFirst<T(!new)>(s: seq<T>, p: T -> bool): (r: seq<T>)
    ensures forall x :: x in r <==> x in s && p(x)
    ensures Reverse(r) == Filter(s, p)
  {
    var kept := Filter(s, p);
    ReverseMembers(kept);
    ReverseReverse(kept);
    Reverse(kept)
  }

  // ---------------------------------------------------------------------------
  // Ids
  // ---------------------------------------------------------------------------

  ghost predicate DistinctKeys<T(!new)>(s: seq<T>, key: T -> Id) {
    forall i, j :: 0 <= i < |s| && 0 <= j < |s| && i != j ==> key(s[i]) != key(s[j])
  }

  predicate HasKey<T(!new)>(s: seq<T>, key: T -> Id, id: Id) {
    exists i :: 0 <= i < |s| && key(s[i]) == id
  }

  /** `findUnique({ where: { id } })`: the position of the row with that id. */
  function IndexOf<T(!new)>(s: seq<T>, key: T -> Id, id: Id): (r: Option<nat>)
    ensures r.Some? ==> r.value < |s| && key(s[r.value]) == id
    ensures r.None? <==> !HasKey(s, key, id)
  {
    if s == [] then None
    else if key(s[0]) == id then Some(0)
    else match IndexOf(s[1..], key, id)
      case None => None
      case Some(k) => Some(k + 1)
  }

  /** `findUnique({ where: { id } })` as a service reports it: the row, or its not-found error. */
  function FindRow<T(!new)>(s: seq<T>, key: T -> Id, id: Id, notFound: string): (r: Result<T>)
    ensures r.Ok? <==> HasKey(s, key, id)
    ensures r.Ok? ==> r.value in s && key(r.value) == id
    ensures r.Err? ==> r.message == notFound
  {
    match IndexOf(s, key, id)
    case Some(i) => Ok(s[i])
    case None => Err(notFound)
  }

  /** `findFirst({ where })`: the first row that satisfies `p`, if any. */
  function FindFirst<T>(s: seq<T>, p: T -> bool): (r: Option<T>)
    ensures r.Some? ==> r.value in s && p(r.value)
    ensures r.None? ==> forall i :: 0 <= i < |s| ==> !p(s[i])
  {
    if s == [] then None
    else if p(s[0]) then Some(s[0])
    else FindFirst(s[1..], p)
  }

  /** In a table with distinct ids, the row found is the only one with that id. */
  lemma IndexOfUnique<T(!new)>(s: seq<T>, key: T -> Id, id: Id, j: nat)
    requires DistinctKeys(s, key)
    requires j < |s| && key(s[j]) == id
    ensures IndexOf(s, key, id) == Some(j)
  {
  }

  /** An id larger than every id in the table: what the store hands a new row. */
  function FreshKey<T(!new)>(s: seq<T>, key: T -> Id): (r: Id)
    ensures forall i :: 0 <= i < |s| ==> key(s[i]) < r
  {
    if s == [] then 0
    else
      var rest := FreshKey(s[1..], key);
      if key(s[0]) < rest then rest else key(s[0]) + 1
  }

  lemma AppendFreshKeepsDistinct<T(!new)>(s: seq<T>, key: T -> Id, x: T)
    requires DistinctKeys(s, key)
    requires !HasKey(s, key, key(x))
    ensures DistinctKeys(s + [x], key)
  {
  }

  lemma ReplaceKeepsDistinct<T(!new)>(s: seq<T>, key: T -> Id, i: nat, x: T)
    requires DistinctKeys(s, key)
    requires i < |s| && key(x) == key(s[i])
    ensures DistinctKeys(s[i := x], key)
  {
  }

  lemma {:induction false} FilterKeepsDistinct<T(!new)>(s: seq<T>, key: T -> Id, p: T -> bool)
    requires DistinctKeys(s, key)
    ensures DistinctKeys(Filter(s, p), key)
  {
    if s != [] {
      FilterKeepsDistinct(s[1..], key, p);
      var r := Filter(s, p);
      if p(s[0]) {
        assert r == [s[0]] + Filter(s[1..], p);
        forall j | 1 <= j < |r| ensures key(r[j]) != key(r[0]) {
          assert r[j] in s[1..];
        }
      }
    }
  }

  /** The ids of a list of rows, as a set (the `{ id: { in: [...] } }` argument). */
  function KeySet<T(!new)>(s: seq<T>, key: T -> Id): (r: set<Id>)
    ensures forall id :: id in r <==> HasKey(s, key, id)
  {
    set i | 0 <= i < |s| :: key(s[i])
  }

  lemma KeySetSnoc<T(!new)>(s: seq<T>, x: T, key: T -> Id)
    ensures KeySet(s + [x], key) == KeySet(s, key) + {key(x)}
  {
    var l, r := KeySet(s + [x], key), KeySet(s, key) + {key(x)};
    forall id | id in r ensures id in l {
      if id != key(x) {
        var i :| 0 <= i < |s| && key(s[i]) == id;
        assert (s + [x])[i] == s[i];
      } else {
        assert (s + [x])[|s|] == x;
      }
    }
    forall id | id in l ensures id in r {
      var i :| 0 <= i < |s| + 1 && key((s + [x])[i]) == id;
      if i < |s| {
        assert (s + [x])[i] == s[i];
      }
    }
  }

  /** Rows whose id is not in `ids`. */
  function NotIn<T>(key: T -> Id, ids: set<Id>): T -> bool {
    x => key(x) !in ids
  }

  /** What `deleteMany({ where: { id: { in: ids } } })` leaves. */
  function RemoveKeys<T(!new)>(s: seq<T>, key: T -> Id, ids: set<Id>): (r: seq<T>)
    ensures forall x :: x in r <==> x in s && key(x) !in ids
  {
    Filter(s, NotIn(key, ids))
  }

  /** Dropping the first `keep` of a reversed list reverses all but the last `keep`. */
  lemma ReverseDrop<T(!new)>(s: seq<T>, keep: nat)
    requires keep <= |s|
    ensures Reverse(s)[keep..] == Reverse(s[..|s| - keep])
  {
    var n := |s| - keep;
    var a, b := Reverse(s)[keep..], Reverse(s[..n]);
    forall i | 0 <= i < n ensures a[i] == b[i] {
      assert a[i] == s[n - 1 - i];
    }
  }

  /** Reversing a table does not change its set of ids. */
  lemma ReverseKeySet<T(!new)>(s: seq<T>, key: T -> Id)
    ensures KeySet(Reverse(s), key) == KeySet(s, key)
  {
    var r := Reverse(s);
    forall id | id in KeySet(r, key) ensures id in KeySet(s, key) {
      var i :| 0 <= i < |r| && key(r[i]) == id;
      assert key(s[|s| - 1 - i]) == id;
    }
    forall id | id in KeySet(s, key) ensures id in KeySet(r, key) {
      var i :| 0 <= i < |s| && key(s[i]) == id;
      assert r[|s| - 1 - i] == s[i];
    }
  }

  /** The ids of the oldest `|s| - keep` rows, read off a newest-first list. */
  lemma ReversedTailKeys<T(!new)>(s: seq<T>, r: seq<T>, key: T -> Id, keep: nat)
    requires keep <= |s| && r == Reverse(s)
    ensures KeySet(r[keep..], key) == KeySet(s[..|s| - keep], key)
  {
    ReverseDrop(s, keep);
    ReverseKeySet(s[..|s| - keep], key);
  }

  /** Removing the ids of some rows removes each of those rows. */
  lemma RemoveOwnKeys<T(!new)>(front: seq<T>, key: T -> Id)
    ensures Filter(front, NotIn(key, KeySet(front, key))) == []
  {
    var p := NotIn(key, KeySet(front, key));
    forall i | 0 <= i < |front| ensures !p(front[i]) {
      assert HasKey(front, key, key(front[i]));
    }
    FilterNone(front, p);
  }

  /** In a table with distinct ids, removing the ids of a prefix keeps every later row. */
  lemma RemoveKeysKeepsRest<T(!new)>(front: seq<T>, back: seq<T>, key: T -> Id)
    requires DistinctKeys(front + back, key)
    ensures Filter(back, NotIn(key, KeySet(front, key))) == back
  {
    var s, p := front + back, NotIn(key, KeySet(front, key));
    forall i | 0 <= i < |back| ensures p(back[i]) {
      forall j | 0 <= j < |front| ensures key(front[j]) != key(back[i]) {
        assert front[j] == s[j] && back[i] == s[|front| + i];
      }
      assert !HasKey(front, key, key(back[i]));
    }
    FilterAll(back, p);
  }

  /** In a table with distinct ids, removing the ids of the first `m` rows leaves the rest. */
  lemma RemovePrefixKeys<T(!new)>(s: seq<T>, key: T -> Id, m: nat)
    requires DistinctKeys(s, key)
    requires m <= |s|
    ensures RemoveKeys(s, key, KeySet(s[..m], key)) == s[m..]
  {
    var front, back := s[..m], s[m..];
    assert s == front + back;
    FilterAppend(front, back, NotIn(key, KeySet(front, key)));
    RemoveOwnKeys(front, key);
    RemoveKeysKeepsRest(front, back, key);
  }

  // ---------------------------------------------------------------------------
  // Upsert by id
  // ---------------------------------------------------------------------------

  /**
   * `upsert({ where: { id }, update, create })` for the row `x`: `write(Some(row), x)`
   * is what the update leaves of the existing `row`, `write(None, x)` the row
   * the create inserts at the end of the table.
   */
  function Upsert<T(!new)>(s: seq<T>, key: T -> Id, write: (Option<T>, T) -> T, x: T): (r: seq<T>)
    ensures HasKey(s, key, key(x)) ==> |r| == |s|
    ensures !HasKey(s, key, key(x)) ==> r == s + [write(None, x)]
  {
    match IndexOf(s, key, key(x))
    case Some(i) => s[i := write(Some(s[i]), x)]
    case None => s + [write(None, x)]
  }

  /** The upserts of an import loop over `xs`, in order. */
  function UpsertAll<T(!new)>(s: seq<T>, key: T -> Id, write: (Option<T>, T) -> T, xs: seq<T>): seq<T>
    decreases |xs|
  {
    if xs == [] then s
    else Upsert(UpsertAll(s, key, write, xs[..|xs| - 1]), key, write, xs[|xs| - 1])
  }

  /** A write keeps the id of the row it is given. */
  ghost predicate KeepsKey<T(!new)>(key: T -> Id, write: (Option<T>, T) -> T) {
    forall o: Option<T>, x: T :: key(write(o, x)) == key(x)
  }

  /**
   * Writing `x` over a row just written from `y` with the same id gives what
   * writing `x` alone would have given: a later write of a row leaves nothing
   * of an earlier one behind.
   */
  ghost predicate Absorbs<T(!new)>(key: T -> Id, write: (Option<T>, T) -> T) {
    forall o: Option<T>, x: T, y: T {:trigger write(Some(write(o, y)), x)} ::
      key(x) == key(y) ==> write(Some(write(o, y)), x) == write(o, x)
  }

  /**
   * One upsert into a table with distinct ids: every row with another id is
   * untouched, the row with `x`'s id is written over, and when there was none
   * the written row is appended.
   */
  lemma UpsertAt<T(!new)>(s: seq<T>, key: T -> Id, write: (Option<T>, T) -> T, x: T)
    requires KeepsKey(key, write) && DistinctKeys(s, key)
    ensures var r := Upsert(s, key, write, x);
      && DistinctKeys(r, key)
      && HasKey(r, key, key(x))
      && |r| == (if HasKey(s, key, key(x)) then |s| else |s| + 1)
      && (forall i :: 0 <= i < |s| ==> key(r[i]) == key(s[i]))
      && (forall i :: 0 <= i < |s| ==> r[i] == (if key(s[i]) == key(x) then write(Some(s[i]), x) else s[i]))
      && (!HasKey(s, key, key(x)) ==> r[|s|] == write(None, x))
  {
    var r := Upsert(s, key, write, x);
    match IndexOf(s, key, key(x))
    case Some(i) =>
      assert key(r[i]) == key(x);
    case None =>
      assert key(r[|s|]) == key(x);
  }

  lemma {:induction false} UpsertAllKeepsDistinct<T(!new)>(s: seq<T>, key: T -> Id, write: (Option<T>, T) -> T, xs: seq<T>)
    requires KeepsKey(key, write) && DistinctKeys(s, key)
    ensures DistinctKeys(UpsertAll(s, key, write, xs), key)
    decreases |xs|
  {
    if xs != [] {
      UpsertAllKeepsDistinct(s, key, write, xs[..|xs| - 1]);
      UpsertAt(UpsertAll(s, key, write, xs[..|xs| - 1]), key, write, xs[|xs| - 1]);
    }
  }

  /**
   * What the rows of `xs` with id `k` leave when written one after the other
   * over the row `d`.
   */
  function Fold<T(!new)>(xs: seq<T>, key: T -> Id, write: (Option<T>, T) -> T, k: Id, d: T): T
    decreases |xs|
  {
    if xs == [] then d
    else
      var v := Fold(xs[..|xs| - 1], key, write, k, d);
      if key(xs[|xs| - 1]) == k then write(Some(v), xs[|xs| - 1]) else v
  }

  /** The last row of `xs` with id `k`, or `y` when there is none. */
  function LastWith<T(!new)>(xs: seq<T>, key: T -> Id, k: Id, y: T): T
    decreases |xs|
  {
    if xs == [] then y
    else if key(xs[|xs| - 1]) == k then xs[|xs| - 1]
    else LastWith(xs[..|xs| - 1], key, k, y)
  }

  lemma {:induction false} LastWithKey<T(!new)>(xs: seq<T>, key: T -> Id, k: Id, y: T)
    requires key(y) == k
    ensures key(LastWith(xs, key, k, y)) == k
    decreases |xs|
  {
    if xs != [] && key(xs[|xs| - 1]) != k {
      LastWithKey(xs[..|xs| - 1], key, k, y);
    }
  }

  lemma {:induction false} FoldKeepsKey<T(!new)>(xs: seq<T>, key: T -> Id, write: (Option<T>, T) -> T, k: Id, d: T)
    requires KeepsKey(key, write) && key(d) == k
    ensures key(Fold(xs, key, write, k, d)) == k
    decreases |xs|
  {
    if xs != [] {
      FoldKeepsKey(xs[..|xs| - 1], key, write, k, d);
    }
  }

  /**
   * Writing the rows of `xs` with id `k` over a row written from `y` is one
   * write, of the last of them.
   */
  lemma {:induction false} FoldOfWrite<T(!new)>(xs: seq<T>, key: T -> Id, write: (Option<T>, T) -> T,
                                               o: Option<T>, y: T)
    requires Absorbs(key, write)
    ensures Fold(xs, key, write, key(y), write(o, y)) == write(o, LastWith(xs, key, key(y), y))
    decreases |xs|
  {
    if xs != [] {
      var init, x := xs[..|xs| - 1], xs[|xs| - 1];
      FoldOfWrite(init, key, write, o, y);
      if key(x) == key(y) {
        var l := LastWith(init, key, key(y), y);
        LastWithKey(init, key, key(y), y);
        assert write(Some(write(o, l)), x) == write(o, x);
      }
    }
  }

  /**
   * Upserting rows whose ids are all present already rewrites the table in
   * place: each row becomes what the rows of `xs` with its id leave of it.
   */
  lemma {:induction false} UpsertAllInPlace<T(!new)>(u: seq<T>, key: T -> Id, write: (Option<T>, T) -> T, xs: seq<T>)
    requires KeepsKey(key, write) && DistinctKeys(u, key)
    requires forall j :: 0 <= j < |xs| ==> HasKey(u, key, key(xs[j]))
    ensures var r := UpsertAll(u, key, write, xs);
      && |r| == |u|
      && forall i :: 0 <= i < |u| ==> r[i] == Fold(xs, key, write, key(u[i]), u[i])
    decreases |xs|
  {
    if xs != [] {
      var init, x := xs[..|xs| - 1], xs[|xs| - 1];
      UpsertAllInPlace(u, key, write, init);
      var v := UpsertAll(u, key, write, init);
      forall i | 0 <= i < |u| ensures key(v[i]) == key(u[i]) {
        FoldKeepsKey(init, key, write, key(u[i]), u[i]);
      }
      assert DistinctKeys(v, key);
      var j :| 0 <= j < |u| && key(u[j]) == key(x);
      assert key(v[j]) == key(x);
      UpsertAt(v, key, write, x);
    }
  }

  /**
   * After one import every imported id is present, and each row is already
   * what writing the imported rows with its id over it would leave.
   */
  lemma {:induction false} UpsertAllSettles<T(!new)>(s: seq<T>, key: T -> Id, write: (Option<T>, T) -> T, xs: seq<T>)
    requires KeepsKey(key, write) && Absorbs(key, write) && DistinctKeys(s, key)
    ensures var u := UpsertAll(s, key, write, xs);
      && DistinctKeys(u, key)
      && (forall j :: 0 <= j < |xs| ==> HasKey(u, key, key(xs[j])))
      && forall i :: 0 <= i < |u| ==> Fold(xs, key, write, key(u[i]), u[i]) == u[i]
    decreases |xs|
  {
    if xs != [] {
      var init, x := xs[..|xs| - 1], xs[|xs| - 1];
      UpsertAllSettles(s, key, write, init);
      var v := UpsertAll(s, key, write, init);
      var u := UpsertAll(s, key, write, xs);
      UpsertAt(v, key, write, x);
      forall j | 0 <= j < |xs| ensures HasKey(u, key, key(xs[j])) {
        if j < |init| {
          assert xs[j] == init[j];
          var i :| 0 <= i < |v| && key(v[i]) == key(init[j]);
          assert key(u[i]) == key(xs[j]);
        }
      }
      forall i | 0 <= i < |u| ensures Fold(xs, key, write, key(u[i]), u[i]) == u[i] {
        var k := key(u[i]);
        if k == key(x) {
          var o := if i < |v| then Some(v[i]) else None;
          assert u[i] == write(o, x);
          FoldOfWrite(init, key, write, o, x);
          var l := LastWith(init, key, k, x);
          LastWithKey(init, key, k, x);
          assert Fold(xs, key, write, k, u[i]) == write(Some(write(o, l)), x);
        } else {
          assert i < |v| && u[i] == v[i];
        }
      }
    }
  }

  /** Importing the same rows a second time changes nothing. */
  lemma UpsertAllIdempotent<T(!new)>(s: seq<T>, key: T -> Id, write: (Option<T>, T) -> T, xs: seq<T>)
    requires KeepsKey(key, write) && Absorbs(key, write) && DistinctKeys(s, key)
    ensures UpsertAll(UpsertAll(s, key, write, xs), key, write, xs) == UpsertAll(s, key, write, xs)
  {
    var u := UpsertAll(s, key, write, xs);
    UpsertAllSettles(s, key, write, xs);
    UpsertAllInPlace(u, key, write, xs);
  }

  /** The rows of `xs` written with nothing before them. */
  function Created<T>(xs: seq<T>, write: (Option<T>, T) -> T): (r: seq<T>)
    ensures |r| == |xs|
    ensures forall i :: 0 <= i < |xs| ==> r[i] == write(None, xs[i])
  {
    seq(|xs|, i requires 0 <= i < |xs| => write(None, xs[i]))
  }

  /** Upserting rows with distinct ids into an empty table creates each of them, in order. */
  lemma {:induction false} UpsertAllIntoEmpty<T(!new)>(xs: seq<T>, key: T -> Id, write: (Option<T>, T) -> T)
    requires KeepsKey(key, write) && DistinctKeys(xs, key)
    ensures UpsertAll([], key, write, xs) == Created(xs, write)
    decreases |xs|
  {
    if xs != [] {
      var init, x := xs[..|xs| - 1], xs[|xs| - 1];
      UpsertAllIntoEmpty(init, key, write);
      var v := Created(init, write);
      forall i | 0 <= i < |v| ensures key(v[i]) != key(x) {
        assert init[i] == xs[i];
      }
      assert Upsert(v, key, write, x) == v + [write(None, x)];
      assert Created(xs, write) == v + [write(None, x)];
    }
  }

  /** While `d` is the row with id `k`, writes of the rows of a table leave `d`, if the write of `d` over itself does. */
  lemma {:induction false} FoldOverOwnRows<T(!new)>(s: seq<T>, key: T -> Id, write: (Option<T>, T) -> T, i: nat, n: nat)
    requires DistinctKeys(s, key) && i < |s| && n <= |s|
    requires write(Some(s[i]), s[i]) == s[i]
    ensures Fold(s[..n], key, write, key(s[i]), s[i]) == s[i]
    decreases n
  {
    if n > 0 {
      assert s[..n][..n - 1] == s[..n - 1];
      FoldOverOwnRows(s, key, write, i, n - 1);
    }
  }

  /** Upserting a table's own rows into it changes nothing, if a row written over itself is unchanged. */
  lemma UpsertAllSelf<T(!new)>(s: seq<T>, key: T -> Id, write: (Option<T>, T) -> T)
    requires KeepsKey(key, write) && DistinctKeys(s, key)
    requires forall i :: 0 <= i < |s| ==> write(Some(s[i]), s[i]) == s[i]
    ensures UpsertAll(s, key, write, s) == s
  {
    forall j | 0 <= j < |s| ensures HasKey(s, key, key(s[j])) {
    }
    UpsertAllInPlace(s, key, write, s);
    forall i | 0 <= i < |s| ensures Fold(s, key, write, key(s[i]), s[i]) == s[i] {
      FoldOverOwnRows(s, key, write, i, |s|);
      assert s[..|s|] == s;
    }
  }
}
