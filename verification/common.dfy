/**
 * Vocabulary shared by every service of the content-management backend:
 * optional values and error results, ids and timestamps, the pagination
 * arithmetic every listing repeats, the JavaScript string primitives the
 * services rely on (`trim`, ASCII case folding, decimal formatting), and the
 * library helpers the services call but whose code is not part of this model.
 */
module Common {

  /** Row ids. The ORM generates opaque unique strings; here they are naturals. */
  type Id = nat

  /** Instants, in milliseconds since the epoch (a JavaScript `Date`). */
  type Time = int

  datatype Option<T> = None | Some(value: T)

  /** A service call either returns a value or throws an `Error` with a message. */
  datatype Result<T> = Ok(value: T) | Err(message: string)

  const MillisPerDay: int := 1000 * 60 * 60 * 24

  /** The role that may act on other users' posts and comments. */
  predicate IsAdmin(role: string) {
    role == "admin"
  }

  /** `author === user || role === 'admin'`: the authorisation every mutation checks. */
  predicate MayModify(ownerId: Id, userId: Id, role: string) {
    ownerId == userId || IsAdmin(role)
  }

  /** `s || undefined` for an optional string: the empty string counts as absent. */
  function NonEmpty(s: Option<string>): (r: Option<string>)
    ensures r.Some? <==> s.Some? && s.value != ""
    ensures r.Some? ==> r == s
  {
    if s.Some? && s.value != "" then s else None
  }

  /**
   * Functions of libraries and modules whose code is not part of this model
   * (src/utils/slug, sanitize-html, reading-time, `Date.toISOString`). They are
   * uninterpreted: the model only ever applies them.
   */
  datatype Helpers = Helpers(
    generateSlug: string -> string,
    makeUniqueSlug: (string, seq<string>) -> string,
    sanitizePostContent: string -> string,
    sanitizePlainText: string -> string,
    readingTime: string -> nat,
    isoString: Time -> string)

  // ---------------------------------------------------------------------------
  // Pagination: `page || 1`, `limit || default`, `skip = (page - 1) * limit`,
  // `totalPages = Math.ceil(total / limit)`.
  // ---------------------------------------------------------------------------

  /** `options.page || 1`; a page number of 0 is falsy and falls back to 1. */
  function ResolvePage(page: nat): (p: nat)
    ensures p >= 1
    ensures page != 0 ==> p == page
  {
    if page == 0 then 1 else page
  }

  /** `options.limit || default`. */
  function ResolveLimit(limit: nat, default: nat): (l: nat)
    ensures default > 0 ==> l > 0
    ensures limit != 0 ==> l == limit
  {
    if limit == 0 then default else limit
  }

  function Skip(page: nat, limit: nat): nat
    requires page >= 1
  {
    (page - 1) * limit
  }

  /** `Math.ceil(n / d)` for a non-negative `n` and a positive `d`. */
  function CeilDiv(n: nat, d: nat): (q: nat)
    requires d > 0
  {
    if n % d == 0 then n / d else n / d + 1
  }

  /** `t` pages of size `d` hold `n` rows, and `t - 1` pages would not. */
  predicate LeastCover(t: nat, n: nat, d: nat) {
    t * d >= n && (t > 0 ==> (t - 1) * d < n)
  }

  /** `ceil(n/d)` is the least number of pages of size `d` that hold `n` rows. */
  lemma CeilDivIsLeastCover(n: nat, d: nat)
    requires d > 0
    ensures CeilDiv(n, d) * d >= n
    ensures CeilDiv(n, d) > 0 ==> (CeilDiv(n, d) - 1) * d < n
    ensures CeilDiv(n, d) == 0 <==> n == 0
  {
    var q, r := n / d, n % d;
    assert n == q * d + r;
    if r != 0 {
      assert (q + 1) * d == q * d + d;
    }
  }

  datatype Pagination = Pagination(page: nat, limit: nat, total: nat, totalPages: nat)

  /** The pagination block: the request's page and limit, the total, and `ceil(total / limit)` pages. */
  function MakePagination(page: nat, limit: nat, total: nat): (r: Pagination)
    requires limit > 0
    ensures r.page == page && r.limit == limit && r.total == total
    ensures r.totalPages * limit >= total
    ensures r.totalPages > 0 ==> (r.totalPages - 1) * limit < total
  {
    CeilDivIsLeastCover(total, limit);
    Pagination(page, limit, total, CeilDiv(total, limit))
  }

  /** One page of an ordered listing, with the listing's pagination block. */
  datatype Page<T> = Page(items: seq<T>, pagination: Pagination)

  /**
   * `r` is page `page` of the ordered `rows` at `limit` rows a page, with
   * `page || 1` and `limit || defaultLimit`: the items are the rows from
   * `(page - 1) * limit` on, as many as the page holds and the rows allow;
   * the total counts every row, and the page count is the least number of
   * pages that hold them all.
   */
  ghost predicate IsPage<T>(r: Page<T>, rows: seq<T>, page: nat, limit: nat, defaultLimit: nat) {
    var p := ResolvePage(page);
    var l := ResolveLimit(limit, defaultLimit);
    var skip := Skip(p, l);
    && r.pagination.page == p && r.pagination.limit == l
    && r.pagination.total == |rows|
    && r.pagination.totalPages * l >= |rows|
    && (r.pagination.totalPages > 0 ==> (r.pagination.totalPages - 1) * l < |rows|)
    && |r.items| == (if skip >= |rows| then 0 else if skip + l <= |rows| then l else |rows| - skip)
    && forall i :: 0 <= i < |r.items| ==> skip + i < |rows| && r.items[i] == rows[skip + i]
  }

  /** Every item of a page is a row of its listing. */
  lemma PageItemsAreRows<T>(r: Page<T>, rows: seq<T>, page: nat, limit: nat, defaultLimit: nat)
    requires IsPage(r, rows, page, limit, defaultLimit)
    ensures forall x :: x in r.items ==> x in rows
  {
    var skip := Skip(ResolvePage(page), ResolveLimit(limit, defaultLimit));
    forall x | x in r.items ensures x in rows {
      var i :| 0 <= i < |r.items| && r.items[i] == x;
      assert rows[skip + i] == x;
    }
  }

  /** Only one number of pages is the least cover of `n` rows. */
  lemma LeastCoverUnique(n: nat, d: nat, s: nat, t: nat)
    requires d > 0
    requires s * d >= n && (s > 0 ==> (s - 1) * d < n)
    requires t * d >= n && (t > 0 ==> (t - 1) * d < n)
    ensures s == t
  {
    if s < t {
      MulMonotone(s, t - 1, d);
    } else if t < s {
      MulMonotone(t, s - 1, d);
    }
  }

  lemma MulMonotone(a: nat, b: nat, d: nat)
    requires a <= b
    ensures a * d <= b * d
  {
    var k := b - a;
    assert b * d == a * d + k * d by {
      assert b == a + k;
    }
  }

  /** A page is pinned down by its request: two pages of the same request are equal. */
  lemma IsPageUnique<T>(a: Page<T>, b: Page<T>, rows: seq<T>, page: nat, limit: nat, defaultLimit: nat)
    requires defaultLimit > 0
    requires IsPage(a, rows, page, limit, defaultLimit) && IsPage(b, rows, page, limit, defaultLimit)
    ensures a == b
  {
    var l := ResolveLimit(limit, defaultLimit);
    LeastCoverUnique(|rows|, l, a.pagination.totalPages, b.pagination.totalPages);
    assert a.items == b.items;
  }

  /** The page count of a page is `Math.ceil(total / limit)`. */
  lemma PageCountIsCeil<T>(r: Page<T>, rows: seq<T>, page: nat, limit: nat, defaultLimit: nat)
    requires defaultLimit > 0
    requires IsPage(r, rows, page, limit, defaultLimit)
    ensures r.pagination.totalPages == CeilDiv(|rows|, ResolveLimit(limit, defaultLimit))
  {
    var l := ResolveLimit(limit, defaultLimit);
    CeilDivIsLeastCover(|rows|, l);
    LeastCoverUnique(|rows|, l, r.pagination.totalPages, CeilDiv(|rows|, l));
  }

  /**
   * `findMany({ skip, take: limit })` and `count()` over the same ordered rows,
   * with `page || 1`, `limit || defaultLimit` and `totalPages = ceil(total / limit)`.
   */
  function Paginate<T>(rows: seq<T>, page: nat, limit: nat, defaultLimit: nat): (r: Page<T>)
    requires defaultLimit > 0
    ensures IsPage(r, rows, page, limit, defaultLimit)
  {
    var p := ResolvePage(page);
    var l := ResolveLimit(limit, defaultLimit);
    Page(Window(rows, Skip(p, l), l), MakePagination(p, l, |rows|))
  }

  /** Prisma's `skip`/`take` on an ordered result. */
  function Window<T>(s: seq<T>, skip: nat, take: nat): (r: seq<T>)
    ensures skip >= |s| ==> r == []
    ensures skip < |s| ==> |r| == (if skip + take <= |s| then take else |s| - skip)
    ensures forall i :: 0 <= i < |r| ==> skip + i < |s| && r[i] == s[skip + i]
  {
    if skip >= |s| then []
    else if skip + take >= |s| then s[skip..]
    else s[skip..skip + take]
  }

  // ---------------------------------------------------------------------------
  // Strings
  // ---------------------------------------------------------------------------

  predicate StartsWith(s: string, prefix: string) {
    prefix <= s
  }

  /** `s.includes(sub)`. */
  predicate Contains(s: string, sub: string) {
    sub <= s || (s != [] && Contains(s[1..], sub))
  }

  predicate IsDigit(c: char) {
    '0' <= c <= '9'
  }

  predicate IsAsciiUpper(c: char) {
    'A' <= c <= 'Z'
  }

  predicate IsAsciiLower(c: char) {
    'a' <= c <= 'z'
  }

  /** `toLowerCase` restricted to ASCII letters; every other character is kept. */
  function LowerChar(c: char): (r: char)
    ensures !IsAsciiUpper(r)
    ensures IsAsciiLower(c) || IsDigit(c) || !IsAsciiUpper(c) ==> r == c
  {
    if IsAsciiUpper(c) then (c as int + 32) as char else c
  }

  function Lower(s: string): (r: string)
    ensures |r| == |s|
    ensures forall i :: 0 <= i < |s| ==> r[i] == LowerChar(s[i])
  {
    seq(|s|, i requires 0 <= i < |s| => LowerChar(s[i]))
  }

  /**
   * JavaScript's WhiteSpace and LineTerminator characters: what `\s` matches
   * and what `trim()` removes.
   */
  predicate IsJsSpace(c: char) {
    || c == '\t' || c == '\n' || c == '\U{B}' || c == '\U{C}' || c == '\r' || c == ' '
    || c == '\U{A0}' || c == '\U{1680}' || ('\U{2000}' <= c <= '\U{200A}')
    || c == '\U{2028}' || c == '\U{2029}' || c == '\U{202F}' || c == '\U{205F}'
    || c == '\U{3000}' || c == '\U{FEFF}'
  }

  function TrimStart(s: string): (r: string)
    ensures |r| <= |s| && r == s[|s| - |r|..]
    ensures r == [] || !IsJsSpace(r[0])
    ensures forall i :: 0 <= i < |s| - |r| ==> IsJsSpace(s[i])
  {
    if s != [] && IsJsSpace(s[0]) then
      var r := TrimStart(s[1..]);
      assert r == s[|s| - |r|..];
      assert forall i :: 1 <= i < |s| - |r| ==> s[i] == s[1..][i - 1];
      r
    else s
  }

  function TrimEnd(s: string): (r: string)
    ensures |r| <= |s| && r == s[..|r|]
    ensures r == [] || !IsJsSpace(r[|r| - 1])
    ensures forall i :: |r| <= i < |s| ==> IsJsSpace(s[i])
  {
    if s != [] && IsJsSpace(s[|s| - 1]) then TrimEnd(s[..|s| - 1]) else s
  }

  /** `String.prototype.trim`. */
  function Trim(s: string): string {
    TrimEnd(TrimStart(s))
  }

  /** `s.trim().length === 0` exactly when every character of `s` is white space. */
  lemma TrimEmptyIffAllSpace(s: string)
    ensures Trim(s) == [] <==> forall i :: 0 <= i < |s| ==> IsJsSpace(s[i])
  {
    var t := TrimStart(s);
    if Trim(s) == [] {
      forall i | 0 <= i < |s| ensures IsJsSpace(s[i]) {
        if i >= |s| - |t| {
          assert s[i] == t[i - (|s| - |t|)];
        }
      }
    } else {
      var r := Trim(s);
      assert r == t[..|r|];
      assert s[|s| - |t|] == t[0] == r[0];
    }
  }

  /** A trimmed query neither starts nor ends with white space. */
  lemma TrimmedHasNoOuterSpace(s: string)
    ensures Trim(s) != [] ==> !IsJsSpace(Trim(s)[0]) && !IsJsSpace(Trim(s)[|Trim(s)| - 1])
  {
    var t := TrimStart(s);
    var r := TrimEnd(t);
    if r != [] {
      assert r == t[..|r|];
      assert r[0] == t[0];
    }
  }

  function DigitChar(d: nat): (c: char)
    requires d < 10
    ensures IsDigit(c)
  {
    (48 + d) as char
  }

  /** Decimal rendering of a natural number, as in a template literal `${n}`. */
  function NatToString(n: nat): (s: string)
    ensures |s| >= 1
    ensures n >= 10 ==> |s| >= 2
    ensures forall i :: 0 <= i < |s| ==> IsDigit(s[i])
  {
    if n < 10 then [DigitChar(n)] else NatToString(n / 10) + [DigitChar(n % 10)]
  }

  /** Distinct numbers render as distinct strings. */
  lemma {:induction false} NatToStringInjective(a: nat, b: nat)
    requires NatToString(a) == NatToString(b)
    ensures a == b
  {
    var sa, sb := NatToString(a), NatToString(b);
    if a < 10 && b < 10 {
      assert sa[0] == sb[0];
    } else if a >= 10 && b >= 10 {
      assert sa[|sa| - 1] == sb[|sb| - 1];
      assert NatToString(a / 10) == sa[..|sa| - 1] == sb[..|sb| - 1] == NatToString(b / 10);
      NatToStringInjective(a / 10, b / 10);
    }
  }

  /** `parts.join(sep)`. */
  function JoinWith(parts: seq<string>, sep: string): string {
    if parts == [] then ""
    else if |parts| == 1 then parts[0]
    else parts[0] + sep + JoinWith(parts[1..], sep)
  }

  lemma {:induction false} JoinWithAppend(x: seq<string>, y: seq<string>, sep: string)
    requires x != [] && y != []
    ensures JoinWith(x + y, sep) == JoinWith(x, sep) + sep + JoinWith(y, sep)
    decreases |x|
  {
    if |x| == 1 {
      assert (x + y)[1..] == y;
    } else {
      assert (x + y)[1..] == x[1..] + y;
      JoinWithAppend(x[1..], y, sep);
    }
  }

  /** A character in neither the parts nor the separator is not in the joined text. */
  lemma {:induction false} JoinWithAvoids(parts: seq<string>, sep: string, c: char)
    requires c !in sep
    requires forall i :: 0 <= i < |parts| ==> c !in parts[i]
    ensures c !in JoinWith(parts, sep)
    decreases |parts|
  {
    if |parts| > 1 {
      JoinWithAvoids(parts[1..], sep, c);
    }
  }

  /** Position of the first `c` in `s`, or `|s|` when there is none. */
  function FirstIndexOf(s: string, c: char): (k: nat)
    ensures k <= |s|
  {
    if s == [] then 0 else if s[0] == c then 0 else 1 + FirstIndexOf(s[1..], c)
  }

  /** Position of the last `c` in `s`, or `|s|` when there is none. */
  function LastIndexOf(s: string, c: char): (k: nat)
    ensures k <= |s|
  {
    if s == [] then 0
    else if s[|s| - 1] == c then |s| - 1
    else if LastIndexOf(s[..|s| - 1], c) == |s| - 1 then |s|
    else LastIndexOf(s[..|s| - 1], c)
  }

  /** `lastIndexOf` finds the last `c`, and no `c` at all when it reports `|s|`. */
  lemma {:induction false} LastIndexOfSpec(s: string, c: char)
    ensures LastIndexOf(s, c) < |s| ==> s[LastIndexOf(s, c)] == c
    ensures forall j :: LastIndexOf(s, c) < j < |s| ==> s[j] != c
    ensures LastIndexOf(s, c) == |s| ==> c !in s
    decreases |s|
  {
    if s != [] && s[|s| - 1] != c {
      var init := s[..|s| - 1];
      LastIndexOfSpec(init, c);
      assert forall j :: 0 <= j < |init| ==> init[j] == s[j];
    }
  }

  lemma {:induction false} FirstIndexAbsent(s: string, c: char)
    requires c !in s
    ensures FirstIndexOf(s, c) == |s|
  {
    if s != [] {
      assert c !in s[1..];
      FirstIndexAbsent(s[1..], c);
    }
  }

  lemma {:induction false} FirstIndexAfter(a: string, b: string, sep: char)
    requires sep !in a
    ensures FirstIndexOf(a + [sep] + b, sep) == |a|
  {
    if a != [] {
      assert (a + [sep] + b)[1..] == a[1..] + [sep] + b;
      FirstIndexAfter(a[1..], b, sep);
    }
  }

  lemma {:induction false} LastIndexBefore(a: string, b: string, sep: char)
    requires sep !in b
    ensures LastIndexOf(a + [sep] + b, sep) == |a|
  {
    var s := a + [sep] + b;
    if b != [] {
      assert s[..|s| - 1] == a + [sep] + b[..|b| - 1];
      LastIndexBefore(a, b[..|b| - 1], sep);
    }
  }

  /** `a + sep + b == c + sep + d` with no `sep` in `a` or `c` splits uniquely. */
  lemma SplitAtFirst(a: string, b: string, c: string, d: string, sep: char)
    requires sep !in a && sep !in c
    requires a + [sep] + b == c + [sep] + d
    ensures a == c && b == d
  {
    var s := a + [sep] + b;
    FirstIndexAfter(a, b, sep);
    FirstIndexAfter(c, d, sep);
    assert a == s[..|a|] == c;
    assert b == s[|a| + 1..] == d;
  }

  /** `a + sep + b == c + sep + d` with no `sep` in `b` or `d` splits uniquely. */
  lemma SplitAtLast(a: string, b: string, c: string, d: string, sep: char)
    requires sep !in b && sep !in d
    requires a + [sep] + b == c + [sep] + d
    ensures a == c && b == d
  {
    var s := a + [sep] + b;
    LastIndexBefore(a, b, sep);
    LastIndexBefore(c, d, sep);
    assert a == s[..|a|] == c;
    assert b == s[|a| + 1..] == d;
  }
}
