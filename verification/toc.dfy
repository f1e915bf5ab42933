/**
 * Table of contents for post HTML: the `h2`/`h3` elements found by the
 * heading pattern `<h([2-3])([^>]*)>(.*?)</h\1>` (global, case-insensitive),
 * the anchor id derived from each heading's text, the rewrite that inserts
 * those ids, and the reading time estimated from the word count.
 */
module Toc {
  import opened Common

  // ---------------------------------------------------------------------------
  // The heading pattern, matched the way the regular-expression engine does
  // ---------------------------------------------------------------------------

  /** What `.` refuses: the line terminators. */
  predicate IsLineTerminator(c: char) {
    c == '\n' || c == '\r' || c == '\U{2028}' || c == '\U{2029}'
  }

  /** `h` under the `i` flag. */
  predicate IsH(c: char) {
    c == 'h' || c == 'H'
  }

  predicate IsLevel(c: char) {
    c == '2' || c == '3'
  }

  /** `<h([2-3])` at `i`. */
  predicate OpensAt(s: string, i: nat) {
    i + 3 <= |s| && s[i] == '<' && IsH(s[i + 1]) && IsLevel(s[i + 2])
  }

  /** `<\/h\1>` at `k`, for the level digit `d` captured by the opening tag. */
  predicate ClosesAt(s: string, k: nat, d: char) {
    k + 5 <= |s| && s[k] == '<' && s[k + 1] == '/' && IsH(s[k + 2]) && s[k + 3] == d && s[k + 4] == '>'
  }

  /** `[^>]*>`: the first `>` at or after `j`. */
  function NextGt(s: string, j: nat): (r: Option<nat>)
    requires j <= |s|
    ensures r.Some? ==> j <= r.value < |s| && s[r.value] == '>'
    ensures r.Some? ==> forall k :: j <= k < r.value ==> s[k] != '>'
    ensures r.None? ==> forall k :: j <= k < |s| ==> s[k] != '>'
    decreases |s| - j
  {
    if j == |s| then None else if s[j] == '>' then Some(j) else NextGt(s, j + 1)
  }

  /**
   * `(.*?)<\/h\1>` from `k`: the lazy group takes as few characters as it can,
   * so this is the first closing tag of the same level, reached without
   * crossing a line terminator.
   */
  function LazyClose(s: string, k: nat, d: char): (r: Option<nat>)
    requires k <= |s|
    ensures r.Some? ==> k <= r.value && ClosesAt(s, r.value, d)
    ensures r.Some? ==> forall m :: k <= m < r.value ==> !IsLineTerminator(s[m])
    decreases |s| - k
  {
    if ClosesAt(s, k, d) then Some(k)
    else if k < |s| && !IsLineTerminator(s[k]) then LazyClose(s, k + 1, d)
    else None
  }

  /** The lazy group stops at the first closing tag: none starts before the one found. */
  lemma {:induction false} LazyCloseIsFirst(s: string, k: nat, d: char, m: nat)
    requires k <= |s| && LazyClose(s, k, d).Some? && k <= m < LazyClose(s, k, d).value
    ensures !ClosesAt(s, m, d)
    decreases |s| - k
  {
    if m > k {
      LazyCloseIsFirst(s, k + 1, d, m);
    }
  }

  /**
   * One match: the opening `<` at `start`, the level digit, the `>` ending the
   * opening tag at `gt`, and the closing tag's `<` at `close`.
   */
  datatype Heading = Heading(start: nat, level: char, gt: nat, close: nat)

  predicate IsMatch(s: string, m: Heading) {
    && OpensAt(s, m.start) && m.level == s[m.start + 2]
    && m.start + 3 <= m.gt < m.close
    && ClosesAt(s, m.close, m.level)
  }

  function End(m: Heading): nat { m.close + 5 }

  /** The attribute text, the second capture group. */
  function Attrs(s: string, m: Heading): string
    requires IsMatch(s, m)
  {
    s[m.start + 3..m.gt]
  }

  /** The heading's inner HTML, the last capture group. */
  function Inner(s: string, m: Heading): string
    requires IsMatch(s, m)
  {
    s[m.gt + 1..m.close]
  }

  /** The match that starts at `i`, if the pattern matches there. */
  function MatchAt(s: string, i: nat): (r: Option<Heading>)
    requires i <= |s|
    ensures r.Some? ==> IsMatch(s, r.value) && r.value.start == i
    ensures r.Some? ==> forall k :: r.value.gt < k < r.value.close ==> !IsLineTerminator(s[k])
  {
    if !OpensAt(s, i) then None
    else match NextGt(s, i + 3)
      case None => None
      case Some(gt) =>
        match LazyClose(s, gt + 1, s[i + 2])
        case None => None
        case Some(close) => Some(Heading(i, s[i + 2], gt, close))
  }

  /** `exec` from `lastIndex = pos`: the leftmost match starting at or after `pos`. */
  function NextMatch(s: string, pos: nat): (r: Option<Heading>)
    requires pos <= |s|
    ensures r.Some? ==> IsMatch(s, r.value) && pos <= r.value.start && End(r.value) <= |s|
    ensures r.Some? ==> MatchAt(s, r.value.start) == r
    decreases |s| - pos
  {
    match MatchAt(s, pos)
    case Some(m) => Some(m)
    case None => if pos == |s| then None else NextMatch(s, pos + 1)
  }

  /**
   * `exec` finds the leftmost match: the pattern matches nowhere between
   * `pos` and the match returned, and nowhere from `pos` on when none is.
   */
  lemma {:induction false} NextMatchIsLeftmost(s: string, pos: nat, k: nat)
    requires pos <= k <= |s|
    ensures NextMatch(s, pos).Some? && k < NextMatch(s, pos).value.start ==> MatchAt(s, k).None?
    ensures NextMatch(s, pos).None? ==> MatchAt(s, k).None?
    decreases |s| - pos
  {
    if k > pos && MatchAt(s, pos).None? {
      NextMatchIsLeftmost(s, pos + 1, k);
    }
  }

  /** Every match of the global pattern from `pos` on, in document order. */
  function Scan(s: string, pos: nat): (r: seq<Heading>)
    requires pos <= |s|
    ensures forall m :: m in r ==> IsMatch(s, m) && pos <= m.start && End(m) <= |s|
    decreases |s| - pos
  {
    match NextMatch(s, pos)
    case None => []
    case Some(m) => [m] + Scan(s, End(m))
  }

  /** Matches do not overlap and come in document order. */
  lemma {:induction false} ScanOrdered(s: string, pos: nat)
    requires pos <= |s|
    ensures var r := Scan(s, pos);
      forall i, j :: 0 <= i < j < |r| ==> End(r[i]) <= r[j].start
    decreases |s| - pos
  {
    ScanUnfold(s, pos);
    if NextMatch(s, pos).Some? {
      var m := NextMatch(s, pos).value;
      ScanOrdered(s, End(m));
      PrependOrdered(m, Scan(s, End(m)));
    }
  }

  lemma PrependOrdered(m: Heading, rest: seq<Heading>)
    requires forall x :: x in rest ==> End(m) <= x.start
    requires forall i, j :: 0 <= i < j < |rest| ==> End(rest[i]) <= rest[j].start
    ensures var r := [m] + rest;
      forall i, j :: 0 <= i < j < |r| ==> End(r[i]) <= r[j].start
  {
    var r := [m] + rest;
    forall i, j | 0 <= i < j < |r| ensures End(r[i]) <= r[j].start {
      assert r[j] == rest[j - 1] && r[j] in rest;
      if i > 0 {
        assert r[i] == rest[i - 1];
      }
    }
  }

  // ---------------------------------------------------------------------------
  // Stripping tags: `replace(/<[^>]*>/g, '')`
  // ---------------------------------------------------------------------------

  /** Each `<` that has a later `>` starts a tag, removed up to the first such `>`. */
  function StripTags(s: string): (r: string)
    ensures forall c :: c in r ==> c in s
    decreases |s|
  {
    if s == [] then []
    else if s[0] == '<' && NextGt(s, 1).Some? then StripTags(s[NextGt(s, 1).value + 1..])
    else [s[0]] + StripTags(s[1..])
  }

  /** No `<` is followed, anywhere later, by a `>`. */
  predicate NoTags(s: string) {
    forall i, j :: 0 <= i < j < |s| && s[i] == '<' ==> s[j] != '>'
  }

  /** What is left contains no tag. */
  lemma {:induction false} StrippedHasNoTags(s: string)
    ensures NoTags(StripTags(s))
    decreases |s|
  {
    if s == [] {
    } else if s[0] == '<' && NextGt(s, 1).Some? {
      StrippedHasNoTags(s[NextGt(s, 1).value + 1..]);
    } else {
      var rest := StripTags(s[1..]);
      StrippedHasNoTags(s[1..]);
      var r := [s[0]] + rest;
      forall i, j | 0 <= i < j < |r| && r[i] == '<' ensures r[j] != '>' {
        if i == 0 {
          assert r[j] in rest;
          assert '>' !in s[1..] by {
            forall k | 0 <= k < |s[1..]| ensures s[1..][k] != '>' {
              assert s[1..][k] == s[k + 1];
            }
          }
        } else {
          assert r[i] == rest[i - 1] && r[j] == rest[j - 1];
        }
      }
    }
  }

  /** Text without tags is left as it is, so stripping twice is stripping once. */
  lemma {:induction false} StripTagsIdempotent(s: string)
    requires NoTags(s)
    ensures StripTags(s) == s
    decreases |s|
  {
    if s != [] {
      if s[0] == '<' {
        assert NextGt(s, 1).None?;
      }
      assert NoTags(s[1..]) by {
        forall i, j | 0 <= i < j < |s[1..]| && s[1..][i] == '<' ensures s[1..][j] != '>' {
          assert s[i + 1] == '<';
        }
      }
      StripTagsIdempotent(s[1..]);
      assert s == [s[0]] + s[1..];
    }
  }

  // ---------------------------------------------------------------------------
  // Heading ids
  // ---------------------------------------------------------------------------

  /** `\w` without the `u` flag. */
  predicate IsWordChar(c: char) {
    IsAsciiLower(c) || IsAsciiUpper(c) || IsDigit(c) || c == '_'
  }

  /** `replace(/[^\w\s-]/g, '')`. */
  function KeepIdChars(s: string): string {
    if s == [] then []
    else if IsWordChar(s[0]) || IsJsSpace(s[0]) || s[0] == '-' then [s[0]] + KeepIdChars(s[1..])
    else KeepIdChars(s[1..])
  }

  /** Only word characters, white space and dashes survive, and nothing is added. */
  lemma {:induction false} KeepIdCharsKeeps(s: string)
    ensures forall c :: c in KeepIdChars(s) ==> c in s && (IsWordChar(c) || IsJsSpace(c) || c == '-')
    decreases |s|
  {
    if s != [] {
      KeepIdCharsKeeps(s[1..]);
      assert forall c :: c in s[1..] ==> c in s;
    }
  }

  /**
   * `replace(/X+/g, '-')`: every maximal run of characters satisfying `p`
   * becomes one `-`, written where the run ends.
   */
  function DashRuns(s: string, p: char -> bool): string {
    if s == [] then []
    else if p(s[0]) && |s| > 1 && p(s[1]) then DashRuns(s[1..], p)
    else if p(s[0]) then ['-'] + DashRuns(s[1..], p)
    else [s[0]] + DashRuns(s[1..], p)
  }

  /** What is left of `s` is a dash or a character of `s` outside every run. */
  lemma {:induction false} DashRunsChars(s: string, p: char -> bool)
    ensures forall c :: c in DashRuns(s, p) ==> c == '-' || (c in s && !p(c))
    decreases |s|
  {
    if s != [] {
      DashRunsChars(s[1..], p);
      assert forall c :: c in s[1..] ==> c in s;
    }
  }

  /** The result is empty only for empty input, and starts with a dash exactly when a run or a dash starts `s`. */
  lemma {:induction false} DashRunsFirst(s: string, p: char -> bool)
    ensures DashRuns(s, p) == [] <==> s == []
    ensures s != [] ==> (DashRuns(s, p)[0] == '-' <==> p(s[0]) || s[0] == '-')
    decreases |s|
  {
    if s != [] && p(s[0]) && |s| > 1 && p(s[1]) {
      DashRunsFirst(s[1..], p);
    }
  }

  function IsDash(c: char): bool { c == '-' }

  /** No two dashes side by side. */
  predicate NoDoubleDash(r: string) {
    forall i :: 0 <= i < |r| - 1 ==> !(r[i] == '-' && r[i + 1] == '-')
  }

  /** Collapsing the runs of `-` leaves no two dashes side by side. */
  lemma {:induction false} CollapsedHasNoDoubleDash(s: string)
    ensures NoDoubleDash(DashRuns(s, IsDash))
    decreases |s|
  {
    if s != [] {
      var r := DashRuns(s, IsDash);
      var rest := DashRuns(s[1..], IsDash);
      CollapsedHasNoDoubleDash(s[1..]);
      if IsDash(s[0]) && |s| > 1 && IsDash(s[1]) {
        assert r == rest;
        forall i | 0 <= i < |r| - 1 ensures !(r[i] == '-' && r[i + 1] == '-') {
          assert r[i] == rest[i] && r[i + 1] == rest[i + 1];
        }
      } else {
        var first := if IsDash(s[0]) then '-' else s[0];
        assert r == [first] + rest;
        if IsDash(s[0]) && rest != [] {
          DashRunsFirst(s[1..], IsDash);
          assert s[1..][0] == s[1];
          assert rest[0] != '-';
        }
        forall i | 0 <= i < |r| - 1 ensures !(r[i] == '-' && r[i + 1] == '-') {
          if i == 0 {
            assert r[0] == first && r[1] == rest[0];
          } else {
            assert r[i] == rest[i - 1] && r[i + 1] == rest[i];
          }
        }
      }
    }
  }

  /**
   * The id of a heading with text `text`: lower-cased, stripped to word
   * characters, white space and dashes, and white-space runs and dash runs
   * each made one dash. The source then calls `trim()`, which has nothing left
   * to remove (`TrimLeavesIdUnchanged`).
   */
  function HeadingId(text: string): string {
    DashRuns(DashRuns(KeepIdChars(Lower(text)), IsJsSpace), IsDash)
  }

  /** The characters an id may contain. */
  predicate IsIdChar(c: char) {
    IsAsciiLower(c) || IsDigit(c) || c == '_' || c == '-'
  }

  /** An id is lower case, made of `[a-z0-9_-]`, and never has two dashes in a row. */
  lemma HeadingIdShape(text: string)
    ensures var id := HeadingId(text);
      && (forall c :: c in id ==> IsIdChar(c))
      && NoDoubleDash(id)
  {
    var kept := KeepIdChars(Lower(text));
    KeepIdCharsKeeps(Lower(text));
    assert forall c :: c in kept ==> !IsAsciiUpper(c);
    var dashed := DashRuns(kept, IsJsSpace);
    DashRunsChars(kept, IsJsSpace);
    var collapsed := DashRuns(dashed, IsDash);
    DashRunsChars(dashed, IsDash);
    assert forall c :: c in collapsed ==> IsIdChar(c);
    CollapsedHasNoDoubleDash(dashed);
    assert HeadingId(text) == collapsed;
  }

  /** A string with no white space is its own trim. */
  lemma TrimWithoutSpace(s: string)
    requires forall c :: c in s ==> !IsJsSpace(c)
    ensures Trim(s) == s
  {
    var t := TrimStart(s);
    assert |t| == |s|;
    assert |TrimEnd(t)| == |t|;
  }

  /** The closing `trim()` of the id computation removes nothing. */
  lemma TrimLeavesIdUnchanged(text: string)
    ensures Trim(HeadingId(text)) == HeadingId(text)
  {
    HeadingIdShape(text);
    TrimWithoutSpace(HeadingId(text));
  }

  /**
   * The final `trim()` finds no white space left, so a heading whose text
   * starts or ends with a space gets an id starting or ending with a dash.
   */
  lemma HeadingIdKeepsOuterDashes()
    ensures HeadingId(" Go ") == "-go-"
  {
    var lowered := Lower(" Go ");
    assert lowered == " go " by {
      assert lowered[2] == LowerChar('o');
    }
    assert KeepIdChars(" ") == " ";
    assert KeepIdChars("o ") == "o ";
    assert KeepIdChars("go ") == "go ";
    assert KeepIdChars(" go ") == " go ";
    assert DashRuns(" ", IsJsSpace) == "-";
    assert DashRuns("o ", IsJsSpace) == "o-";
    assert DashRuns("go ", IsJsSpace) == "go-";
    assert DashRuns(" go ", IsJsSpace) == "-go-";
    assert DashRuns("-", IsDash) == "-";
    assert DashRuns("o-", IsDash) == "o-";
    assert DashRuns("go-", IsDash) == "go-";
    assert DashRuns("-go-", IsDash) == "-go-";
  }

  // ---------------------------------------------------------------------------
  // generateTOC
  // ---------------------------------------------------------------------------

  datatype TocItem = TocItem(id: string, text: string, level: nat)

  /** One pushed entry: the stripped inner text, its id, and the level `parseInt(match[1])`. */
  function Item(s: string, m: Heading): TocItem
    requires IsMatch(s, m)
  {
    var text := StripTags(Inner(s, m));
    TocItem(HeadingId(text), text, if m.level == '2' then 2 else 3)
  }

  function Items(s: string, ms: seq<Heading>): (r: seq<TocItem>)
    requires forall m :: m in ms ==> IsMatch(s, m)
    ensures |r| == |ms| && forall i :: 0 <= i < |ms| ==> r[i] == Item(s, ms[i])
  {
    seq(|ms|, i requires 0 <= i < |ms| => Item(s, ms[i]))
  }

  lemma ItemsCons(s: string, m: Heading, ms: seq<Heading>)
    requires IsMatch(s, m) && forall x :: x in ms ==> IsMatch(s, x)
    ensures Items(s, [m] + ms) == [Item(s, m)] + Items(s, ms)
  {
  }

  /** One step of `Scan`: no match ends it, a match is followed by the matches after it. */
  lemma ScanUnfold(s: string, pos: nat)
    requires pos <= |s|
    ensures NextMatch(s, pos).None? ==> Scan(s, pos) == []
    ensures NextMatch(s, pos).Some? ==>
      Scan(s, pos) == [NextMatch(s, pos).value] + Scan(s, End(NextMatch(s, pos).value))
  {
  }

  lemma PushItem(s: string, toc: seq<TocItem>, m: Heading, rest: seq<Heading>)
    requires IsMatch(s, m) && forall x :: x in rest ==> IsMatch(s, x)
    ensures toc + Items(s, [m] + rest) == (toc + [Item(s, m)]) + Items(s, rest)
  {
    ItemsCons(s, m, rest);
  }

  /** Pushing the item of the match found from `pos` moves the scan past it. */
  lemma TocStep(html: string, pos: nat, toc: seq<TocItem>)
    requires pos <= |html| && NextMatch(html, pos).Some?
    ensures var m := NextMatch(html, pos).value;
      toc + Items(html, Scan(html, pos)) == (toc + [Item(html, m)]) + Items(html, Scan(html, End(m)))
  {
    var m := NextMatch(html, pos).value;
    ScanUnfold(html, pos);
    PushItem(html, toc, m, Scan(html, End(m)));
  }

  /** When `exec` fails nothing is left to push. */
  lemma TocDone(html: string, pos: nat)
    requires pos <= |html| && NextMatch(html, pos).None?
    ensures Items(html, Scan(html, pos)) == []
  {
    ScanUnfold(html, pos);
  }

  /** `generateTOC`: `exec` the pattern until it fails, pushing one item per match. */
  method GenerateToc(html: string) returns (toc: seq<TocItem>)
    ensures toc == Items(html, Scan(html, 0))
  {
    toc := [];
    var pos := 0;
    while true
      invariant pos <= |html|
      invariant toc + Items(html, Scan(html, pos)) == Items(html, Scan(html, 0))
      decreases |html| - pos
    {
      var found := NextMatch(html, pos);
      if found.None? {
        TocDone(html, pos);
        break;
      }
      var m := found.value;
      TocStep(html, pos, toc);
      toc := toc + [Item(html, m)];
      pos := End(m);
    }
  }

  /** A match found from `pos` is the first one or one found after it. */
  lemma ScanStep(s: string, pos: nat, m: Heading)
    requires pos <= |s| && m in Scan(s, pos)
    ensures NextMatch(s, pos).Some?
    ensures m != NextMatch(s, pos).value ==> m in Scan(s, End(NextMatch(s, pos).value))
  {
  }

  /** `.` does not cross a line terminator, so a heading's inner HTML is one line. */
  lemma {:induction false} ScanInnerOnOneLine(s: string, pos: nat, m: Heading)
    requires pos <= |s| && m in Scan(s, pos)
    ensures forall c :: c in Inner(s, m) ==> !IsLineTerminator(c)
    decreases |s| - pos
  {
    ScanStep(s, pos, m);
    var first := NextMatch(s, pos).value;
    if m == first {
      assert MatchAt(s, m.start) == Some(m);
      var inner := Inner(s, m);
      forall c | c in inner ensures !IsLineTerminator(c) {
        var k :| 0 <= k < |inner| && inner[k] == c;
        assert c == s[m.gt + 1 + k];
      }
    } else {
      ScanInnerOnOneLine(s, End(first), m);
    }
  }

  /**
   * Every item: level 2 or 3, text with no tag left in it and no line break,
   * and an id of the required shape derived from that text.
   */
  lemma TocItemsWellFormed(html: string)
    ensures forall t :: t in Items(html, Scan(html, 0)) ==>
      && (t.level == 2 || t.level == 3)
      && NoTags(t.text)
      && (forall c :: c in t.text ==> !IsLineTerminator(c))
      && t.id == HeadingId(t.text)
  {
    var ms := Scan(html, 0);
    var items := Items(html, ms);
    forall t | t in items
      ensures (t.level == 2 || t.level == 3) && NoTags(t.text)
      ensures forall c :: c in t.text ==> !IsLineTerminator(c)
      ensures t.id == HeadingId(t.text)
    {
      var i :| 0 <= i < |ms| && t == items[i];
      var m := ms[i];
      assert m in ms;
      assert t == Item(html, m);
      StrippedHasNoTags(Inner(html, m));
      ScanInnerOnOneLine(html, 0, m);
    }
  }

  // ---------------------------------------------------------------------------
  // addHeadingIds
  // ---------------------------------------------------------------------------

  predicate HasIdAttr(s: string, m: Heading)
    requires IsMatch(s, m)
  {
    Contains(Attrs(s, m), "id=")
  }

  /** ` id="<id>"`, the attribute inserted for a heading. */
  function IdAttr(id: string): string {
    " id=\"" + id + "\""
  }

  /** The replacement for one match: unchanged when its attributes mention `id=`. */
  function Rewritten(s: string, m: Heading): string
    requires IsMatch(s, m) && End(m) <= |s|
  {
    if HasIdAttr(s, m) then s[m.start..End(m)]
    else "<h" + [m.level] + Attrs(s, m) + IdAttr(Item(s, m).id) + ">" + Inner(s, m) + "</h" + [m.level] + ">"
  }

  /** Matches in document order, none overlapping another, all at or after `pos`. */
  predicate Chained(s: string, pos: nat, ms: seq<Heading>)
    decreases |ms|
  {
    ms == [] || (IsMatch(s, ms[0]) && pos <= ms[0].start && End(ms[0]) <= |s| && Chained(s, End(ms[0]), ms[1..]))
  }

  /** The matches of the global pattern are chained. */
  lemma {:induction false} ScanChained(s: string, pos: nat)
    requires pos <= |s|
    ensures Chained(s, pos, Scan(s, pos))
    decreases |s| - pos
  {
    match NextMatch(s, pos)
    case None =>
    case Some(m) =>
      ScanChained(s, End(m));
      assert Scan(s, pos)[1..] == Scan(s, End(m));
  }

  /** The rewrite of each match, in order. */
  function Rewrites(s: string, ms: seq<Heading>): (r: seq<string>)
    requires forall m :: m in ms ==> IsMatch(s, m) && End(m) <= |s|
    ensures |r| == |ms| && forall i :: 0 <= i < |ms| ==> r[i] == Rewritten(s, ms[i])
  {
    seq(|ms|, i requires 0 <= i < |ms| => Rewritten(s, ms[i]))
  }

  /**
   * `replace` with the global pattern: the text between matches is copied and
   * match `i` is replaced by `reps[i]`, its rewrite.
   */
  function Splice(s: string, pos: nat, ms: seq<Heading>, reps: seq<string>): string
    requires pos <= |s| && Chained(s, pos, ms) && |reps| == |ms|
    decreases |ms|
  {
    if ms == [] then s[pos..]
    else s[pos..ms[0].start] + reps[0] + Splice(s, End(ms[0]), ms[1..], reps[1..])
  }

  /** `addHeadingIds`. */
  function AddHeadingIds(html: string): string {
    ScanChained(html, 0);
    var ms := Scan(html, 0);
    Splice(html, 0, ms, Rewrites(html, ms))
  }

  /** HTML with no heading match, and the text before the first match, are copied unchanged. */
  lemma TextOutsideHeadingsKept(html: string)
    ensures Scan(html, 0) == [] ==> AddHeadingIds(html) == html
    ensures Scan(html, 0) != [] ==>
      var k := Scan(html, 0)[0].start;
      |AddHeadingIds(html)| >= k && AddHeadingIds(html)[..k] == html[..k]
  {
  }

  /** `x` is the piece of `y` starting at `k`. */
  predicate OccursAt(x: string, y: string, k: nat) {
    k + |x| <= |y| && y[k..k + |x|] == x
  }

  /** `x` occurs in `y` as a contiguous piece. */
  ghost predicate Occurs(x: string, y: string) {
    exists k: nat :: OccursAt(x, y, k)
  }

  /** A piece of `q` is a piece of `p + q`, `|p|` further on. */
  lemma OccursAfter(x: string, p: string, q: string, k: nat)
    requires OccursAt(x, q, k)
    ensures OccursAt(x, p + q, |p| + k)
  {
    assert (p + q)[|p| + k..|p| + k + |x|] == q[k..k + |x|];
  }

  /** A piece of a piece is a piece. */
  lemma OccursTransitive(x: string, y: string, z: string)
    requires Occurs(x, y) && Occurs(y, z)
    ensures Occurs(x, z)
  {
    var i: nat :| OccursAt(x, y, i);
    var j: nat :| OccursAt(y, z, j);
    forall t | 0 <= t < |x| ensures z[j + i + t] == x[t] {
      assert x[t] == y[i + t];
      assert y[i + t] == z[j..j + |y|][i + t];
    }
    assert z[j + i..j + i + |x|] == x;
    assert OccursAt(x, z, j + i);
  }

  /** The output of a splice has the first replacement right after the text before the first match. */
  lemma SpliceFirst(s: string, pos: nat, ms: seq<Heading>, reps: seq<string>)
    requires pos <= |s| && Chained(s, pos, ms) && |reps| == |ms| && ms != []
    ensures pos <= ms[0].start && End(ms[0]) <= |s| && Chained(s, End(ms[0]), ms[1..])
    ensures var before := s[pos..ms[0].start];
      && Splice(s, pos, ms, reps) == before + reps[0] + Splice(s, End(ms[0]), ms[1..], reps[1..])
      && OccursAt(reps[0], Splice(s, pos, ms, reps), |before|)
  {
    var before := s[pos..ms[0].start];
    var rest := Splice(s, End(ms[0]), ms[1..], reps[1..]);
    assert (before + reps[0] + rest)[|before|..|before| + |reps[0]|] == reps[0];
  }

  /** Every replacement appears, in one piece, in the output of a splice. */
  lemma {:induction false} ReplacementAppears(s: string, pos: nat, ms: seq<Heading>, reps: seq<string>, i: nat)
    requires pos <= |s| && Chained(s, pos, ms) && |reps| == |ms| && i < |ms|
    ensures Occurs(reps[i], Splice(s, pos, ms, reps))
    decreases i
  {
    SpliceFirst(s, pos, ms, reps);
    if i > 0 {
      var head := s[pos..ms[0].start] + reps[0];
      var rest := Splice(s, End(ms[0]), ms[1..], reps[1..]);
      ReplacementAppears(s, End(ms[0]), ms[1..], reps[1..], i - 1);
      var k: nat :| OccursAt(reps[i], rest, k);
      OccursAfter(reps[i], head, rest, k);
    }
  }

  /** Every match's rewrite appears, in one piece, in the output of `addHeadingIds`. */
  lemma RewrittenAppears(html: string, i: nat)
    requires i < |Scan(html, 0)|
    ensures Occurs(Rewritten(html, Scan(html, 0)[i]), AddHeadingIds(html))
  {
    var ms := Scan(html, 0);
    ScanChained(html, 0);
    ReplacementAppears(html, 0, ms, Rewrites(html, ms), i);
  }

  /** The rewrite of a heading without `id=` carries the anchor ` id="<id>"`. */
  lemma RewrittenCarriesAnchor(s: string, m: Heading)
    requires IsMatch(s, m) && End(m) <= |s| && !HasIdAttr(s, m)
    ensures Occurs(IdAttr(Item(s, m).id), Rewritten(s, m))
  {
    var pre := "<h" + [m.level] + Attrs(s, m);
    var anchor := IdAttr(Item(s, m).id);
    var post := ">" + Inner(s, m) + "</h" + [m.level] + ">";
    assert Rewritten(s, m) == pre + anchor + post;
    assert (pre + anchor + post)[|pre|..|pre| + |anchor|] == anchor;
    assert OccursAt(anchor, Rewritten(s, m), |pre|);
  }

  /**
   * The anchors the table of contents links to exist: for every item whose
   * heading had no `id=` attribute, the rewritten HTML carries ` id="<id>"`
   * with that item's id; a heading that had one is copied unchanged.
   */
  lemma TocAnchorsExist(html: string, i: nat)
    requires i < |Scan(html, 0)|
    ensures var m := Scan(html, 0)[i];
      && (!HasIdAttr(html, m) ==> Occurs(IdAttr(Items(html, Scan(html, 0))[i].id), AddHeadingIds(html)))
      && (HasIdAttr(html, m) ==> Occurs(html[m.start..End(m)], AddHeadingIds(html)))
  {
    var ms := Scan(html, 0);
    var m := ms[i];
    assert m in ms;
    RewrittenAppears(html, i);
    if !HasIdAttr(html, m) {
      assert Items(html, ms)[i] == Item(html, m);
      RewrittenCarriesAnchor(html, m);
      OccursTransitive(IdAttr(Item(html, m).id), Rewritten(html, m), AddHeadingIds(html));
    }
  }

  // ---------------------------------------------------------------------------
  // calculateReadingTime
  // ---------------------------------------------------------------------------

  /**
   * `split(/\s+/).filter(w => w.length > 0).length`: the maximal runs of
   * non-space characters, each counted at its last character.
   */
  function WordCount(t: string): (n: nat)
    ensures n <= |t|
    ensures n == 0 <==> forall c :: c in t ==> IsJsSpace(c)
    decreases |t|
  {
    if t == [] then 0
    else if IsJsSpace(t[0]) || (|t| > 1 && !IsJsSpace(t[1])) then
      assert forall c :: c in t[1..] ==> c in t;
      WordCount(t[1..])
    else 1 + WordCount(t[1..])
  }

  /** `Math.max(1, Math.ceil(words / 200))`. */
  function ReadingMinutes(words: nat): (r: nat)
    ensures r >= 1
    ensures r * 200 >= words
    ensures words > 200 ==> (r - 1) * 200 < words
    ensures r > 1 ==> (r - 1) * 200 < words
  {
    CeilDivIsLeastCover(words, 200);
    var minutes := CeilDiv(words, 200);
    if minutes < 1 then 1 else minutes
  }

  lemma ReadingMinutesMonotone(a: nat, b: nat)
    requires a <= b
    ensures ReadingMinutes(a) <= ReadingMinutes(b)
  {
    CeilDivIsLeastCover(a, 200);
    CeilDivIsLeastCover(b, 200);
  }

  /** `calculateReadingTime`: at least one minute, 200 words a minute, tags not counted. */
  function CalculateReadingTime(html: string): (r: nat)
    ensures r >= 1 && r * 200 >= WordCount(StripTags(html))
    ensures r > 1 ==> (r - 1) * 200 < WordCount(StripTags(html))
  {
    ReadingMinutes(WordCount(StripTags(html)))
  }
}
