/**
 * Related posts: the published posts that share a category or a tag with a
 * subject post, scored by overlap, ordered by score with ties left in
 * newest-first order, and cut to a limit.
 */
module RelatedPosts {
  import opened Common
  import opened Tables
  import opened Sorting
  import opened Store

  /** The default of `getRelatedPosts(postId, limit = 5)`. */
  const DefaultLimit: nat := 5

  /** A candidate together with its relevance score. */
  datatype ScoredPost = ScoredPost(post: Post, score: nat)

  /** `findMany`'s filter: another published post sharing a category or a tag. */
  predicate IsCandidate(subject: Post, p: Post) {
    && p.id != subject.id
    && p.published
    && (p.categoryIds * subject.categoryIds != {} || p.tagIds * subject.tagIds != {})
  }

  function Candidacy(subject: Post): Post -> bool {
    p => IsCandidate(subject, p)
  }

  /**
   * `take: limit * 2, orderBy: { createdAt: 'desc' }`: the newest `2 * limit`
   * candidates.
   */
  function Candidates(posts: seq<Post>, subject: Post, limit: nat): (r: seq<Post>)
    ensures |r| <= 2 * limit
    ensures forall p :: p in r ==> p in posts && IsCandidate(subject, p)
    ensures |NewestFirst(posts, Candidacy(subject))| >= 2 * limit ==> |r| == 2 * limit
    ensures var n := |Filter(posts, Candidacy(subject))|; |r| == if n < 2 * limit then n else 2 * limit
    ensures forall i :: 0 <= i < |r| ==> r[i] == Reverse(Filter(posts, Candidacy(subject)))[i]
  {
    var newest := NewestFirst(posts, Candidacy(subject));
    assert newest == Reverse(Filter(posts, Candidacy(subject)));
    Window(newest, 0, 2 * limit)
  }

  /**
   * Whole days since the subject was published, rounded down (the divisor is
   * positive, so Euclidean division is floor division); 999 without a date.
   */
  function DaysSincePublished(subject: Post, now: Time): int {
    match subject.publishedAt
    case Some(t) => (now - t) / MillisPerDay
    case None => 999
  }

  /** The `+1` for a subject published fewer than 30 whole days ago. */
  function RecencyBonus(subject: Post, now: Time): (r: nat)
    ensures r == 1 <==> subject.publishedAt.Some? && now - subject.publishedAt.value < 30 * MillisPerDay
    ensures r <= 1
  {
    if DaysSincePublished(subject, now) < 30 then 1 else 0
  }

  /** 3 points per shared category, 1 per shared tag, plus the recency bonus. */
  function Score(subject: Post, p: Post, now: Time): nat {
    3 * |p.categoryIds * subject.categoryIds| + |p.tagIds * subject.tagIds| + RecencyBonus(subject, now)
  }

  /** Every candidate scores at least 1, since it shares a category or a tag. */
  lemma CandidateScoresAtLeastOne(subject: Post, p: Post, now: Time)
    requires IsCandidate(subject, p)
    ensures Score(subject, p, now) >= 1
  {
    if p.categoryIds * subject.categoryIds != {} {
      var c :| c in p.categoryIds * subject.categoryIds;
      assert |p.categoryIds * subject.categoryIds| >= |{c}|;
    } else {
      var t :| t in p.tagIds * subject.tagIds;
      assert |p.tagIds * subject.tagIds| >= |{t}|;
    }
  }

  /**
   * The bonus depends only on the subject: two candidates with the same
   * overlap score the same, and a subject never published gives no bonus.
   */
  lemma BonusDependsOnlyOnSubject(subject: Post, p: Post, q: Post, now: Time)
    requires |p.categoryIds * subject.categoryIds| == |q.categoryIds * subject.categoryIds|
    requires |p.tagIds * subject.tagIds| == |q.tagIds * subject.tagIds|
    ensures Score(subject, p, now) == Score(subject, q, now)
    ensures subject.publishedAt.None? ==>
      Score(subject, p, now) == 3 * |p.categoryIds * subject.categoryIds| + |p.tagIds * subject.tagIds|
  {
  }

  /** `.sort((a, b) => b.score - a.score)`: `a` may precede `b` when it scores no less. */
  predicate ByScoreDesc(a: ScoredPost, b: ScoredPost) {
    a.score >= b.score
  }

  lemma ByScoreDescIsTotalPreorder()
    ensures TotalPreorder(ByScoreDesc)
  {
  }

  function Scored(subject: Post, cands: seq<Post>, now: Time): (r: seq<ScoredPost>)
    ensures |r| == |cands|
    ensures forall i :: 0 <= i < |r| ==> r[i] == ScoredPost(cands[i], Score(subject, cands[i], now))
  {
    seq(|cands|, i requires 0 <= i < |cands| => ScoredPost(cands[i], Score(subject, cands[i], now)))
  }

  /** `limit = 5`: an absent limit is the default, a given one (0 included) is kept. */
  function Resolved(limit: Option<nat>): nat {
    if limit.Some? then limit.value else DefaultLimit
  }

  /** `getRelatedPosts`: no subject gives an empty list; otherwise score, sort, slice. */
  function GetRelatedPosts(posts: seq<Post>, postId: Id, limit: Option<nat>, now: Time): (r: seq<ScoredPost>)
    ensures FindPost(posts, postId).Err? ==> r == []
    ensures |r| <= Resolved(limit)
    ensures limit.None? ==> |r| <= DefaultLimit
    ensures FindPost(posts, postId).Ok? ==>
      var subject := FindPost(posts, postId).value;
      forall x :: x in r ==>
        x.post in posts && IsCandidate(subject, x.post) && x.score == Score(subject, x.post, now)
    ensures FindPost(posts, postId).Ok? ==>
      var n := |Filter(posts, Candidacy(FindPost(posts, postId).value))|;
      |r| == if n < Resolved(limit) then n else Resolved(limit)
  {
    match FindPost(posts, postId)
    case Err(_) => []
    case Ok(subject) =>
      var scored := Scored(subject, Candidates(posts, subject, Resolved(limit)), now);
      var sorted := SortBy(scored, ByScoreDesc);
      SortByPerm(scored, ByScoreDesc);
      var r := Window(sorted, 0, Resolved(limit));
      assert forall x :: x in r ==> x in multiset(scored);
      r
  }

  /** The first `n` of the subject's candidates, scored and sorted by score descending. */
  function RelatedOf(posts: seq<Post>, subject: Post, n: nat, now: Time): seq<ScoredPost> {
    Window(SortBy(Scored(subject, Candidates(posts, subject, n), now), ByScoreDesc), 0, n)
  }

  /**
   * The ranked output: sorted by score descending, each entry carrying its
   * candidate's score, which is at least 1.
   */
  lemma RelatedRanked(posts: seq<Post>, postId: Id, limit: Option<nat>, now: Time)
    ensures var r := GetRelatedPosts(posts, postId, limit, now);
      && Sorted(r, ByScoreDesc)
      && forall x :: x in r ==> x.score >= 1
  {
    if FindPost(posts, postId).Ok? {
      var subject := FindPost(posts, postId).value;
      var scored := Scored(subject, Candidates(posts, subject, Resolved(limit)), now);
      ByScoreDescIsTotalPreorder();
      SortBySorted(scored, ByScoreDesc);
      var r := GetRelatedPosts(posts, postId, limit, now);
      forall x | x in r ensures x.score >= 1 {
        CandidateScoresAtLeastOne(subject, x.post, now);
      }
    }
  }

  /** The related posts of a subject are a prefix of its sorted candidates. */
  lemma RelatedIsSortedPrefix(posts: seq<Post>, subject: Post, limit: Option<nat>, now: Time)
    requires FindPost(posts, subject.id) == Ok(subject)
    ensures var sorted := SortBy(Scored(subject, Candidates(posts, subject, Resolved(limit)), now), ByScoreDesc);
      var out := GetRelatedPosts(posts, subject.id, limit, now);
      |out| <= |sorted| && out == sorted[..|out|]
  {
    var n := Resolved(limit);
    var sorted := SortBy(Scored(subject, Candidates(posts, subject, n), now), ByScoreDesc);
    assert GetRelatedPosts(posts, subject.id, limit, now) == RelatedOf(posts, subject, n, now);
    WindowIsPrefix(sorted, n);
  }

  lemma WindowIsPrefix(sorted: seq<ScoredPost>, n: nat)
    ensures var out := Window(sorted, 0, n);
      |out| <= |sorted| && out == sorted[..|out|]
  {
    var out := Window(sorted, 0, n);
    assert forall i :: 0 <= i < |out| ==> out[i] == sorted[i];
  }

  /**
   * Stability: among the entries with any one score, the output keeps the
   * candidates' newest-first order, as a prefix of that order.
   */
  lemma RelatedTiesNewestFirst(posts: seq<Post>, subject: Post, limit: Option<nat>, now: Time, y: ScoredPost)
    requires FindPost(posts, subject.id) == Ok(subject)
    ensures var scored := Scored(subject, Candidates(posts, subject, Resolved(limit)), now);
      var tie := TieWith(ByScoreDesc, y);
      var r := Filter(GetRelatedPosts(posts, subject.id, limit, now), tie);
      |r| <= |Filter(scored, tie)| && r == Filter(scored, tie)[..|r|]
  {
    var n := Resolved(limit);
    assert GetRelatedPosts(posts, subject.id, limit, now) == RelatedOf(posts, subject, n, now);
    WindowTiesStable(Scored(subject, Candidates(posts, subject, n), now), n, y);
  }

  /** A sorted prefix keeps, for each score, a prefix of the input's order. */
  lemma WindowTiesStable(scored: seq<ScoredPost>, n: nat, y: ScoredPost)
    ensures var tie := TieWith(ByScoreDesc, y);
      var r := Filter(Window(SortBy(scored, ByScoreDesc), 0, n), tie);
      |r| <= |Filter(scored, tie)| && r == Filter(scored, tie)[..|r|]
  {
    var sorted := SortBy(scored, ByScoreDesc);
    var tie := TieWith(ByScoreDesc, y);
    ByScoreDescIsTotalPreorder();
    SortByStable(scored, ByScoreDesc, y);
    var out := Window(sorted, 0, n);
    WindowIsPrefix(sorted, n);
    assert sorted == out + sorted[|out|..];
    FilterAppend(out, sorted[|out|..], tie);
  }
}
