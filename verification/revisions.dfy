/**
 * The revision store: append-only snapshots of a post's title, content and
 * excerpt, listed newest first, restorable, and pruned to the newest few.
 */
module Revisions {
  import opened Common
  import opened Tables
  import opened Store

  /** `deleteOldRevisions`' default `keepCount`. */
  const DefaultKeepCount: nat := 10

  /** The store's error when the row an `update` targets is gone. */
  const RecordToUpdateNotFound: string := "Record to update not found."

  function OfPost(postId: Id): Revision -> bool {
    (r: Revision) => r.postId == postId
  }

  function OfOtherPosts(postId: Id): Revision -> bool {
    (r: Revision) => r.postId != postId
  }

  /** The row `createRevision` inserts: `excerpt || null`, so an empty excerpt is stored as null. */
  function NewRevision(id: Id, postId: Id, userId: Id, title: string, content: string, excerpt: Option<string>): (r: Revision)
    ensures r.id == id && r.postId == postId && r.createdBy == userId
    ensures r.title == title && r.content == content
    ensures r.excerpt.Some? <==> excerpt.Some? && excerpt.value != ""
    ensures r.excerpt.Some? ==> r.excerpt == excerpt
  {
    Revision(id, postId, userId, title, content, NonEmpty(excerpt))
  }

  method CreateRevision(db: Database, postId: Id, userId: Id, title: string, content: string, excerpt: Option<string>)
    returns (r: Revision)
    requires db.Valid()
    modifies db`revisions
    ensures db.Valid()
    ensures r == NewRevision(FreshKey(old(db.revisions), RevisionKey), postId, userId, title, content, excerpt)
    ensures db.revisions == old(db.revisions) + [r]
  {
    r := NewRevision(FreshKey(db.revisions, RevisionKey), postId, userId, title, content, excerpt);
    AppendFreshKeepsDistinct(db.revisions, RevisionKey, r);
    db.revisions := db.revisions + [r];
  }

  /** `getPostRevisions`: that post's revisions, newest first. */
  function PostRevisions(revisions: seq<Revision>, postId: Id): (r: seq<Revision>)
    ensures forall x :: x in r <==> x in revisions && x.postId == postId
    ensures Reverse(r) == Filter(revisions, OfPost(postId))
  {
    ReverseReverse(Filter(revisions, OfPost(postId)));
    NewestFirst(revisions, OfPost(postId))
  }

  /** `getRevisionById`. */
  function FindRevision(revisions: seq<Revision>, id: Id): (r: Option<Revision>)
    ensures r.Some? ==> r.value in revisions && r.value.id == id
    ensures r.None? ==> forall i :: 0 <= i < |revisions| ==> revisions[i].id != id
  {
    match IndexOf(revisions, RevisionKey, id)
    case Some(i) => Some(revisions[i])
    case None => None
  }

  /** The post after a restore: title, content and excerpt from the revision, all else kept. */
  function Restored(p: Post, rev: Revision): (r: Post)
    ensures r.title == rev.title && r.content == rev.content && r.excerpt == rev.excerpt
    ensures r.(title := p.title, content := p.content, excerpt := p.excerpt) == p
  {
    p.(title := rev.title, content := rev.content, excerpt := rev.excerpt)
  }

  /**
   * `restoreRevision`: an unknown revision fails and changes nothing. Otherwise
   * the post's current text is snapshotted first, then the revision's text is
   * written over it. A revision whose post is gone fails in the store's update.
   */
  method RestoreRevision(db: Database, revisionId: Id, userId: Id) returns (r: Result<Post>)
    requires db.Valid()
    modifies db`revisions, db`posts
    ensures db.Valid()
    ensures FindRevision(old(db.revisions), revisionId).None? ==>
      r == Err("Revision not found") && db.revisions == old(db.revisions) && db.posts == old(db.posts)
    ensures FindRevision(old(db.revisions), revisionId).Some? ==>
      var rev := FindRevision(old(db.revisions), revisionId).value;
      match IndexOf(old(db.posts), PostKey, rev.postId)
      case None =>
        r == Err(RecordToUpdateNotFound) && db.revisions == old(db.revisions) && db.posts == old(db.posts)
      case Some(i) =>
        var current := old(db.posts)[i];
        && db.revisions == old(db.revisions) +
             [NewRevision(FreshKey(old(db.revisions), RevisionKey), rev.postId, userId,
                          current.title, current.content, current.excerpt)]
        && db.posts == old(db.posts)[i := Restored(current, rev)]
        && r == Ok(Restored(current, rev))
  {
    var found := FindRevision(db.revisions, revisionId);
    if found.None? {
      return Err("Revision not found");
    }
    var rev := found.value;
    var at := IndexOf(db.posts, PostKey, rev.postId);
    if at.None? {
      return Err(RecordToUpdateNotFound);
    }
    var i := at.value;
    var current := db.posts[i];
    var _ := CreateRevision(db, rev.postId, userId, current.title, current.content, current.excerpt);
    var updated := Restored(current, rev);
    db.ReplacePost(i, updated);
    r := Ok(updated);
  }

  /**
   * Restoring a revision and then the snapshot that restore took gives back
   * the post as it was, except that an empty excerpt comes back as null.
   */
  lemma RestoreUndone(p: Post, rev: Revision, snapshotId: Id, userId: Id)
    ensures var snapshot := NewRevision(snapshotId, p.id, userId, p.title, p.content, p.excerpt);
      Restored(Restored(p, rev), snapshot) == p.(excerpt := NonEmpty(p.excerpt))
  {
  }

  /** What `deleteOldRevisions(postId, keep)` leaves. */
  function PrunedRevisions(revisions: seq<Revision>, postId: Id, keep: nat): seq<Revision> {
    var newest := PostRevisions(revisions, postId);
    if |newest| > keep then RemoveKeys(revisions, RevisionKey, KeySet(newest[keep..], RevisionKey))
    else revisions
  }

  lemma SameKeySameRow(s: seq<Revision>, x: Revision, y: Revision)
    requires DistinctKeys(s, RevisionKey)
    requires x in s && y in s && x.id == y.id
    ensures x == y
  {
    var i :| 0 <= i < |s| && s[i] == x;
    var j :| 0 <= j < |s| && s[j] == y;
    assert RevisionKey(s[i]) == RevisionKey(s[j]);
  }

  /** Removing the ids of the post's oldest `m` revisions leaves its others, in order. */
  lemma PruneOwn(revisions: seq<Revision>, postId: Id, mine: seq<Revision>, m: nat, ids: set<Id>)
    requires DistinctKeys(revisions, RevisionKey)
    requires mine == Filter(revisions, OfPost(postId))
    requires m <= |mine| && ids == KeySet(mine[..m], RevisionKey)
    ensures Filter(RemoveKeys(revisions, RevisionKey, ids), OfPost(postId)) == mine[m..]
  {
    FilterFilter(revisions, NotIn(RevisionKey, ids), OfPost(postId));
    FilterFilter(revisions, OfPost(postId), NotIn(RevisionKey, ids));
    FilterExt(revisions, Both(NotIn(RevisionKey, ids), OfPost(postId)), Both(OfPost(postId), NotIn(RevisionKey, ids)));
    FilterKeepsDistinct(revisions, RevisionKey, OfPost(postId));
    RemovePrefixKeys(mine, RevisionKey, m);
  }

  /** No other post's revision shares an id with one of this post's revisions. */
  lemma OthersOutsideOwnIds(revisions: seq<Revision>, postId: Id, mine: seq<Revision>, ids: set<Id>)
    requires DistinctKeys(revisions, RevisionKey)
    requires mine == Filter(revisions, OfPost(postId))
    requires forall id :: id in ids ==> HasKey(mine, RevisionKey, id)
    ensures forall x :: x in Filter(revisions, OfOtherPosts(postId)) ==> x.id !in ids
  {
    forall x | x in Filter(revisions, OfOtherPosts(postId)) ensures x.id !in ids {
      if x.id in ids {
        var j :| 0 <= j < |mine| && RevisionKey(mine[j]) == x.id;
        assert mine[j] in mine;
        SameKeySameRow(revisions, x, mine[j]);
        assert false;
      }
    }
  }

  /** Removing ids of the post's own revisions leaves every other post's revisions. */
  lemma PruneOthers(revisions: seq<Revision>, postId: Id, mine: seq<Revision>, m: nat, ids: set<Id>)
    requires DistinctKeys(revisions, RevisionKey)
    requires mine == Filter(revisions, OfPost(postId))
    requires m <= |mine| && ids == KeySet(mine[..m], RevisionKey)
    ensures Filter(RemoveKeys(revisions, RevisionKey, ids), OfOtherPosts(postId)) == Filter(revisions, OfOtherPosts(postId))
  {
    var others := Filter(revisions, OfOtherPosts(postId));
    FilterFilter(revisions, NotIn(RevisionKey, ids), OfOtherPosts(postId));
    FilterFilter(revisions, OfOtherPosts(postId), NotIn(RevisionKey, ids));
    FilterExt(revisions, Both(NotIn(RevisionKey, ids), OfOtherPosts(postId)), Both(OfOtherPosts(postId), NotIn(RevisionKey, ids)));
    forall id | id in ids ensures HasKey(mine, RevisionKey, id) {
      var j :| 0 <= j < m && RevisionKey(mine[..m][j]) == id;
      assert RevisionKey(mine[j]) == id;
    }
    OthersOutsideOwnIds(revisions, postId, mine, ids);
    forall i | 0 <= i < |others| ensures NotIn(RevisionKey, ids)(others[i]) {
      assert others[i] in others;
    }
    FilterAll(others, NotIn(RevisionKey, ids));
  }

  /**
   * Pruning keeps exactly the newest `keep` revisions of the post, leaves every
   * other post's revisions as they were, and does nothing when the post has at
   * most `keep` revisions.
   */
  lemma PruneKeepsNewest(revisions: seq<Revision>, postId: Id, keep: nat)
    requires DistinctKeys(revisions, RevisionKey)
    ensures var mine := Filter(revisions, OfPost(postId));
      Filter(PrunedRevisions(revisions, postId, keep), OfPost(postId))
        == if |mine| > keep then mine[|mine| - keep..] else mine
    ensures Filter(PrunedRevisions(revisions, postId, keep), OfOtherPosts(postId))
        == Filter(revisions, OfOtherPosts(postId))
    ensures |Filter(revisions, OfPost(postId))| <= keep ==> PrunedRevisions(revisions, postId, keep) == revisions
  {
    var mine := Filter(revisions, OfPost(postId));
    if |mine| > keep {
      var m := |mine| - keep;
      var newest := PostRevisions(revisions, postId);
      var ids := KeySet(newest[keep..], RevisionKey);
      assert PrunedRevisions(revisions, postId, keep) == RemoveKeys(revisions, RevisionKey, ids);
      assert newest == Reverse(mine);
      ReversedTailKeys(mine, newest, RevisionKey, keep);
      assert mine[..|mine| - keep] == mine[..m];
      PruneOwn(revisions, postId, mine, m, ids);
      PruneOthers(revisions, postId, mine, m, ids);
    }
  }

  /**
   * `deleteOldRevisions`: finds the post's revisions newest first and, when
   * there are more than `keepCount` (default 10), deletes all after the first
   * `keepCount`.
   */
  method DeleteOldRevisions(db: Database, postId: Id, keepCount: Option<nat>)
    requires db.Valid()
    modifies db`revisions
    ensures db.Valid()
    ensures db.revisions ==
      PrunedRevisions(old(db.revisions), postId, if keepCount.Some? then keepCount.value else DefaultKeepCount)
  {
    var keep := if keepCount.Some? then keepCount.value else DefaultKeepCount;
    var newest := PostRevisions(db.revisions, postId);
    if |newest| > keep {
      var toDelete := KeySet(newest[keep..], RevisionKey);
      FilterKeepsDistinct(db.revisions, RevisionKey, NotIn(RevisionKey, toDelete));
      db.revisions := RemoveKeys(db.revisions, RevisionKey, toDelete);
    }
  }
}
