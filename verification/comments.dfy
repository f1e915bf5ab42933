/**
 * The comment service: comments on posts, threaded through a parent
 * comment that must belong to the same post, created unapproved, and
 * edited or deleted by their author or an admin, with approval reserved to
 * admins.
 */
module Comments {
  import opened Common
  import opened Tables
  import opened Store

  const CommentNotFound := "Comment not found"
  const ParentNotFound := "Parent comment not found"
  const ParentOnOtherPost := "Parent comment does not belong to this post"
  const NotAuthorizedToUpdate := "You are not authorized to update this comment"
  const OnlyAdminsApprove := "Only admins can approve comments"
  const NotAuthorizedToDelete := "You are not authorized to delete this comment"
  const CommentDeleted := "Comment deleted successfully"

  /** Page size of the comment listings when none is given. */
  const DefaultPageSize: nat := 20

  /** Every reply's parent is a stored comment on the same post. */
  ghost predicate Threaded(comments: seq<Comment>) {
    forall c :: c in comments && c.parentId.Some? ==>
      exists parent :: parent in comments && parent.id == c.parentId.value && parent.postId == c.postId
  }

  /**
   * The checks `createComment` makes before writing: the post exists, and a
   * parent, when one is named, exists and is on the same post.
   */
  function CreationCheck(posts: seq<Post>, comments: seq<Comment>, postId: Id, parentId: Option<Id>)
    : (r: Result<()>)
    requires DistinctKeys(comments, CommentKey)
    ensures r.Ok? <==>
      && HasKey(posts, PostKey, postId)
      && (parentId.Some? ==> exists c :: c in comments && c.id == parentId.value && c.postId == postId)
    ensures r.Err? ==> r.message in {"Post not found", ParentNotFound, ParentOnOtherPost}
  {
    if !HasKey(posts, PostKey, postId) then Err("Post not found")
    else if parentId.None? then Ok(())
    else match FindRow(comments, CommentKey, parentId.value, ParentNotFound)
      case Err(e) => Err(e)
      case Ok(parent) =>
        if parent.postId != postId then
          assert forall c :: c in comments && c.id == parentId.value ==> c == parent;
          Err(ParentOnOtherPost)
        else Ok(())
  }

  /** `createComment`: the checks first, then an unapproved comment by the caller. */
  method CreateComment(db: Database, content: string, postId: Id, parentId: Option<Id>, authorId: Id)
    returns (r: Result<Comment>)
    requires db.Valid()
    modifies db`comments
    ensures db.Valid()
    ensures CreationCheck(old(db.posts), old(db.comments), postId, parentId).Err? ==>
      r == Err(CreationCheck(old(db.posts), old(db.comments), postId, parentId).message)
      && db.comments == old(db.comments)
    ensures CreationCheck(old(db.posts), old(db.comments), postId, parentId).Ok? ==>
      && r.Ok?
      && r.value == Comment(FreshKey(old(db.comments), CommentKey), content, postId, authorId, parentId, false)
      && db.comments == old(db.comments) + [r.value]
    ensures Threaded(old(db.comments)) ==> Threaded(db.comments)
  {
    var check := CreationCheck(db.posts, db.comments, postId, parentId);
    if check.Err? {
      return Err(check.message);
    }
    var c := Comment(FreshKey(db.comments, CommentKey), content, postId, authorId, parentId, false);
    AppendFreshKeepsDistinct(db.comments, CommentKey, c);
    ThreadedSnoc(db.comments, c);
    db.comments := db.comments + [c];
    r := Ok(c);
  }

  /** A comment whose parent is already on the same post keeps the table threaded. */
  lemma ThreadedSnoc(comments: seq<Comment>, c: Comment)
    requires c.parentId.Some? ==>
      exists parent :: parent in comments && parent.id == c.parentId.value && parent.postId == c.postId
    ensures Threaded(comments) ==> Threaded(comments + [c])
  {
    if Threaded(comments) {
      var all := comments + [c];
      forall x | x in all && x.parentId.Some?
        ensures exists parent :: parent in all && parent.id == x.parentId.value && parent.postId == x.postId
      {
        var parent :| parent in comments && parent.id == x.parentId.value && parent.postId == x.postId;
        assert parent in all;
      }
    }
  }

  /** A top-level comment of one post, with its replies oldest first. */
  datatype Thread = Thread(comment: Comment, replies: seq<Comment>)

  predicate TopLevel(postId: Id, approved: Option<bool>, c: Comment) {
    c.postId == postId && c.parentId.None? && (approved.Some? ==> c.approved == approved.value)
  }

  function TopLevelOf(postId: Id, approved: Option<bool>): Comment -> bool {
    c => TopLevel(postId, approved, c)
  }

  function RepliesTo(id: Id): Comment -> bool {
    (c: Comment) => c.parentId == Some(id)
  }

  function WithReplies(comments: seq<Comment>, tops: seq<Comment>): (r: seq<Thread>)
    ensures |r| == |tops|
    ensures forall i :: 0 <= i < |r| ==> r[i] == Thread(tops[i], Filter(comments, RepliesTo(tops[i].id)))
  {
    seq(|tops|, i requires 0 <= i < |tops| => Thread(tops[i], Filter(comments, RepliesTo(tops[i].id))))
  }

  /** The comments the threads start from, in the threads' order. */
  function Heads(ts: seq<Thread>): (r: seq<Comment>)
    ensures |r| == |ts|
    ensures forall i :: 0 <= i < |ts| ==> r[i] == ts[i].comment
  {
    seq(|ts|, i requires 0 <= i < |ts| => ts[i].comment)
  }

  /** One page of the post's top-level comments, newest first. */
  function TopLevelPage(comments: seq<Comment>, postId: Id, page: nat, limit: nat, approved: Option<bool>)
    : (r: Page<Comment>)
    ensures forall c :: c in r.items ==> c in comments && TopLevel(postId, approved, c)
    ensures IsPage(r, Reverse(Filter(comments, TopLevelOf(postId, approved))), page, limit, DefaultPageSize)
  {
    var tops := NewestFirst(comments, TopLevelOf(postId, approved));
    var listing := Paginate(tops, page, limit, DefaultPageSize);
    PageItemsAreRows(listing, tops, page, limit, DefaultPageSize);
    listing
  }

  /** A page of top-level comments, each joined with its replies. */
  function ThreadPage(comments: seq<Comment>, listing: Page<Comment>): (r: Page<Thread>)
    ensures r.pagination == listing.pagination
    ensures Heads(r.items) == listing.items
    ensures forall t :: t in r.items ==> t.comment in listing.items && t.replies == Filter(comments, RepliesTo(t.comment.id))
  {
    var threads := WithReplies(comments, listing.items);
    assert Heads(threads) == listing.items;
    Page(threads, listing.pagination)
  }

  /**
   * `getCommentsByPost`: one page of the post's top-level comments, newest
   * first, each with its replies in the order they were written.
   */
  function GetCommentsByPost(comments: seq<Comment>, postId: Id, page: nat, limit: nat, approved: Option<bool>)
    : (r: Page<Thread>)
    ensures r.pagination.total == |Filter(comments, TopLevelOf(postId, approved))|
    ensures r.pagination.limit == ResolveLimit(limit, DefaultPageSize)
    ensures forall t :: t in r.items ==>
      && t.comment in comments && TopLevel(postId, approved, t.comment)
      && t.replies == Filter(comments, RepliesTo(t.comment.id))
    ensures IsPage(Page(Heads(r.items), r.pagination), Reverse(Filter(comments, TopLevelOf(postId, approved))),
      page, limit, DefaultPageSize)
  {
    var listing := TopLevelPage(comments, postId, page, limit, approved);
    assert Page(listing.items, listing.pagination) == listing;
    ThreadPage(comments, listing)
  }

  /** Replies come back in writing order: of two replies, the earlier one is listed first. */
  lemma RepliesOldestFirst(comments: seq<Comment>, id: Id, i: nat, j: nat)
    requires i < j < |comments|
    requires comments[i].parentId == Some(id) && comments[j].parentId == Some(id)
    ensures var replies := Filter(comments, RepliesTo(id));
      exists a, b :: 0 <= a < b < |replies| && replies[a] == comments[i] && replies[b] == comments[j]
  {
    FilterKeepsOrder(comments, RepliesTo(id), i, j);
  }

  /** `getCommentById`: the comment with its replies, oldest first. */
  function GetCommentById(comments: seq<Comment>, id: Id): (r: Result<Thread>)
    ensures r.Ok? <==> HasKey(comments, CommentKey, id)
    ensures r.Ok? ==>
      r.value.comment in comments && r.value.comment.id == id && r.value.replies == Filter(comments, RepliesTo(id))
    ensures r.Err? ==> r.message == CommentNotFound
  {
    match FindRow(comments, CommentKey, id, CommentNotFound)
    case Err(e) => Err(e)
    case Ok(c) => Ok(Thread(c, Filter(comments, RepliesTo(id))))
  }

  /**
   * The guards of `updateComment`, in order: the comment exists, the caller
   * is its author or an admin, and only an admin supplies `approved`.
   */
  function UpdateCheck(c: Comment, approved: Option<bool>, userId: Id, role: string): (r: Result<()>)
    ensures r.Ok? <==> MayModify(c.authorId, userId, role) && (approved.Some? ==> IsAdmin(role))
    ensures !MayModify(c.authorId, userId, role) ==> r == Err(NotAuthorizedToUpdate)
    ensures MayModify(c.authorId, userId, role) && approved.Some? && !IsAdmin(role) ==> r == Err(OnlyAdminsApprove)
  {
    if !MayModify(c.authorId, userId, role) then Err(NotAuthorizedToUpdate)
    else if approved.Some? && !IsAdmin(role) then Err(OnlyAdminsApprove)
    else Ok(())
  }

  /** `update({ data: { content, approved } })`: only those two fields, when supplied. */
  function Edited(c: Comment, content: Option<string>, approved: Option<bool>): (r: Comment)
    ensures r.id == c.id && r.postId == c.postId && r.authorId == c.authorId && r.parentId == c.parentId
    ensures r.content == (if content.Some? then content.value else c.content)
    ensures r.approved == (if approved.Some? then approved.value else c.approved)
  {
    c.(content := if content.Some? then content.value else c.content,
       approved := if approved.Some? then approved.value else c.approved)
  }

  /** A user who is not an admin cannot change whether any comment, even their own, is approved. */
  lemma OnlyAdminsChangeApproval(c: Comment, content: Option<string>, approved: Option<bool>, userId: Id, role: string)
    requires UpdateCheck(c, approved, userId, role).Ok?
    requires !IsAdmin(role)
    ensures Edited(c, content, approved).approved == c.approved
    ensures c.authorId == userId
  {
  }

  /** `updateComment`: any failed guard writes nothing. */
  method UpdateComment(db: Database, id: Id, content: Option<string>, approved: Option<bool>, userId: Id, role: string)
    returns (r: Result<Comment>)
    requires db.Valid()
    modifies db`comments
    ensures db.Valid()
    ensures !HasKey(old(db.comments), CommentKey, id) ==>
      r == Err(CommentNotFound) && db.comments == old(db.comments)
    ensures HasKey(old(db.comments), CommentKey, id) ==>
      var i := IndexOf(old(db.comments), CommentKey, id).value;
      var c := old(db.comments)[i];
      var check := UpdateCheck(c, approved, userId, role);
      if check.Err? then r == Err(check.message) && db.comments == old(db.comments)
      else r == Ok(Edited(c, content, approved)) && db.comments == old(db.comments)[i := Edited(c, content, approved)]
    ensures Threaded(old(db.comments)) ==> Threaded(db.comments)
  {
    var at := IndexOf(db.comments, CommentKey, id);
    if at.None? {
      return Err(CommentNotFound);
    }
    var i := at.value;
    var c := db.comments[i];
    var check := UpdateCheck(c, approved, userId, role);
    if check.Err? {
      return Err(check.message);
    }
    var edited := Edited(c, content, approved);
    ReplaceKeepsDistinct(db.comments, CommentKey, i, edited);
    EditKeepsThreaded(db.comments, i, edited);
    db.comments := db.comments[i := edited];
    r := Ok(edited);
  }

  /** Replacing a comment by one with the same id, post and parent keeps the table threaded. */
  lemma EditKeepsThreaded(comments: seq<Comment>, i: nat, edited: Comment)
    requires i < |comments|
    requires edited.id == comments[i].id && edited.postId == comments[i].postId
    requires edited.parentId == comments[i].parentId
    ensures Threaded(comments) ==> Threaded(comments[i := edited])
  {
    if Threaded(comments) {
      var all := comments[i := edited];
      forall x | x in all && x.parentId.Some?
        ensures exists parent :: parent in all && parent.id == x.parentId.value && parent.postId == x.postId
      {
        var k :| 0 <= k < |all| && all[k] == x;
        var y := comments[k];
        assert y in comments && y.parentId == x.parentId && y.postId == x.postId;
        var parent :| parent in comments && parent.id == y.parentId.value && parent.postId == y.postId;
        var m :| 0 <= m < |comments| && comments[m] == parent;
        assert all[m].id == parent.id && all[m].postId == parent.postId;
        assert all[m] in all;
      }
    }
  }

  /** `deleteComment`: a missing comment or a caller who is neither author nor admin writes nothing. */
  method DeleteComment(db: Database, id: Id, userId: Id, role: string) returns (r: Result<string>)
    requires db.Valid()
    modifies db`comments
    ensures db.Valid()
    ensures !HasKey(old(db.comments), CommentKey, id) ==>
      r == Err(CommentNotFound) && db.comments == old(db.comments)
    ensures HasKey(old(db.comments), CommentKey, id) ==>
      var c := old(db.comments)[IndexOf(old(db.comments), CommentKey, id).value];
      if !MayModify(c.authorId, userId, role) then
        r == Err(NotAuthorizedToDelete) && db.comments == old(db.comments)
      else
        r == Ok(CommentDeleted) && db.comments == RemoveKeys(old(db.comments), CommentKey, {id})
  {
    var at := IndexOf(db.comments, CommentKey, id);
    if at.None? {
      return Err(CommentNotFound);
    }
    var c := db.comments[at.value];
    if !MayModify(c.authorId, userId, role) {
      return Err(NotAuthorizedToDelete);
    }
    FilterKeepsDistinct(db.comments, CommentKey, NotIn(CommentKey, {id}));
    db.comments := RemoveKeys(db.comments, CommentKey, {id});
    r := Ok(CommentDeleted);
  }

  /** The optional filters of `getAllComments`; an absent post or author id is no filter. */
  datatype CommentFilter = CommentFilter(approved: Option<bool>, postId: Option<Id>, authorId: Option<Id>)

  predicate Selected(f: CommentFilter, c: Comment) {
    && (f.approved.Some? ==> c.approved == f.approved.value)
    && (f.postId.Some? ==> c.postId == f.postId.value)
    && (f.authorId.Some? ==> c.authorId == f.authorId.value)
  }

  function SelectedBy(f: CommentFilter): Comment -> bool {
    c => Selected(f, c)
  }

  /** `getAllComments`: one page of every matching comment, replies included, newest first. */
  function GetAllComments(comments: seq<Comment>, f: CommentFilter, page: nat, limit: nat): (r: Page<Comment>)
    ensures r.pagination.total == |Filter(comments, SelectedBy(f))|
    ensures r.pagination.limit == ResolveLimit(limit, DefaultPageSize)
    ensures forall c :: c in r.items ==> c in comments && Selected(f, c)
    ensures IsPage(r, Reverse(Filter(comments, SelectedBy(f))), page, limit, DefaultPageSize)
  {
    var rows := NewestFirst(comments, SelectedBy(f));
    var listing := Paginate(rows, page, limit, DefaultPageSize);
    assert forall i :: 0 <= i < |listing.items| ==> listing.items[i] in rows;
    listing
  }

  /** With no filter every comment is counted. */
  lemma UnfilteredCountsAll(comments: seq<Comment>, page: nat, limit: nat)
    ensures GetAllComments(comments, CommentFilter(None, None, None), page, limit).pagination.total == |comments|
  {
    FilterAll(comments, SelectedBy(CommentFilter(None, None, None)));
  }
}
