/**
 * The background scheduler: a registry of named periodic tasks, the minutely
 * sweep that publishes posts whose scheduled instant has passed, and the
 * daily deletion of page views older than ninety days. The cron runtime
 * itself is outside the model; a sweep is a call at a given instant.
 */
module Scheduler {
  import opened Common
  import opened Tables
  import opened Store
  import Cache

  /** What a registered task runs: one of the two built-in jobs or a caller's own callback. */
  datatype Job = PublishScheduled | CleanupViews | Callback(tag: nat)

  datatype Task = Task(cronExpression: string, job: Job)

  const PublishTaskName: string := "publish-scheduled-posts"
  const EveryMinute: string := "* * * * *"
  const CleanupTaskName: string := "cleanup-old-views"
  const DailyAtMidnight: string := "0 0 * * *"

  /** The registry after `scheduleTask(name, ...)`: the first registration of a name wins. */
  function Registered(tasks: map<string, Task>, name: string, t: Task): (r: map<string, Task>)
    ensures name in tasks ==> r == tasks
    ensures name !in tasks ==> r.Keys == tasks.Keys + {name} && r[name] == t
    ensures forall n :: n in tasks ==> n in r && r[n] == tasks[n]
  {
    if name in tasks then tasks else tasks[name := t]
  }

  /** Registering a name twice is registering it once. */
  lemma RegisterTwice(tasks: map<string, Task>, name: string, t: Task, t': Task)
    ensures Registered(Registered(tasks, name, t), name, t') == Registered(tasks, name, t)
  {
  }

  /** The registry after `init()`. */
  function Initialized(tasks: map<string, Task>): map<string, Task> {
    Registered(Registered(tasks, PublishTaskName, Task(EveryMinute, PublishScheduled)),
               CleanupTaskName, Task(DailyAtMidnight, CleanupViews))
  }

  /** On an empty registry `init()` registers exactly the two built-in tasks; a second `init()` changes nothing. */
  lemma InitRegistersBuiltins(tasks: map<string, Task>)
    ensures Initialized(map[]) ==
      map[PublishTaskName := Task(EveryMinute, PublishScheduled), CleanupTaskName := Task(DailyAtMidnight, CleanupViews)]
    ensures Initialized(Initialized(tasks)) == Initialized(tasks)
    ensures PublishTaskName in Initialized(tasks) && CleanupTaskName in Initialized(tasks)
  {
    assert PublishTaskName != CleanupTaskName;
  }

  /** The registry of scheduled jobs; stopping one also stops its cron job. */
  class SchedulerService {
    var tasks: map<string, Task>

    constructor()
      ensures tasks == map[]
    {
      tasks := map[];
    }

    method Init()
      modifies this
      ensures tasks == Initialized(old(tasks))
    {
      ScheduleTask(PublishTaskName, EveryMinute, PublishScheduled);
      ScheduleTask(CleanupTaskName, DailyAtMidnight, CleanupViews);
    }

    method ScheduleTask(name: string, cronExpression: string, job: Job)
      modifies this
      ensures tasks == Registered(old(tasks), name, Task(cronExpression, job))
    {
      if name in tasks {
        return;
      }
      tasks := tasks[name := Task(cronExpression, job)];
    }

    /** Only the named task goes; an unknown name changes nothing. */
    method StopTask(name: string)
      modifies this
      ensures tasks == old(tasks) - {name}
      ensures name !in old(tasks) ==> tasks == old(tasks)
    {
      if name in tasks {
        tasks := tasks - {name};
      }
    }

    method StopAll()
      modifies this
      ensures tasks == map[]
    {
      tasks := map[];
    }
  }

  // ---------------------------------------------------------------------------
  // Publishing scheduled posts
  // ---------------------------------------------------------------------------

  /** `published: false, scheduledPublishAt: { lte: now, not: null }`. */
  predicate Due(p: Post, now: Time) {
    !p.published && p.scheduledPublishAt.Some? && p.scheduledPublishAt.value <= now
  }

  function DueAt(now: Time): Post -> bool {
    (p: Post) => Due(p, now)
  }

  /** Posts whose update the store accepts; the others throw and are skipped. */
  function Succeeds(failing: set<Id>): Post -> bool {
    (p: Post) => p.id !in failing
  }

  /** The update applied to a due post. */
  function Promoted(p: Post, now: Time): (r: Post)
    ensures r.published && r.publishedAt == Some(now) && r.scheduledPublishAt.None?
    ensures r.(published := p.published, publishedAt := p.publishedAt, scheduledPublishAt := p.scheduledPublishAt) == p
  {
    p.(published := true, publishedAt := Some(now), scheduledPublishAt := None)
  }

  /** One row after the sweep: promoted when due and its update succeeds, untouched otherwise. */
  function Swept(p: Post, now: Time, failing: set<Id>): Post {
    if Due(p, now) && p.id !in failing then Promoted(p, now) else p
  }

  /** The post table after a sweep at `now`. */
  function Sweep(posts: seq<Post>, now: Time, failing: set<Id>): (r: seq<Post>)
    ensures |r| == |posts|
    ensures forall i :: 0 <= i < |posts| ==> r[i] == Swept(posts[i], now, failing)
  {
    seq(|posts|, i requires 0 <= i < |posts| => Swept(posts[i], now, failing))
  }

  /** The posts a sweep publishes, in table order. */
  function Promotable(posts: seq<Post>, now: Time, failing: set<Id>): (r: seq<Post>)
    ensures forall p :: p in r <==> p in posts && Due(p, now) && p.id !in failing
  {
    Filter(Filter(posts, DueAt(now)), Succeeds(failing))
  }

  /** A sweep never sets both instants on a row where they were not both set. */
  lemma SweepKeepsExclusive(posts: seq<Post>, now: Time, failing: set<Id>)
    requires AllScheduleExclusive(posts)
    ensures AllScheduleExclusive(Sweep(posts, now, failing))
  {
  }

  /** A sweep keeps every row's id. */
  lemma SweepKeepsKeys(posts: seq<Post>, now: Time, failing: set<Id>)
    requires DistinctKeys(posts, PostKey)
    ensures DistinctKeys(Sweep(posts, now, failing), PostKey)
  {
    var r := Sweep(posts, now, failing);
    assert forall i :: 0 <= i < |posts| ==> PostKey(r[i]) == PostKey(posts[i]);
  }

  /** With no failures nothing is left due, and a second sweep at the same instant changes nothing. */
  lemma SweepLeavesNothingDue(posts: seq<Post>, now: Time)
    ensures forall p :: p in Sweep(posts, now, {}) ==> !Due(p, now)
    ensures Sweep(Sweep(posts, now, {}), now, {}) == Sweep(posts, now, {})
  {
  }

  /** A sweep never unpublishes, and every row it changes was due. */
  lemma SweepOnlyPromotesDue(posts: seq<Post>, now: Time, failing: set<Id>)
    ensures forall i :: 0 <= i < |posts| && posts[i].published ==> Sweep(posts, now, failing)[i] == posts[i]
    ensures forall i :: 0 <= i < |posts| && Sweep(posts, now, failing)[i] != posts[i] ==> Due(posts[i], now)
  {
  }

  /** The rows of `posts` whose id is in `ids`, promoted. */
  function PromoteIds(posts: seq<Post>, ids: set<Id>, now: Time): (r: seq<Post>)
    ensures |r| == |posts|
    ensures forall i :: 0 <= i < |posts| ==> r[i] == if posts[i].id in ids then Promoted(posts[i], now) else posts[i]
  {
    seq(|posts|, i requires 0 <= i < |posts| => if posts[i].id in ids then Promoted(posts[i], now) else posts[i])
  }

  /** Updating one more not-yet-promoted post by id. */
  lemma PromoteStep(posts: seq<Post>, done: set<Id>, x: Post, now: Time)
    requires DistinctKeys(posts, PostKey)
    requires x in posts && x.id !in done
    ensures var cur := PromoteIds(posts, done, now);
      && IndexOf(cur, PostKey, x.id).Some?
      && var j := IndexOf(cur, PostKey, x.id).value;
         && cur[j] == posts[j]
         && cur[j := Promoted(cur[j], now)] == PromoteIds(posts, done + {x.id}, now)
  {
    var cur := PromoteIds(posts, done, now);
    var i :| 0 <= i < |posts| && posts[i] == x;
    assert PostKey(cur[i]) == x.id;
    var j := IndexOf(cur, PostKey, x.id).value;
    assert posts[j].id == x.id;
  }

  /** In a table with distinct ids, a row's id is not among the ids of the rows before it. */
  lemma NotYetDone(due: seq<Post>, k: nat, p: Post -> bool)
    requires DistinctKeys(due, PostKey) && k < |due|
    ensures due[k].id !in KeySet(Filter(due[..k], p), PostKey)
  {
    var sel := Filter(due[..k], p);
    forall y | y in sel ensures y.id != due[k].id {
      var m :| 0 <= m < k && due[..k][m] == y;
      assert due[m] == y;
    }
    assert forall i :: 0 <= i < |sel| ==> sel[i] in sel;
    assert !HasKey(sel, PostKey, due[k].id);
  }

  /** Promoting the ids the sweep selects is the sweep. */
  lemma PromotableIsSweep(posts: seq<Post>, now: Time, failing: set<Id>)
    requires DistinctKeys(posts, PostKey)
    ensures PromoteIds(posts, KeySet(Promotable(posts, now, failing), PostKey), now) == Sweep(posts, now, failing)
  {
    var sel := Promotable(posts, now, failing);
    var ids := KeySet(sel, PostKey);
    forall i | 0 <= i < |posts| && posts[i].id in ids
      ensures Due(posts[i], now) && posts[i].id !in failing
    {
      var m :| 0 <= m < |sel| && sel[m].id == posts[i].id;
      assert sel[m] in posts;
      var j :| 0 <= j < |posts| && posts[j] == sel[m];
      assert j == i;
    }
    forall i | 0 <= i < |posts| && Due(posts[i], now) && posts[i].id !in failing
      ensures posts[i].id in ids
    {
      assert posts[i] in sel;
      var m :| 0 <= m < |sel| && sel[m] == posts[i];
      assert HasKey(sel, PostKey, posts[i].id);
    }
  }

  /** The table after promoting one more post, by id. */
  lemma PromoteNext(posts: seq<Post>, promoted: seq<Post>, x: Post, now: Time)
    requires DistinctKeys(posts, PostKey)
    requires x in posts && x.id !in KeySet(promoted, PostKey)
    ensures var cur := PromoteIds(posts, KeySet(promoted, PostKey), now);
      && IndexOf(cur, PostKey, x.id).Some?
      && var j := IndexOf(cur, PostKey, x.id).value;
         cur[j := Promoted(cur[j], now)] == PromoteIds(posts, KeySet(promoted + [x], PostKey), now)
  {
    PromoteStep(posts, KeySet(promoted, PostKey), x, now);
    KeySetSnoc(promoted, x, PostKey);
  }

  /** The cache after invalidating one more promoted post. */
  lemma InvalidateNext<V>(m: map<string, V>, promoted: seq<Post>, x: Post)
    ensures Cache.InvalidatedEach(m, Slugs(promoted + [x])) == Cache.InvalidatedPost(Cache.InvalidatedEach(m, Slugs(promoted)), x.slug)
  {
    SlugsSnoc(promoted, x);
    Cache.InvalidatedEachSnoc(m, Slugs(promoted), x.slug);
  }

  /** What one more iteration adds to the promoted posts. */
  lemma NextPromoted(due: seq<Post>, k: nat, failing: set<Id>)
    requires k < |due| && DistinctKeys(due, PostKey)
    ensures Filter(due[..k + 1], Succeeds(failing)) ==
      if due[k].id in failing then Filter(due[..k], Succeeds(failing)) else Filter(due[..k], Succeeds(failing)) + [due[k]]
    ensures due[k].id !in KeySet(Filter(due[..k], Succeeds(failing)), PostKey)
  {
    assert due[..k + 1] == due[..k] + [due[k]];
    FilterSnoc(due[..k], due[k], Succeeds(failing));
    NotYetDone(due, k, Succeeds(failing));
  }

  /** `prisma.post.update({ where: { id: post.id }, data: { published: true, publishedAt: now, scheduledPublishAt: null } })`. */
  method PromoteRow(db: Database, post: Post, now: Time, ghost posts0: seq<Post>, ghost promoted: seq<Post>)
    requires DistinctKeys(posts0, PostKey) && post in posts0 && post.id !in KeySet(promoted, PostKey)
    requires db.posts == PromoteIds(posts0, KeySet(promoted, PostKey), now)
    modifies db`posts
    ensures db.posts == PromoteIds(posts0, KeySet(promoted + [post], PostKey), now)
  {
    PromoteNext(posts0, promoted, post, now);
    var j := IndexOf(db.posts, PostKey, post.id).value;
    db.posts := db.posts[j := Promoted(db.posts[j], now)];
  }

  /** `invalidatePost(post.slug)` then `invalidatePosts()`. */
  method InvalidateRow<V>(cache: Cache.CacheService<V>, post: Post, ghost store0: map<string, V>, ghost promoted: seq<Post>)
    requires cache.store == if cache.Active() then Cache.InvalidatedEach(store0, Slugs(promoted)) else store0
    modifies cache`store
    ensures cache.store == if cache.Active() then Cache.InvalidatedEach(store0, Slugs(promoted + [post])) else store0
  {
    InvalidateNext(store0, promoted, post);
    Cache.InvalidatedPostsAfterPost(cache.store, post.slug);
    cache.InvalidatePost(post.slug);
    cache.InvalidatePosts();
  }

  /** One iteration of the promotion loop: the `k`-th selected post is updated unless it fails. */
  method PromoteAt<V>(db: Database, cache: Cache.CacheService<V>, due: seq<Post>, k: nat, now: Time, failing: set<Id>,
                      ghost posts0: seq<Post>, ghost store0: map<string, V>)
    requires k < |due| && DistinctKeys(due, PostKey) && DistinctKeys(posts0, PostKey)
    requires forall p :: p in due ==> p in posts0
    requires db.posts == PromoteIds(posts0, KeySet(Filter(due[..k], Succeeds(failing)), PostKey), now)
    requires cache.store == if cache.Active() then
      Cache.InvalidatedEach(store0, Slugs(Filter(due[..k], Succeeds(failing)))) else store0
    modifies db`posts, cache`store
    ensures db.posts == PromoteIds(posts0, KeySet(Filter(due[..k + 1], Succeeds(failing)), PostKey), now)
    ensures cache.store == if cache.Active() then
      Cache.InvalidatedEach(store0, Slugs(Filter(due[..k + 1], Succeeds(failing)))) else store0
  {
    var post := due[k];
    ghost var promoted := Filter(due[..k], Succeeds(failing));
    NextPromoted(due, k, failing);
    if post.id !in failing {
      assert post in due;
      PromoteRow(db, post, now, posts0, promoted);
      InvalidateRow(cache, post, store0, promoted);
    }
  }

  /**
   * The `for (const post of scheduledPosts)` loop: every selected post whose
   * update succeeds is promoted and invalidated, in list order.
   */
  method PromoteEach<V>(db: Database, cache: Cache.CacheService<V>, due: seq<Post>, now: Time, failing: set<Id>)
    requires DistinctKeys(due, PostKey) && DistinctKeys(db.posts, PostKey)
    requires forall p :: p in due ==> p in db.posts
    modifies db`posts, cache`store
    ensures db.posts == PromoteIds(old(db.posts), KeySet(Filter(due, Succeeds(failing)), PostKey), now)
    ensures cache.store == if cache.Active() then
      Cache.InvalidatedEach(old(cache.store), Slugs(Filter(due, Succeeds(failing)))) else old(cache.store)
  {
    var k := 0;
    while k < |due|
      invariant 0 <= k <= |due|
      invariant db.posts == PromoteIds(old(db.posts), KeySet(Filter(due[..k], Succeeds(failing)), PostKey), now)
      invariant cache.store == if cache.Active() then
        Cache.InvalidatedEach(old(cache.store), Slugs(Filter(due[..k], Succeeds(failing)))) else old(cache.store)
    {
      PromoteAt(db, cache, due, k, now, failing, old(db.posts), old(cache.store));
      k := k + 1;
    }
    assert due[..k] == due;
  }

  /**
   * `publishScheduledPosts`: select the due posts, then promote them one at a
   * time; a post whose update throws is skipped and the loop goes on. Each
   * promoted post's cache entry and both bulk namespaces are dropped.
   */
  method PublishScheduledPosts<V>(db: Database, cache: Cache.CacheService<V>, now: Time, failing: set<Id>)
    requires db.Valid()
    modifies db`posts, cache`store
    ensures db.Valid()
    ensures db.posts == Sweep(old(db.posts), now, failing)
    ensures cache.store == if cache.Active() then
      Cache.InvalidatedEach(old(cache.store), Slugs(Promotable(old(db.posts), now, failing))) else old(cache.store)
  {
    var scheduledPosts := Filter(db.posts, DueAt(now));
    FilterKeepsDistinct(db.posts, PostKey, DueAt(now));
    PromoteEach(db, cache, scheduledPosts, now, failing);
    PromotableIsSweep(old(db.posts), now, failing);
    SweepKeepsKeys(old(db.posts), now, failing);
  }

  // ---------------------------------------------------------------------------
  // View retention
  // ---------------------------------------------------------------------------

  const RetentionDays: nat := 90

  /** Ninety days before `now`. */
  function Cutoff(now: Time): (r: Time)
    ensures r < now
  {
    now - RetentionDays * MillisPerDay
  }

  function KeptAfter(cutoff: Time): PostView -> bool {
    (v: PostView) => !(v.viewedAt < cutoff)
  }

  /** `cleanupOldViews`: delete exactly the views strictly older than the cutoff. */
  method CleanupOldViews(db: Database, now: Time)
    requires db.Valid()
    modifies db`views
    ensures db.Valid()
    ensures db.views == Filter(old(db.views), KeptAfter(Cutoff(now)))
    ensures forall v :: v in db.views <==> v in old(db.views) && v.viewedAt >= Cutoff(now)
  {
    FilterKeepsDistinct(db.views, ViewKey, KeptAfter(Cutoff(now)));
    db.views := Filter(db.views, KeptAfter(Cutoff(now)));
  }

  /** Two cleanups delete what one cleanup at the later of the two instants deletes. */
  lemma CleanupTwiceIsLatest(views: seq<PostView>, now: Time, later: Time)
    ensures Filter(Filter(views, KeptAfter(Cutoff(now))), KeptAfter(Cutoff(later)))
      == Filter(views, KeptAfter(Cutoff(if later <= now then now else later)))
  {
    var once := Filter(views, KeptAfter(Cutoff(now)));
    if later <= now {
      forall i | 0 <= i < |once| ensures KeptAfter(Cutoff(later))(once[i]) {
        assert once[i] in once;
      }
      FilterAll(once, KeptAfter(Cutoff(later)));
    } else {
      KeptAfterNarrows(views, Cutoff(now), Cutoff(later));
    }
  }

  /** Keeping the views after `c` and then after a later `d` keeps those after `d`. */
  lemma {:induction false} KeptAfterNarrows(views: seq<PostView>, c: Time, d: Time)
    requires c <= d
    ensures Filter(Filter(views, KeptAfter(c)), KeptAfter(d)) == Filter(views, KeptAfter(d))
  {
    if views != [] {
      KeptAfterNarrows(views[1..], c, d);
      var head := if KeptAfter(c)(views[0]) then [views[0]] else [];
      FilterAppend(head, Filter(views[1..], KeptAfter(c)), KeptAfter(d));
      assert Filter(head, KeptAfter(d)) == if KeptAfter(d)(views[0]) then [views[0]] else [];
    }
  }
}
