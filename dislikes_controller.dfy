/**
 * The dislikes controller: the listing of the tuits a user disliked and the
 * dislike toggle, which keeps the tuit's dislike counter in step with the
 * dislike records.
 */
module DislikesController {
  import opened Wrappers
  import opened Records
  import opened Http
  import Collection
  import Database
  import DislikesDao
  import TuitDao

  /** The path segment that stands for the logged-in user. */
  const Me: string := "me"

  /**
   * The user a request acts for: the session profile's id when the path says
   * "me" and there is a session, otherwise the path segment taken literally.
   */
  function ResolveUser(profile: Option<UserId>, uid: string): (userId: UserId)
    ensures uid == Me && profile.Some? ==> userId == profile.value
    ensures !(uid == Me && profile.Some?) ==> userId == uid
  {
    if uid == Me && profile.Some? then profile.value else uid
  }

  /** The filter that keeps a dislike whose tuit still resolves to a document. */
  function TuitResolves(tuits: map<TuitId, Tuit>): Dislike -> bool {
    (d: Dislike) => d.tuit in tuits
  }

  /** The tuit documents the given dislikes point to (`dislike.tuit` after population). */
  function PopulatedTuits(records: seq<Dislike>, tuits: map<TuitId, Tuit>): (r: seq<Tuit>)
    requires forall d :: d in records ==> d.tuit in tuits
    ensures |r| == |records|
    ensures forall i :: 0 <= i < |records| ==> r[i] == tuits[records[i].tuit]
  {
    if records == [] then [] else [tuits[records[0].tuit]] + PopulatedTuits(records[1..], tuits)
  }

  /** The dislikes of userId whose tuit still resolves, in store order. */
  function LiveRecords(dislikes: seq<Dislike>, tuits: map<TuitId, Tuit>, userId: UserId): (r: seq<Dislike>)
    ensures |r| <= |DislikesDao.FindAllTuitsDislikedByUser(dislikes, userId)|
    ensures forall d :: d in r <==> d in dislikes && d.dislikedBy == userId && d.tuit in tuits
  {
    Collection.Find(DislikesDao.FindAllTuitsDislikedByUser(dislikes, userId), TuitResolves(tuits))
  }

  /** Every populated tuit comes from one of the records. */
  lemma PopulatedFromRecords(records: seq<Dislike>, tuits: map<TuitId, Tuit>)
    requires forall d :: d in records ==> d.tuit in tuits
    ensures forall t :: t in PopulatedTuits(records, tuits) ==> exists d :: d in records && tuits[d.tuit] == t
  {
    var r := PopulatedTuits(records, tuits);
    forall t | t in r ensures exists d :: d in records && tuits[d.tuit] == t {
      var i :| 0 <= i < |r| && r[i] == t;
      assert records[i] in records;
    }
  }

  /**
   * The tuits of userId's dislikes in store order, leaving out dislikes whose
   * tuit is gone (population yields null for them and the listing drops nulls).
   */
  function Listing(dislikes: seq<Dislike>, tuits: map<TuitId, Tuit>, userId: UserId): (r: seq<Tuit>)
    ensures |r| <= |DislikesDao.FindAllTuitsDislikedByUser(dislikes, userId)|
    ensures forall t :: t in r ==>
      exists d :: d in dislikes && d.dislikedBy == userId && d.tuit in tuits && tuits[d.tuit] == t
  {
    var records := LiveRecords(dislikes, tuits, userId);
    PopulatedFromRecords(records, tuits);
    PopulatedTuits(records, tuits)
  }

  /**
   * GET /api/users/:uid/dislikes: 503 for "me" without a session; otherwise the
   * tuits of the user's dislikes, leaving out dislikes whose tuit is gone.
   */
  function FindAllTuitsDislikedByUser(dislikes: seq<Dislike>, tuits: map<TuitId, Tuit>,
                                      profile: Option<UserId>, uid: string): (res: Response)
    ensures res == Status(503) <==> uid == Me && profile.None?
    ensures res != Status(503) ==> res == TuitList(Listing(dislikes, tuits, ResolveUser(profile, uid)))
  {
    var userId := ResolveUser(profile, uid);
    if userId == Me && profile.None? then Status(503)
    else TuitList(Listing(dislikes, tuits, userId))
  }

  lemma {:induction false} PopulatedTuitsConcat(a: seq<Dislike>, b: seq<Dislike>, tuits: map<TuitId, Tuit>)
    requires forall d :: d in a + b ==> d.tuit in tuits
    ensures PopulatedTuits(a + b, tuits) == PopulatedTuits(a, tuits) + PopulatedTuits(b, tuits)
  {
    if a == [] {
      assert a + b == b;
    } else {
      assert (a + b)[1..] == a[1..] + b;
      PopulatedTuitsConcat(a[1..], b, tuits);
    }
  }

  /**
   * The listing keeps store order: a dislike inserted last contributes its
   * tuit at the end, when it belongs to the user and its tuit exists.
   */
  lemma ListingAppend(dislikes: seq<Dislike>, d: Dislike, tuits: map<TuitId, Tuit>,
                      profile: Option<UserId>, uid: string)
    requires !(uid == Me && profile.None?)
    ensures var userId := ResolveUser(profile, uid);
      FindAllTuitsDislikedByUser(dislikes + [d], tuits, profile, uid).tuits ==
      FindAllTuitsDislikedByUser(dislikes, tuits, profile, uid).tuits +
      (if d.dislikedBy == userId && d.tuit in tuits then [tuits[d.tuit]] else [])
  {
    var userId := ResolveUser(profile, uid);
    ListingAppendFor(dislikes, d, tuits, userId);
  }

  lemma ListingAppendFor(dislikes: seq<Dislike>, d: Dislike, tuits: map<TuitId, Tuit>, userId: UserId)
    ensures Listing(dislikes + [d], tuits, userId) ==
      Listing(dislikes, tuits, userId) + (if d.dislikedBy == userId && d.tuit in tuits then [tuits[d.tuit]] else [])
  {
    var live := if d.dislikedBy == userId && d.tuit in tuits then [d] else [];
    LiveRecordsAppend(dislikes, d, tuits, userId);
    PopulatedTuitsConcat(LiveRecords(dislikes, tuits, userId), live, tuits);
  }

  /** A dislike inserted last is the last live record, when it is userId's and its tuit exists. */
  lemma LiveRecordsAppend(dislikes: seq<Dislike>, d: Dislike, tuits: map<TuitId, Tuit>, userId: UserId)
    ensures LiveRecords(dislikes + [d], tuits, userId) ==
      LiveRecords(dislikes, tuits, userId) + (if d.dislikedBy == userId && d.tuit in tuits then [d] else [])
  {
    var mine := DislikesDao.ByUser(userId);
    var live := TuitResolves(tuits);
    Collection.FindAppend(dislikes, d, mine);
    var records := Collection.Find(dislikes, mine);
    var tail := if mine(d) then [d] else [];
    Collection.FindConcat(records, tail, live);
    assert tail != [] ==> tail[1..] == [];
  }

  /** What one toggle request leaves behind: the dislikes, the tuits and the response. */
  datatype Toggled = Toggled(dislikes: seq<Dislike>, tuits: map<TuitId, Tuit>, response: Response)

  /**
   * PUT /api/users/:uid/dislikes/:tid for the resolved user: the dislike is
   * removed if it exists and added otherwise; then the tuit's counter is set
   * from the count read before the change. A missing tuit is only noticed
   * when its stats are written, after the dislikes have changed, and gives 404.
   */
  function Toggle(dislikes: seq<Dislike>, tuits: map<TuitId, Tuit>, userId: UserId, tid: TuitId): (t: Toggled)
    ensures t.response == (if tid in tuits then Status(200) else Status(404))
    ensures Dislike(tid, userId) in dislikes ==>
      multiset(t.dislikes) + multiset{Dislike(tid, userId)} == multiset(dislikes)
    ensures Dislike(tid, userId) !in dislikes ==> t.dislikes == dislikes + [Dislike(tid, userId)]
    ensures tid !in tuits ==> t.tuits == tuits
    ensures tid in tuits ==>
      && t.tuits.Keys == tuits.Keys
      && t.tuits[tid] == tuits[tid].(stats := tuits[tid].stats.(dislikes := t.tuits[tid].stats.dislikes))
      && (forall k :: k in tuits && k != tid ==> t.tuits[k] == tuits[k])
    ensures t.response == Status(200) ==>
      t.tuits[tid].stats.dislikes == DislikesDao.CountDislikes(t.dislikes, tid)
  {
    var already := DislikesDao.FindUserDislikesTuit(dislikes, userId, tid);
    var howMany := DislikesDao.CountDislikes(dislikes, tid);
    var tuit := TuitDao.FindTuitById(tuits, tid);
    var after := ToggledRecords(dislikes, userId, tid);
    if tuit.None? then Toggled(after, tuits, Status(404))
    else
      var count := if already.Some? then howMany - 1 else howMany + 1;
      assert count == DislikesDao.CountDislikes(after, tid) by {
        if already.Some? {
          DislikesDao.CountAfterUndislike(dislikes, tid, userId, tid);
        } else {
          DislikesDao.CountAfterDislike(dislikes, tid, userId, tid);
        }
      }
      Toggled(after, tuits[tid := tuit.value.(stats := tuit.value.stats.(dislikes := count))], Status(200))
  }

  /** The dislikes a toggle leaves: the (tid, userId) dislike removed if stored, appended otherwise. */
  function ToggledRecords(dislikes: seq<Dislike>, userId: UserId, tid: TuitId): (after: seq<Dislike>)
    ensures Dislike(tid, userId) in dislikes ==>
      multiset(after) + multiset{Dislike(tid, userId)} == multiset(dislikes)
    ensures Dislike(tid, userId) !in dislikes ==> after == dislikes + [Dislike(tid, userId)]
  {
    if DislikesDao.FindUserDislikesTuit(dislikes, userId, tid).Some?
    then Collection.DeleteOne(dislikes, DislikesDao.OnTuitByUser(tid, userId))
    else dislikes + [Dislike(tid, userId)]
  }

  /**
   * The toggle as the code stands: the tuit schema declares no `stats` and the
   * tuit data-access object defines no `updateDislikes`, so setting the counter
   * throws once the dislikes have changed, and the `catch` answers 404 for
   * every request; no counter is ever written.
   */
  function ToggleAsWritten(dislikes: seq<Dislike>, tuits: map<TuitId, Tuit>, userId: UserId, tid: TuitId): (t: Toggled)
    ensures t.response == Status(404)
    ensures t.tuits == tuits
    ensures Dislike(tid, userId) in dislikes ==>
      multiset(t.dislikes) + multiset{Dislike(tid, userId)} == multiset(dislikes)
    ensures Dislike(tid, userId) !in dislikes ==> t.dislikes == dislikes + [Dislike(tid, userId)]
  {
    Toggled(ToggledRecords(dislikes, userId, tid), tuits, Status(404))
  }

  /**
   * The code as it stands changes the same dislikes as the intended toggle,
   * but on an existing tuit it answers 404 where 200 is intended, and it
   * leaves the counter as it was rather than in step with the records.
   */
  lemma ToggleAsWrittenDiffers(dislikes: seq<Dislike>, tuits: map<TuitId, Tuit>, userId: UserId, tid: TuitId)
    ensures ToggleAsWritten(dislikes, tuits, userId, tid).dislikes == Toggle(dislikes, tuits, userId, tid).dislikes
    ensures tid in tuits ==>
      && ToggleAsWritten(dislikes, tuits, userId, tid).response == Status(404)
      && Toggle(dislikes, tuits, userId, tid).response == Status(200)
    ensures tid !in tuits ==> ToggleAsWritten(dislikes, tuits, userId, tid) == Toggle(dislikes, tuits, userId, tid)
  {
  }

  /** On a tuit nobody has disliked, the first toggle answers 404 as written and 200 as intended. */
  lemma ToggleAsWrittenCounterexample()
    ensures var tuits := map["t1" := Tuit("hello", "u1", Stats(0, 0, 0))];
      && ToggleAsWritten([], tuits, "u2", "t1") == Toggled([Dislike("t1", "u2")], tuits, Status(404))
      && Toggle([], tuits, "u2", "t1").response == Status(200)
      && Toggle([], tuits, "u2", "t1").tuits["t1"].stats.dislikes == 1
  {
    var tuits := map["t1" := Tuit("hello", "u1", Stats(0, 0, 0))];
    assert Dislike("t1", "u2") !in [];
    assert DislikesDao.CountDislikes([Dislike("t1", "u2")], "t1") == 1 by {
      DislikesDao.CountAfterDislike([], "t1", "u2", "t1");
    }
  }

  /** The handler, step by step against the store; its effect is exactly Toggle's. */
  method UserTogglesTuitDislikes(db: Database.Store, profile: Option<UserId>, uid: string, tid: TuitId)
    returns (res: Response)
    modifies db`dislikes, db`tuits
    ensures var t := Toggle(old(db.dislikes), old(db.tuits), ResolveUser(profile, uid), tid);
      db.dislikes == t.dislikes && db.tuits == t.tuits && res == t.response
  {
    var userId := ResolveUser(profile, uid);
    var userAlreadyDislikedTuit := DislikesDao.FindUserDislikesTuit(db.dislikes, userId, tid);
    var howManyDislikes := DislikesDao.CountDislikes(db.dislikes, tid);
    var tuit := TuitDao.FindTuitById(db.tuits, tid);
    ghost var after := ToggledRecords(db.dislikes, userId, tid);
    ghost var t := Toggle(db.dislikes, db.tuits, userId, tid);
    assert t.dislikes == after;
    assert tuit.None? ==> t == Toggled(after, db.tuits, Status(404));
    var dislikes: int;
    if userAlreadyDislikedTuit.Some? {
      var _ := DislikesDao.UserUndislikesTuit(db, tid, userId);
      assert db.dislikes == after;
      if tuit.None? {
        return Status(404);
      }
      dislikes := howManyDislikes - 1;
    } else {
      var _ := DislikesDao.UserDislikesTuit(db, tid, userId);
      assert db.dislikes == after;
      if tuit.None? {
        return Status(404);
      }
      dislikes := howManyDislikes + 1;
    }
    assert t.tuits == db.tuits[tid := tuit.value.(stats := tuit.value.stats.(dislikes := dislikes))];
    TuitDao.UpdateDislikes(db, tid, tuit.value.stats.(dislikes := dislikes));
    res := Status(200);
  }

  /** Toggling twice from the state after one toggle. */
  function ToggleTwice(dislikes: seq<Dislike>, tuits: map<TuitId, Tuit>, userId: UserId, tid: TuitId): Toggled {
    var once := Toggle(dislikes, tuits, userId, tid);
    Toggle(once.dislikes, once.tuits, userId, tid)
  }

  /**
   * Two successful toggles by the same user on the same tuit, starting with at
   * most one dislike of theirs on it, give back the same dislikes (exactly, if
   * there was none; up to order, if there was one) and leave the counter equal
   * to the original count, so a counter that was in step is restored.
   */
  lemma DoubleToggleRestores(dislikes: seq<Dislike>, tuits: map<TuitId, Tuit>, userId: UserId, tid: TuitId)
    requires tid in tuits
    requires Collection.Count(dislikes, DislikesDao.OnTuitByUser(tid, userId)) <= 1
    ensures var twice := ToggleTwice(dislikes, tuits, userId, tid);
      && twice.response == Status(200)
      && multiset(twice.dislikes) == multiset(dislikes)
      && (Dislike(tid, userId) !in dislikes ==> twice.dislikes == dislikes)
      && twice.tuits[tid].stats.dislikes == DislikesDao.CountDislikes(dislikes, tid)
      && (tuits[tid].stats.dislikes == DislikesDao.CountDislikes(dislikes, tid) ==> twice.tuits == tuits)
  {
    var twice := ToggleTwice(dislikes, tuits, userId, tid);
    DoubleToggleDislikes(dislikes, tuits, userId, tid);
    assert DislikesDao.CountDislikes(twice.dislikes, tid) == DislikesDao.CountDislikes(dislikes, tid) by {
      CountFollowsMultiset(dislikes, twice.dislikes, tid);
    }
    DoubleToggleTuits(dislikes, tuits, userId, tid);
  }

  /** The dislikes after two toggles, when the user had at most one dislike on the tuit. */
  lemma DoubleToggleDislikes(dislikes: seq<Dislike>, tuits: map<TuitId, Tuit>, userId: UserId, tid: TuitId)
    requires Collection.Count(dislikes, DislikesDao.OnTuitByUser(tid, userId)) <= 1
    ensures var twice := ToggleTwice(dislikes, tuits, userId, tid);
      && multiset(twice.dislikes) == multiset(dislikes)
      && (Dislike(tid, userId) !in dislikes ==> twice.dislikes == dislikes)
  {
    var pair := DislikesDao.OnTuitByUser(tid, userId);
    var once := Toggle(dislikes, tuits, userId, tid);
    var twice := Toggle(once.dislikes, once.tuits, userId, tid);
    var d := Dislike(tid, userId);
    Collection.CountZero(dislikes, pair);
    if d in dislikes {
      Collection.AppendDeleted(dislikes, pair);
      assert once.dislikes == Collection.DeleteOne(dislikes, pair);
      assert d !in once.dislikes;
      assert twice.dislikes == once.dislikes + [d];
    } else {
      assert once.dislikes == dislikes + [d];
      assert d in once.dislikes;
      Collection.DeleteOneAppended(dislikes, d, pair);
      assert twice.dislikes == dislikes;
    }
  }

  /** The tuits after two successful toggles: only tid's counter can differ, and it is the count. */
  lemma DoubleToggleTuits(dislikes: seq<Dislike>, tuits: map<TuitId, Tuit>, userId: UserId, tid: TuitId)
    requires tid in tuits
    requires DislikesDao.CountDislikes(ToggleTwice(dislikes, tuits, userId, tid).dislikes, tid) ==
      DislikesDao.CountDislikes(dislikes, tid)
    ensures var twice := ToggleTwice(dislikes, tuits, userId, tid);
      && twice.response == Status(200)
      && twice.tuits[tid].stats.dislikes == DislikesDao.CountDislikes(dislikes, tid)
      && (tuits[tid].stats.dislikes == DislikesDao.CountDislikes(dislikes, tid) ==> twice.tuits == tuits)
  {
    var once := Toggle(dislikes, tuits, userId, tid);
    assert OnlyCounterChanged(tuits, once.tuits, tid);
    var twice := Toggle(once.dislikes, once.tuits, userId, tid);
    assert OnlyCounterChanged(once.tuits, twice.tuits, tid);
    OnlyCounterTransitive(tuits, once.tuits, twice.tuits, tid);
    if tuits[tid].stats.dislikes == DislikesDao.CountDislikes(dislikes, tid) {
      OnlyCounterSame(tuits, twice.tuits, tid);
    }
  }

  /** b differs from a at most in the dislikes counter of tuit tid. */
  predicate OnlyCounterChanged(a: map<TuitId, Tuit>, b: map<TuitId, Tuit>, tid: TuitId) {
    && tid in a
    && b.Keys == a.Keys
    && b[tid] == a[tid].(stats := a[tid].stats.(dislikes := b[tid].stats.dislikes))
    && (forall k :: k in a && k != tid ==> b[k] == a[k])
  }

  lemma OnlyCounterTransitive(a: map<TuitId, Tuit>, b: map<TuitId, Tuit>, c: map<TuitId, Tuit>, tid: TuitId)
    requires OnlyCounterChanged(a, b, tid) && OnlyCounterChanged(b, c, tid)
    ensures OnlyCounterChanged(a, c, tid)
  {
  }

  lemma OnlyCounterSame(a: map<TuitId, Tuit>, b: map<TuitId, Tuit>, tid: TuitId)
    requires OnlyCounterChanged(a, b, tid)
    requires b[tid].stats.dislikes == a[tid].stats.dislikes
    ensures b == a
  {
    assert b[tid] == a[tid];
  }

  /** Collections with the same documents have the same count for every tuit. */
  lemma CountFollowsMultiset(a: seq<Dislike>, b: seq<Dislike>, tid: TuitId)
    requires multiset(a) == multiset(b)
    ensures DislikesDao.CountDislikes(a, tid) == DislikesDao.CountDislikes(b, tid)
  {
    Collection.CountMultiset(a, b, DislikesDao.OnTuit(tid));
  }

  /**
   * With two or more dislikes of the same user on the same tuit (the plain
   * POST endpoint adds them without a check), two toggles remove two of them:
   * the double toggle does not restore the count.
   */
  lemma DoubleToggleWithDuplicates(dislikes: seq<Dislike>, tuits: map<TuitId, Tuit>, userId: UserId, tid: TuitId)
    requires tid in tuits
    requires Collection.Count(dislikes, DislikesDao.OnTuitByUser(tid, userId)) >= 2
    ensures DislikesDao.CountDislikes(ToggleTwice(dislikes, tuits, userId, tid).dislikes, tid) ==
      DislikesDao.CountDislikes(dislikes, tid) - 2
  {
    var pair := DislikesDao.OnTuitByUser(tid, userId);
    var once := Toggle(dislikes, tuits, userId, tid);
    Collection.CountZero(dislikes, pair);
    DislikesDao.CountAfterUndislike(dislikes, tid, userId, tid);
    Collection.DeleteOneCount(dislikes, pair, pair);
    Collection.CountZero(once.dislikes, pair);
    DislikesDao.CountAfterUndislike(once.dislikes, tid, userId, tid);
  }
}
