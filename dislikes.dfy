/**
 * The tuit data-access object, as far as the dislike toggle uses it: a lookup
 * by identifier and the write-back of a tuit's stats.
 */
module TuitDao {
  import opened Wrappers
  import opened Records
  import Database

  /** `findTuitById(tid)`: the tuit document, or null when there is none. */
  function FindTuitById(tuits: map<TuitId, Tuit>, tid: TuitId): (r: Option<Tuit>)
    ensures r.Some? <==> tid in tuits
    ensures r.Some? ==> r.value == tuits[tid]
  {
    if tid in tuits then Some(tuits[tid]) else None
  }

  /** `updateDislikes(tid, stats)`: replaces the stats of tuit tid, when it exists. */
  method UpdateDislikes(db: Database.Store, tid: TuitId, stats: Stats)
    modifies db`tuits
    ensures tid in old(db.tuits) ==> db.tuits == old(db.tuits)[tid := old(db.tuits)[tid].(stats := stats)]
    ensures tid !in old(db.tuits) ==> db.tuits == old(db.tuits)
  {
    if tid in db.tuits {
      db.tuits := db.tuits[tid := db.tuits[tid].(stats := stats)];
    }
  }
}

/** The dislike data-access object over the dislikes collection. */
module DislikesDao {
  import opened Wrappers
  import opened Records
  import Collection
  import Database

  /** The filter {tuit: tid}. */
  function OnTuit(tid: TuitId): Dislike -> bool {
    (d: Dislike) => d.tuit == tid
  }

  /** The filter {dislikedBy: uid}. */
  function ByUser(uid: UserId): Dislike -> bool {
    (d: Dislike) => d.dislikedBy == uid
  }

  /** The filter {tuit: tid, dislikedBy: uid}. */
  function OnTuitByUser(tid: TuitId, uid: UserId): Dislike -> bool {
    (d: Dislike) => d.tuit == tid && d.dislikedBy == uid
  }

  /** `findAllTuitsDislikedByUser(uid)`: every dislike by uid, in store order. */
  function FindAllTuitsDislikedByUser(dislikes: seq<Dislike>, uid: UserId): (r: seq<Dislike>)
    ensures forall d :: d in r <==> d in dislikes && d.dislikedBy == uid
  {
    Collection.Find(dislikes, ByUser(uid))
  }

  /** `findAllUsersThatDislikedTuit(tid)`: every dislike of tuit tid, in store order. */
  function FindAllUsersThatDislikedTuit(dislikes: seq<Dislike>, tid: TuitId): (r: seq<Dislike>)
    ensures forall d :: d in r <==> d in dislikes && d.tuit == tid
  {
    Collection.Find(dislikes, OnTuit(tid))
  }

  /** `findUserDislikesTuit(uid, tid)`: the dislike of tid by uid, or null when there is none. */
  function FindUserDislikesTuit(dislikes: seq<Dislike>, uid: UserId, tid: TuitId): (r: Option<Dislike>)
    ensures r.Some? ==> r.value == Dislike(tid, uid) && r.value in dislikes
    ensures r.None? <==> Dislike(tid, uid) !in dislikes
  {
    Collection.FindOne(dislikes, OnTuitByUser(tid, uid))
  }

  /** `countDislikes(tid)`: how many dislikes tuit tid has in the collection. */
  function CountDislikes(dislikes: seq<Dislike>, tid: TuitId): (n: nat)
    ensures n == |FindAllUsersThatDislikedTuit(dislikes, tid)|
    ensures n == 0 <==> forall d :: d in dislikes ==> d.tuit != tid
  {
    Collection.CountFind(dislikes, OnTuit(tid));
    Collection.CountZero(dislikes, OnTuit(tid));
    Collection.Count(dislikes, OnTuit(tid))
  }

  /** `userDislikesTuit(tid, uid)`: inserts one dislike, without looking for an existing one. */
  method UserDislikesTuit(db: Database.Store, tid: TuitId, uid: UserId) returns (d: Dislike)
    modifies db`dislikes
    ensures d == Dislike(tid, uid)
    ensures db.dislikes == old(db.dislikes) + [d]
  {
    d := Dislike(tid, uid);
    db.dislikes := db.dislikes + [d];
  }

  /** `userUndislikesTuit(tid, uid)`: deletes at most one dislike of tid by uid. */
  method UserUndislikesTuit(db: Database.Store, tid: TuitId, uid: UserId) returns (deletedCount: nat)
    modifies db`dislikes
    ensures db.dislikes == Collection.DeleteOne(old(db.dislikes), OnTuitByUser(tid, uid))
    ensures deletedCount == if Dislike(tid, uid) in old(db.dislikes) then 1 else 0
    ensures Dislike(tid, uid) in old(db.dislikes) ==>
      multiset(db.dislikes) + multiset{Dislike(tid, uid)} == multiset(old(db.dislikes))
    ensures Dislike(tid, uid) !in old(db.dislikes) ==> db.dislikes == old(db.dislikes)
  {
    var found := FindUserDislikesTuit(db.dislikes, uid, tid);
    deletedCount := if found.Some? then 1 else 0;
    db.dislikes := Collection.DeleteOne(db.dislikes, OnTuitByUser(tid, uid));
  }

  /** Inserting a dislike of tid raises its count by one and leaves every other tuit's count alone. */
  lemma CountAfterDislike(dislikes: seq<Dislike>, tid: TuitId, uid: UserId, other: TuitId)
    ensures CountDislikes(dislikes + [Dislike(tid, uid)], other) ==
      CountDislikes(dislikes, other) + (if other == tid then 1 else 0)
  {
    Collection.CountAppend(dislikes, Dislike(tid, uid), OnTuit(other));
  }

  /** Deleting an existing dislike of tid lowers its count by one and leaves every other tuit's count alone. */
  lemma CountAfterUndislike(dislikes: seq<Dislike>, tid: TuitId, uid: UserId, other: TuitId)
    requires Dislike(tid, uid) in dislikes
    ensures CountDislikes(Collection.DeleteOne(dislikes, OnTuitByUser(tid, uid)), other) ==
      CountDislikes(dislikes, other) - (if other == tid then 1 else 0)
  {
    Collection.DeleteOneCount(dislikes, OnTuitByUser(tid, uid), OnTuit(other));
  }
}
