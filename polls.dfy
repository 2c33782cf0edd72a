/** The poll data-access object over the polls collection. */
module PollDao {
  import opened Wrappers
  import opened Records
  import Collection
  import Database

  /** The filter {_id: pid}. */
  function ById(pid: PollId): Poll -> bool {
    (p: Poll) => p.id == pid
  }

  /** The filter {createdBy: uid}. */
  function ByCreator(uid: UserId): Poll -> bool {
    (p: Poll) => p.createdBy == uid
  }

  /** The empty filter {}. */
  function AnyPoll(): Poll -> bool {
    (p: Poll) => true
  }

  /** The update {$set: {closed: true}}. */
  function Close(): Poll -> Poll {
    (p: Poll) => p.(closed := true)
  }

  /** `createPoll(uid, poll)`: stores the body as a new poll created by uid, whatever creator the body names. */
  method CreatePoll(db: Database.Store, uid: UserId, body: PollBody) returns (poll: Poll)
    requires db.Valid()
    modifies db`polls, db`nextId
    ensures db.Valid()
    ensures poll == Poll(old(db.nextId), body.pollQuestion, body.pollOptions, uid, body.closed)
    ensures forall p :: p in old(db.polls) ==> p.id != poll.id
    ensures db.polls == old(db.polls) + [poll]
  {
    poll := Poll(db.nextId, body.pollQuestion, body.pollOptions, uid, body.closed);
    db.polls := db.polls + [poll];
    db.nextId := db.nextId + 1;
  }

  /** `getAllPolls()`: find with the empty filter, which is every poll in store order. */
  function GetAllPolls(polls: seq<Poll>): (r: seq<Poll>)
    ensures r == polls
  {
    Collection.FindAll(polls, AnyPoll());
    Collection.Find(polls, AnyPoll())
  }

  /** `getPollById(pid)`: the poll with that id, or null. */
  function GetPollById(polls: seq<Poll>, pid: PollId): (r: Option<Poll>)
    ensures r.Some? ==> r.value in polls && r.value.id == pid
    ensures r.None? <==> forall p :: p in polls ==> p.id != pid
  {
    Collection.FindOne(polls, ById(pid))
  }

  /** `getPollByUser(uid)`: every poll created by uid, in store order. */
  function GetPollByUser(polls: seq<Poll>, uid: UserId): (r: seq<Poll>)
    ensures forall p :: p in r <==> p in polls && p.createdBy == uid
  {
    Collection.Find(polls, ByCreator(uid))
  }

  /** With distinct ids, a poll in the collection is the one found by its id. */
  lemma GetPollByIdUnique(polls: seq<Poll>, next: nat, p: Poll)
    requires PollIdsFresh(polls, next)
    requires p in polls
    ensures GetPollById(polls, p.id) == Some(p)
  {
    var i :| 0 <= i < |polls| && polls[i] == p;
    var k := Collection.IndexOf(polls, ById(p.id));
    assert ById(p.id)(polls[i]);
    assert k <= i;
  }

  /** Deleting one poll keeps the identifiers of the others distinct and below the next fresh one. */
  lemma DeleteKeepsIdsFresh(polls: seq<Poll>, next: nat, pid: PollId)
    requires PollIdsFresh(polls, next)
    ensures PollIdsFresh(Collection.DeleteOne(polls, ById(pid)), next)
  {
    var r := Collection.DeleteOne(polls, ById(pid));
    var k := Collection.IndexOf(polls, ById(pid));
    forall i, j | 0 <= i < j < |r| ensures r[i].id != r[j].id {
      var i', j' := if i < k then i else i + 1, if j < k then j else j + 1;
      assert r[i] == polls[i'] && r[j] == polls[j'];
    }
  }

  /** `deletePoll(pid)`: removes the poll with id pid, and no other poll. */
  method DeletePoll(db: Database.Store, pid: PollId) returns (deletedCount: nat)
    requires db.Valid()
    modifies db`polls
    ensures db.Valid()
    ensures db.polls == Collection.DeleteOne(old(db.polls), ById(pid))
    ensures deletedCount == if GetPollById(old(db.polls), pid).Some? then 1 else 0
    ensures |db.polls| == |old(db.polls)| - deletedCount
    ensures forall p :: p in db.polls ==> p.id != pid
    ensures forall p :: p in old(db.polls) && p.id != pid ==> p in db.polls
  {
    var found := GetPollById(db.polls, pid);
    deletedCount := if found.Some? then 1 else 0;
    ghost var before := db.polls;
    DeleteKeepsIdsFresh(db.polls, db.nextId, pid);
    db.polls := Collection.DeleteOne(db.polls, ById(pid));
    DeleteRemovesOnlyThatPoll(before, db.nextId, pid);
  }

  /** After deleting pid no poll with that id is left and every other poll is still there. */
  lemma DeleteRemovesOnlyThatPoll(polls: seq<Poll>, next: nat, pid: PollId)
    requires PollIdsFresh(polls, next)
    ensures forall p :: p in Collection.DeleteOne(polls, ById(pid)) ==> p.id != pid
    ensures forall p :: p in polls && p.id != pid ==> p in Collection.DeleteOne(polls, ById(pid))
  {
    var r := Collection.DeleteOne(polls, ById(pid));
    var k := Collection.IndexOf(polls, ById(pid));
    forall p | p in r ensures p.id != pid {
      var j :| 0 <= j < |r| && r[j] == p;
      var j' := if j < k then j else j + 1;
      assert r[j] == polls[j'];
      if k < |polls| {
        assert j' != k;
        assert polls[k].id == pid;
      }
    }
    forall p | p in polls && p.id != pid ensures p in r {
      var j :| 0 <= j < |polls| && polls[j] == p;
      if k < |polls| {
        assert j != k;
        var j' := if j < k then j else j - 1;
        assert r[j'] == p;
      } else {
        assert r == polls;
      }
    }
  }

  /** `closePoll(pid)` on the collection: the poll pid gets `closed` set, nothing else changes. */
  function ClosePollIn(polls: seq<Poll>, pid: PollId): (r: seq<Poll>)
    ensures |r| == |polls|
    ensures forall i :: 0 <= i < |polls| ==>
      && r[i].id == polls[i].id
      && r[i].pollQuestion == polls[i].pollQuestion
      && r[i].pollOptions == polls[i].pollOptions
      && r[i].createdBy == polls[i].createdBy
    ensures forall i :: 0 <= i < |polls| ==>
      r[i].closed == (polls[i].closed || i == Collection.IndexOf(polls, ById(pid)))
  {
    Collection.UpdateOne(polls, ById(pid), Close())
  }

  /** Closing a poll twice is the same as closing it once. */
  lemma ClosePollIdempotent(polls: seq<Poll>, pid: PollId)
    ensures ClosePollIn(ClosePollIn(polls, pid), pid) == ClosePollIn(polls, pid)
  {
    Collection.UpdateOneTwice(polls, ById(pid), Close());
  }

  /** After closing, looking the poll up gives the same poll with `closed` set. */
  lemma ClosePollFound(polls: seq<Poll>, next: nat, pid: PollId)
    requires PollIdsFresh(polls, next)
    ensures PollIdsFresh(ClosePollIn(polls, pid), next)
    ensures GetPollById(polls, pid).Some? ==>
      GetPollById(ClosePollIn(polls, pid), pid) == Some(GetPollById(polls, pid).value.(closed := true))
    ensures GetPollById(polls, pid).None? ==> ClosePollIn(polls, pid) == polls
  {
    var r := ClosePollIn(polls, pid);
    var k := Collection.IndexOf(polls, ById(pid));
    if k < |polls| {
      assert r[k] == polls[k].(closed := true);
      assert r[k] in r;
      GetPollByIdUnique(r, next, r[k]);
    }
  }

  /** `closePoll(pid)`: sets `closed` on that poll; the result counts the matched and the modified poll. */
  method ClosePoll(db: Database.Store, pid: PollId) returns (matchedCount: nat, modifiedCount: nat)
    requires db.Valid()
    modifies db`polls
    ensures db.Valid()
    ensures db.polls == ClosePollIn(old(db.polls), pid)
    ensures var found := GetPollById(old(db.polls), pid);
      && matchedCount == (if found.Some? then 1 else 0)
      && modifiedCount == (if found.Some? && !found.value.closed then 1 else 0)
  {
    var found := GetPollById(db.polls, pid);
    matchedCount := if found.Some? then 1 else 0;
    modifiedCount := if found.Some? && !found.value.closed then 1 else 0;
    ClosePollFound(db.polls, db.nextId, pid);
    db.polls := ClosePollIn(db.polls, pid);
  }
}

/** The poll-response data-access object over the pollResponses collection. */
module PollResponseDao {
  import opened Wrappers
  import opened Records
  import Collection
  import Database
  import PollDao

  /** The filter {respondedBy: uid}. */
  function ByUser(uid: UserId): PollResponse -> bool {
    (r: PollResponse) => r.respondedBy == uid
  }

  /** The filter {pollId: pid}. */
  function ForPoll(pid: PollId): PollResponse -> bool {
    (r: PollResponse) => r.pollId == pid
  }

  /** The filter {pollId: pid, respondedBy: uid}. */
  function ForPollByUser(pid: PollId, uid: UserId): PollResponse -> bool {
    (r: PollResponse) => r.pollId == pid && r.respondedBy == uid
  }

  /** The update {$set: body}: every field the body carries is written. */
  function SetFields(body: PollResponseBody): PollResponse -> PollResponse {
    (r: PollResponse) => PollResponse(body.pollId.GetOr(r.pollId), body.respondedBy.GetOr(r.respondedBy),
                                      body.chosenOption)
  }

  /** `isPollClosed(pid)`: the poll's `closed` flag, or null when there is no such poll. */
  function IsPollClosed(polls: seq<Poll>, pid: PollId): (r: Option<bool>)
    ensures r.None? <==> forall p :: p in polls ==> p.id != pid
    ensures r.Some? ==> exists p :: p in polls && p.id == pid && p.closed == r.value
  {
    match PollDao.GetPollById(polls, pid)
    case Some(poll) => Some(poll.closed)
    case None => None
  }

  /** `createPollResponse(uid, pid, body)`: stores the body as uid's response to pid, whatever ids the body names. */
  method CreatePollResponse(db: Database.Store, uid: UserId, pid: PollId, body: PollResponseBody)
    returns (response: PollResponse)
    modifies db`responses
    ensures response == PollResponse(pid, uid, body.chosenOption)
    ensures db.responses == old(db.responses) + [response]
  {
    response := PollResponse(pid, uid, body.chosenOption);
    db.responses := db.responses + [response];
  }

  /** `findPollResponsesByUser(uid)`: every response by uid, in store order. */
  function FindPollResponsesByUser(responses: seq<PollResponse>, uid: UserId): (r: seq<PollResponse>)
    ensures forall x :: x in r <==> x in responses && x.respondedBy == uid
  {
    Collection.Find(responses, ByUser(uid))
  }

  /** `findPollResponseByPollId(pid)`: every response to poll pid, in store order. */
  function FindPollResponseByPollId(responses: seq<PollResponse>, pid: PollId): (r: seq<PollResponse>)
    ensures forall x :: x in r <==> x in responses && x.pollId == pid
  {
    Collection.Find(responses, ForPoll(pid))
  }

  /** `findPollResponseByPollIdByUserId(uid, pid)`: uid's response to pid, or null. */
  function FindPollResponseByPollIdByUserId(responses: seq<PollResponse>, uid: UserId, pid: PollId)
    : (r: Option<PollResponse>)
    ensures r.Some? ==> r.value in responses && r.value.pollId == pid && r.value.respondedBy == uid
    ensures r.None? <==> forall x :: x in responses ==> !(x.pollId == pid && x.respondedBy == uid)
  {
    Collection.FindOne(responses, ForPollByUser(pid, uid))
  }

  /** `updatePollResponse(uid, pid, body)`: applies the body to at most one response of uid to pid. */
  method UpdatePollResponse(db: Database.Store, uid: UserId, pid: PollId, body: PollResponseBody)
    returns (matchedCount: nat, modifiedCount: nat)
    modifies db`responses
    ensures db.responses == Collection.UpdateOne(old(db.responses), ForPollByUser(pid, uid), SetFields(body))
    ensures var found := FindPollResponseByPollIdByUserId(old(db.responses), uid, pid);
      && matchedCount == (if found.Some? then 1 else 0)
      && modifiedCount == (if found.Some? && SetFields(body)(found.value) != found.value then 1 else 0)
  {
    var found := FindPollResponseByPollIdByUserId(db.responses, uid, pid);
    matchedCount := if found.Some? then 1 else 0;
    modifiedCount := if found.Some? && SetFields(body)(found.value) != found.value then 1 else 0;
    db.responses := Collection.UpdateOne(db.responses, ForPollByUser(pid, uid), SetFields(body));
  }

  /**
   * An update whose body keeps the poll and the user (or leaves them out)
   * changes the chosen option in place: the number of responses of uid to pid
   * is unchanged, and the one found afterwards carries the new option.
   */
  lemma UpdateInPlace(responses: seq<PollResponse>, uid: UserId, pid: PollId, body: PollResponseBody)
    requires body.pollId.None? || body.pollId == Some(pid)
    requires body.respondedBy.None? || body.respondedBy == Some(uid)
    ensures var after := Collection.UpdateOne(responses, ForPollByUser(pid, uid), SetFields(body));
      && Collection.Count(after, ForPollByUser(pid, uid)) == Collection.Count(responses, ForPollByUser(pid, uid))
      && (FindPollResponseByPollIdByUserId(responses, uid, pid).Some? ==>
            FindPollResponseByPollIdByUserId(after, uid, pid) == Some(PollResponse(pid, uid, body.chosenOption)))
      && (FindPollResponseByPollIdByUserId(responses, uid, pid).None? ==> after == responses)
  {
    var key := ForPollByUser(pid, uid);
    var k := Collection.IndexOf(responses, key);
    if k < |responses| {
      var after := Collection.UpdateOne(responses, key, SetFields(body));
      assert after == responses[k := SetFields(body)(responses[k])];
      Collection.CountUpdate(responses, k, SetFields(body)(responses[k]), key);
      Collection.IndexOfFirst(after, key, k);
    }
  }

  /** `deletePollResponse(pid, uid)`: deletes at most one response of uid to pid. */
  method DeletePollResponse(db: Database.Store, pid: PollId, uid: UserId) returns (deletedCount: nat)
    modifies db`responses
    ensures db.responses == Collection.DeleteOne(old(db.responses), ForPollByUser(pid, uid))
    ensures var found := FindPollResponseByPollIdByUserId(old(db.responses), uid, pid);
      && deletedCount == (if found.Some? then 1 else 0)
      && (found.None? ==> db.responses == old(db.responses))
      && (found.Some? ==> multiset(db.responses) + multiset{found.value} == multiset(old(db.responses)))
  {
    var found := FindPollResponseByPollIdByUserId(db.responses, uid, pid);
    deletedCount := if found.Some? then 1 else 0;
    db.responses := Collection.DeleteOne(db.responses, ForPollByUser(pid, uid));
  }
}
