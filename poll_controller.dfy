/**
 * The poll controller: poll creation and listing for the resolved user, and
 * the creator-only delete and close.
 */
module PollController {
  import opened Wrappers
  import opened Records
  import opened Http
  import Collection
  import Database
  import PollDao

  /** The path segment that stands for the logged-in user in the poll routes. */
  const My: string := "my"

  const DeleteRefusal: string := "Only creator can delete poll"
  const CloseRefusal: string := "Only creator can close poll"

  /**
   * The user a poll request acts for: the session profile's id when the path
   * says "my" and there is a session, otherwise the path segment taken literally.
   */
  function ResolveUser(profile: Option<UserId>, uid: string): (userId: UserId)
    ensures uid == My && profile.Some? ==> userId == profile.value
    ensures !(uid == My && profile.Some?) ==> userId == uid
  {
    if uid == My && profile.Some? then profile.value else uid
  }

  /** POST /api/users/:uid/creates/polls: the new poll, created by the resolved user. */
  method CreatePoll(db: Database.Store, profile: Option<UserId>, uid: string, body: PollBody)
    returns (res: Response)
    requires db.Valid()
    modifies db`polls, db`nextId
    ensures db.Valid()
    ensures res.PollDocument? && res.poll.createdBy == ResolveUser(profile, uid)
    ensures res.poll.pollQuestion == body.pollQuestion && res.poll.pollOptions == body.pollOptions
    ensures res.poll.closed == body.closed
    ensures db.polls == old(db.polls) + [res.poll]
  {
    var userId := ResolveUser(profile, uid);
    var poll := PollDao.CreatePoll(db, userId, body);
    res := PollDocument(poll);
  }

  /** GET /api/users/:uid/pollscreated: the polls the resolved user created. */
  function GetPollByUser(polls: seq<Poll>, profile: Option<UserId>, uid: string): (res: Response)
    ensures res.PollList?
    ensures forall p :: p in res.polls <==> p in polls && p.createdBy == ResolveUser(profile, uid)
  {
    PollList(PollDao.GetPollByUser(polls, ResolveUser(profile, uid)))
  }

  /**
   * DELETE /api/users/:uid/deletepoll/polls/:pid: 404 for a missing poll, a
   * refusal for anyone but the creator, and the deletion for the creator.
   */
  method DeletePoll(db: Database.Store, profile: Option<UserId>, uid: string, pid: PollId)
    returns (res: Response)
    requires db.Valid()
    modifies db`polls
    ensures db.Valid()
    ensures var userId := ResolveUser(profile, uid);
      match PollDao.GetPollById(old(db.polls), pid)
      case None => res == Status(404) && db.polls == old(db.polls)
      case Some(poll) =>
        if poll.createdBy == userId then
          && res == Deleted(1)
          && db.polls == Collection.DeleteOne(old(db.polls), PollDao.ById(pid))
          && (forall p :: p in db.polls ==> p.id != pid)
          && (forall p :: p in old(db.polls) && p.id != pid ==> p in db.polls)
        else res == Text(DeleteRefusal) && db.polls == old(db.polls)
  {
    var userId := ResolveUser(profile, uid);
    var poll := PollDao.GetPollById(db.polls, pid);
    if poll.Some? {
      if poll.value.createdBy == userId {
        var status := PollDao.DeletePoll(db, pid);
        res := Deleted(status);
      } else {
        res := Text(DeleteRefusal);
      }
    } else {
      res := Status(404);
    }
  }

  /**
   * PUT /api/users/:uid/close/polls/:pid as written: the poll's creator is
   * read before the null check, so a missing poll throws and no response is
   * sent; a refusal for anyone but the creator; the close for the creator.
   */
  method ClosePoll(db: Database.Store, profile: Option<UserId>, uid: string, pid: PollId)
    returns (res: Response)
    requires db.Valid()
    modifies db`polls
    ensures db.Valid()
    ensures var userId := ResolveUser(profile, uid);
      match PollDao.GetPollById(old(db.polls), pid)
      case None => res == NoResponse && db.polls == old(db.polls)
      case Some(poll) =>
        if poll.createdBy == userId then
          && res == Updated(1, if poll.closed then 0 else 1)
          && db.polls == PollDao.ClosePollIn(old(db.polls), pid)
          && PollDao.GetPollById(db.polls, pid) == Some(poll.(closed := true))
        else res == Text(CloseRefusal) && db.polls == old(db.polls)
  {
    var userId := ResolveUser(profile, uid);
    var poll := PollDao.GetPollById(db.polls, pid);
    if poll.None? {
      // `poll.createdBy._id` is logged before the null check and throws here.
      return NoResponse;
    }
    if poll.value.createdBy == userId {
      PollDao.ClosePollFound(db.polls, db.nextId, pid);
      var matched, modified := PollDao.ClosePoll(db, pid);
      res := Updated(matched, modified);
    } else {
      res := Text(CloseRefusal);
    }
  }

  /**
   * The close as its null check intends it: 404 for a missing poll; otherwise
   * the same as ClosePoll.
   */
  method ClosePollChecked(db: Database.Store, profile: Option<UserId>, uid: string, pid: PollId)
    returns (res: Response)
    requires db.Valid()
    modifies db`polls
    ensures db.Valid()
    ensures var userId := ResolveUser(profile, uid);
      match PollDao.GetPollById(old(db.polls), pid)
      case None => res == Status(404) && db.polls == old(db.polls)
      case Some(poll) =>
        if poll.createdBy == userId then
          && res == Updated(1, if poll.closed then 0 else 1)
          && db.polls == PollDao.ClosePollIn(old(db.polls), pid)
          && PollDao.GetPollById(db.polls, pid) == Some(poll.(closed := true))
        else res == Text(CloseRefusal) && db.polls == old(db.polls)
  {
    var poll := PollDao.GetPollById(db.polls, pid);
    if poll.None? {
      res := Status(404);
    } else {
      res := ClosePoll(db, profile, uid, pid);
    }
  }

  /**
   * Closing a poll that does not exist: as written the request gets no
   * response at all, where the null check means it to get 404.
   */
  method ClosePollMissingCounterexample() returns (asWritten: Response, intended: Response)
    ensures asWritten == NoResponse
    ensures intended == Status(404)
  {
    var db := new Database.Store(map[]);
    asWritten := ClosePoll(db, None, "u1", 0);
    intended := ClosePollChecked(db, None, "u1", 0);
  }
}
