/**
 * The documents of the Tuiter collections, with the fields the schemas
 * declare and the core reads or writes. User and tuit identifiers are strings
 * (a path segment may be the sentinel "me" or "my"); polls and messages are
 * created by the core and get fresh numeric identifiers from the store.
 */
module Records {
  import opened Wrappers

  type UserId = string
  type TuitId = string
  type PollId = nat
  type MessageId = nat

  /** The denormalised engagement counters of a tuit. */
  datatype Stats = Stats(likes: int, dislikes: int, replies: int)

  datatype Tuit = Tuit(tuit: string, createdBy: UserId, stats: Stats)

  /** A dislike links a tuit and the user who disliked it; the tuit may since have been deleted. */
  datatype Dislike = Dislike(tuit: TuitId, dislikedBy: UserId)

  datatype Poll = Poll(id: PollId, pollQuestion: string, pollOptions: seq<string>,
                       createdBy: UserId, closed: bool)

  /** The request body of a new poll; its `createdBy`, if present, is overridden. */
  datatype PollBody = PollBody(pollQuestion: string, pollOptions: seq<string>,
                               createdBy: Option<UserId>, closed: bool)

  datatype PollResponse = PollResponse(pollId: PollId, respondedBy: UserId, chosenOption: int)

  /**
   * The request body of a poll response. On creation its `pollId` and
   * `respondedBy` are overridden; as an update (`$set`) every field it carries
   * is written.
   */
  datatype PollResponseBody = PollResponseBody(pollId: Option<PollId>, respondedBy: Option<UserId>,
                                               chosenOption: int)

  datatype Message = Message(id: MessageId, messageText: string, to: UserId, from: UserId)

  /** The request body of a message; its `to` and `from`, if present, are overridden. */
  datatype MessageBody = MessageBody(messageText: string, to: Option<UserId>, from: Option<UserId>)

  /** Identifiers of a poll sequence are distinct and all below the next fresh one. */
  ghost predicate PollIdsFresh(polls: seq<Poll>, next: nat) {
    && (forall i :: 0 <= i < |polls| ==> polls[i].id < next)
    && (forall i, j :: 0 <= i < j < |polls| ==> polls[i].id != polls[j].id)
  }

  /** Identifiers of a message sequence are distinct and all below the next fresh one. */
  ghost predicate MessageIdsFresh(messages: seq<Message>, next: nat) {
    && (forall i :: 0 <= i < |messages| ==> messages[i].id < next)
    && (forall i, j :: 0 <= i < j < |messages| ==> messages[i].id != messages[j].id)
  }
}

/** What a controller sends back to the client. */
module Http {
  import opened Records

  datatype Response =
    | Status(code: nat)                              // res.sendStatus(code)
    | Text(message: string)                          // res.json("...")
    | Deleted(deletedCount: nat)                     // res.json of a deleteOne result
    | Updated(matchedCount: nat, modifiedCount: nat) // res.json of an updateOne result
    | TuitList(tuits: seq<Tuit>)
    | PollList(polls: seq<Poll>)
    | PollDocument(poll: Poll)
    | NoResponse                                     // the handler threw outside any try: nothing is sent
}

/**
 * The document database behind every data-access object: the tuit documents
 * by identifier, the dislike, poll, poll-response and message collections, and
 * the source of fresh document identifiers.
 */
module Database {
  import opened Records

  class Store {
    var tuits: map<TuitId, Tuit>
    var dislikes: seq<Dislike>
    var polls: seq<Poll>
    var responses: seq<PollResponse>
    var messages: seq<Message>
    var nextId: nat

    /** Generated identifiers are unique within their collection. */
    ghost predicate Valid()
      reads this
    {
      PollIdsFresh(polls, nextId) && MessageIdsFresh(messages, nextId)
    }

    /** A database holding the given tuits and otherwise empty. */
    constructor (tuits: map<TuitId, Tuit>)
      ensures Valid()
      ensures this.tuits == tuits
      ensures dislikes == [] && polls == [] && responses == [] && messages == []
    {
      this.tuits := tuits;
      dislikes, polls, responses, messages := [], [], [], [];
      nextId := 0;
    }
  }
}
