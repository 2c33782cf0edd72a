/** The message data-access object over the messages collection. */
module MessageDao {
  import opened Wrappers
  import opened Records
  import Collection
  import Database

  /** The filter {_id: mid}. */
  function ById(mid: MessageId): Message -> bool {
    (m: Message) => m.id == mid
  }

  /** The filter {from: uid}. */
  function SentBy(uid: UserId): Message -> bool {
    (m: Message) => m.from == uid
  }

  /** The filter {to: uid}. */
  function SentTo(uid: UserId): Message -> bool {
    (m: Message) => m.to == uid
  }

  /** The filter {_id: mid, from: uid}. */
  function ByIdFrom(mid: MessageId, uid: UserId): Message -> bool {
    (m: Message) => m.id == mid && m.from == uid
  }

  /** The empty filter {}. */
  function AnyMessage(): Message -> bool {
    (m: Message) => true
  }

  /** `sendMessage(u1, u2, body)`: stores the text as a message from u1 to u2, whatever ends the body names. */
  method SendMessage(db: Database.Store, u1: UserId, u2: UserId, body: MessageBody) returns (message: Message)
    requires db.Valid()
    modifies db`messages, db`nextId
    ensures db.Valid()
    ensures message == Message(old(db.nextId), body.messageText, u2, u1)
    ensures forall m :: m in old(db.messages) ==> m.id != message.id
    ensures db.messages == old(db.messages) + [message]
  {
    message := Message(db.nextId, body.messageText, u2, u1);
    db.messages := db.messages + [message];
    db.nextId := db.nextId + 1;
  }

  /** `messageListSent(uid)`: every message uid sent, in store order. */
  function MessageListSent(messages: seq<Message>, uid: UserId): (r: seq<Message>)
    ensures forall m :: m in r <==> m in messages && m.from == uid
  {
    Collection.Find(messages, SentBy(uid))
  }

  /** `messageListReceived(uid)`: every message sent to uid, in store order. */
  function MessageListReceived(messages: seq<Message>, uid: UserId): (r: seq<Message>)
    ensures forall m :: m in r <==> m in messages && m.to == uid
  {
    Collection.Find(messages, SentTo(uid))
  }

  /** A message just sent is the last one its sender has sent and the last one its recipient has received. */
  lemma SentMessageListed(messages: seq<Message>, m: Message)
    ensures MessageListSent(messages + [m], m.from) == MessageListSent(messages, m.from) + [m]
    ensures MessageListReceived(messages + [m], m.to) == MessageListReceived(messages, m.to) + [m]
    ensures forall u :: u != m.from ==> MessageListSent(messages + [m], u) == MessageListSent(messages, u)
    ensures forall u :: u != m.to ==> MessageListReceived(messages + [m], u) == MessageListReceived(messages, u)
  {
    Collection.FindAppend(messages, m, SentBy(m.from));
    Collection.FindAppend(messages, m, SentTo(m.to));
    forall u | u != m.from ensures MessageListSent(messages + [m], u) == MessageListSent(messages, u) {
      Collection.FindAppend(messages, m, SentBy(u));
    }
    forall u | u != m.to ensures MessageListReceived(messages + [m], u) == MessageListReceived(messages, u) {
      Collection.FindAppend(messages, m, SentTo(u));
    }
  }

  /** `getAllMessages()`: find with the empty filter, which is every message in store order. */
  function GetAllMessages(messages: seq<Message>): (r: seq<Message>)
    ensures r == messages
  {
    Collection.FindAll(messages, AnyMessage());
    Collection.Find(messages, AnyMessage())
  }

  /** `getMessage(mid)`: the message with that id, or null. */
  function GetMessage(messages: seq<Message>, mid: MessageId): (r: Option<Message>)
    ensures r.Some? ==> r.value in messages && r.value.id == mid
    ensures r.None? <==> forall m :: m in messages ==> m.id != mid
  {
    Collection.FindOne(messages, ById(mid))
  }

  /** With distinct ids, a message in the collection is the one found by its id. */
  lemma GetMessageUnique(messages: seq<Message>, next: nat, m: Message)
    requires MessageIdsFresh(messages, next)
    requires m in messages
    ensures GetMessage(messages, m.id) == Some(m)
  {
    var i :| 0 <= i < |messages| && messages[i] == m;
    var k := Collection.IndexOf(messages, ById(m.id));
    assert ById(m.id)(messages[i]);
    assert k <= i;
  }

  /**
   * Deleting message mid as uid: when uid sent it, it alone is removed;
   * otherwise (no such message, or another sender) nothing changes.
   */
  lemma DeleteBySender(messages: seq<Message>, next: nat, uid: UserId, mid: MessageId)
    requires MessageIdsFresh(messages, next)
    ensures var r := Collection.DeleteOne(messages, ByIdFrom(mid, uid));
      && MessageIdsFresh(r, next)
      && (match GetMessage(messages, mid)
          case Some(m) =>
            if m.from == uid then
              && multiset(r) + multiset{m} == multiset(messages)
              && GetMessage(r, mid).None?
            else r == messages
          case None => r == messages)
  {
    var key := ByIdFrom(mid, uid);
    var r := Collection.DeleteOne(messages, key);
    DeleteKeepsIdsFresh(messages, next, key);
    match GetMessage(messages, mid)
    case Some(m) =>
      GetMessageUnique(messages, next, m);
      if m.from == uid {
        DeleteRemovesId(messages, next, key, mid);
      } else {
        forall x | x in messages ensures !key(x) {
          if x.id == mid {
            GetMessageUnique(messages, next, x);
          }
        }
      }
    case None =>
  }

  /** Deleting one message, by any filter, keeps the identifiers distinct and below the next fresh one. */
  lemma DeleteKeepsIdsFresh(messages: seq<Message>, next: nat, key: Message -> bool)
    requires MessageIdsFresh(messages, next)
    ensures MessageIdsFresh(Collection.DeleteOne(messages, key), next)
  {
    var r := Collection.DeleteOne(messages, key);
    var k := Collection.IndexOf(messages, key);
    forall i, j | 0 <= i < j < |r| ensures r[i].id != r[j].id {
      var i', j' := if i < k then i else i + 1, if j < k then j else j + 1;
      assert r[i] == messages[i'] && r[j] == messages[j'];
    }
  }

  /** When the deleted message has id mid, no message with that id is left. */
  lemma DeleteRemovesId(messages: seq<Message>, next: nat, key: Message -> bool, mid: MessageId)
    requires MessageIdsFresh(messages, next)
    requires Collection.IndexOf(messages, key) < |messages|
    requires messages[Collection.IndexOf(messages, key)].id == mid
    ensures GetMessage(Collection.DeleteOne(messages, key), mid).None?
  {
    var r := Collection.DeleteOne(messages, key);
    var k := Collection.IndexOf(messages, key);
    forall x | x in r ensures x.id != mid {
      var j :| 0 <= j < |r| && r[j] == x;
      var j' := if j < k then j else j + 1;
      assert r[j] == messages[j'];
      assert j' != k;
    }
  }

  /** `deleteMessage(uid, mid)`: removes message mid only when uid is its sender. */
  method DeleteMessage(db: Database.Store, uid: UserId, mid: MessageId) returns (deletedCount: nat)
    requires db.Valid()
    modifies db`messages
    ensures db.Valid()
    ensures db.messages == Collection.DeleteOne(old(db.messages), ByIdFrom(mid, uid))
    ensures var found := GetMessage(old(db.messages), mid);
      && deletedCount == (if found.Some? && found.value.from == uid then 1 else 0)
      && (deletedCount == 0 ==> db.messages == old(db.messages))
      && (deletedCount == 1 ==> multiset(db.messages) + multiset{found.value} == multiset(old(db.messages)))
  {
    var found := GetMessage(db.messages, mid);
    deletedCount := if found.Some? && found.value.from == uid then 1 else 0;
    DeleteBySender(db.messages, db.nextId, uid, mid);
    db.messages := Collection.DeleteOne(db.messages, ByIdFrom(mid, uid));
  }
}
