# Tuiter dislikes and polls: a Dafny model

This project models the decision-making core of the Tuiter social-network
backend. The model works over an abstract in-memory document store and covers:

- the dislike toggle, which keeps a tuit's `stats.dislikes` counter in step with the dislike records;
- the listing of the tuits a user disliked, including the `"me"` identity substitution and the dropping of dislikes whose tuit is gone;
- the creator-only delete and close of polls, including the `"my"` identity substitution;
- the data-access operations these rely on, over the dislikes, polls, poll-responses and messages collections.

Layout:

- `collection.dfy`: `Wrappers` (Option) and `Collection`. `Collection` models a document collection as a sequence in insertion order. It defines `find`, `count`, `findOne`, `deleteOne` (removes at most the first match) and `updateOne` (updates at most the first match), with lemmas on how they compose.
- `records.dfy`: the documents (`Records`), the controller responses (`Http`) and the database (`Database.Store`). `Store` is a class whose fields are the tuit documents by id, the four collections, and a counter that hands out fresh ids.
- `dislikes.dfy`: the tuit lookup and stats write-back (`TuitDao`), and the dislike data-access object (`DislikesDao`).
- `dislikes_controller.dfy`: the dislike listing and the toggle. `Toggle` is a pure function that specifies one toggle request. `UserTogglesTuitDislikes` is the handler: it runs step by step against the store and is proved to have exactly `Toggle`'s effect.
- `polls.dfy`: `PollDao` and `PollResponseDao`.
- `messages.dfy`: `MessageDao`.
- `poll_controller.dfy`: `PollController`.

Queries are functions over the collection they read. Operations that write are methods whose `modifies` clause names only the store fields they change. Filters are named (`DislikesDao.OnTuitByUser(tid, uid)` is `{tuit: tid, dislikedBy: uid}`), so each filter is the same term wherever it is used.

Two points where the model departs from the code, or from a stricter reading of it:

- Only the dislike listing refuses `"me"` without a session (503). Elsewhere, `"me"` (or `"my"` in the poll routes) without a session is passed on as the user id. The store then fails to cast it to an ObjectId, which the model does not capture; see `DislikesController.Toggle` and `PollController.CreatePoll` under "Left out".
- `TuitDao` (daos/TuitDao.ts) defines no `updateDislikes`, and the tuit schema (mongoose/TuitSchema.ts) declares no `stats`. So as written, the toggle throws after changing the dislike records and answers 404 for every request. This is modelled as written (`DislikesController.ToggleAsWritten`) and listed under "Findings". The rest of the model uses the evidently intended toggle (`DislikesController.Toggle`): a tuit document carries `stats`, and `updateDislikes(tid, stats)` writes them back (`TuitDao.UpdateDislikes`).

## Model

| member | source | states |
|---|---|---|
| Collection.Find | daos/DislikesDao.ts:54-56 | `find(filter)` returns exactly the documents that match, and no more of them than the collection holds |
| Collection.FindConcat | daos/MessageDao.ts:48-50 | find distributes over concatenation, so results come back in store order |
| Collection.FindAppend | daos/MessageDao.ts:38-50 | a document appended to the collection is found last, when it matches |
| Collection.FindAll | daos/MessageDao.ts:76-78 | find with the empty filter returns the whole collection |
| Collection.Count | daos/DislikesDao.ts:71-73 | `count(filter)` is at most the size of the collection |
| Collection.CountFind | daos/DislikesDao.ts:71-73 | `count(filter)` equals the number of documents `find(filter)` returns |
| Collection.CountConcat | daos/DislikesDao.ts:71-73 | count adds up over concatenation |
| Collection.CountAppend | daos/DislikesDao.ts:81-83 | appending a document raises the count by one exactly when it matches |
| Collection.CountZero | daos/DislikesDao.ts:71-73 | the count is zero exactly when no document matches |
| Collection.CountMultiset | daos/DislikesDao.ts:71-73 | the count depends only on which documents are stored, not on their order |
| Collection.CountUpdate | daos/PollResponseDao.ts:87-91 | replacing one document changes the count by what the old and the new document contribute |
| Collection.IndexOf | daos/DislikesDao.ts:63-65 | the position found matches and no earlier document matches; it is the size of the collection when none matches |
| Collection.IndexOfFirst | daos/DislikesDao.ts:63-65 | a matching position with no earlier match is the one IndexOf finds |
| Collection.FindOne | daos/DislikesDao.ts:63-65 | `findOne` returns a stored matching document, and null exactly when none matches |
| Collection.DeleteOne | daos/DislikesDao.ts:91-93 | `deleteOne` is a no-op without a match; otherwise it removes exactly one matching document and keeps the others in order |
| Collection.DeleteOneCount | daos/DislikesDao.ts:91-93 | a `deleteOne` lowers the count under another filter by one exactly when the deleted document also matches that filter |
| Collection.DeleteOneAppended | daos/DislikesDao.ts:81-93 | deleting the only match right after appending it gives back the original collection |
| Collection.AppendDeleted | daos/DislikesDao.ts:81-93 | re-appending the only match after deleting it restores the collection up to order |
| Collection.UpdateOne | daos/PollDao.ts:75-77 | `updateOne` changes at most one position, the first match, and a no-op without a match |
| Collection.UpdateOneTwice | daos/PollDao.ts:75-77 | an idempotent update that keeps the document matching gives the same result when applied twice |
| TuitDao.FindTuitById | daos/TuitDao.ts:56-58 | the tuit is returned exactly when one with that id is stored |
| TuitDao.UpdateDislikes | controllers/DislikesController.ts:116 | only the stats of tuit tid are replaced; nothing happens when it is missing |
| DislikesDao.FindAllTuitsDislikedByUser | daos/DislikesDao.ts:38-46 | returns exactly the dislikes whose `dislikedBy` is uid |
| DislikesDao.FindAllUsersThatDislikedTuit | daos/DislikesDao.ts:54-56 | returns exactly the dislikes whose `tuit` is tid |
| DislikesDao.FindUserDislikesTuit | daos/DislikesDao.ts:63-65 | returns the dislike (tid, uid) when it is stored, and null exactly when it is not |
| DislikesDao.CountDislikes | daos/DislikesDao.ts:71-73 | equals the number of dislikes of tid that find returns; zero exactly when tid has none |
| DislikesDao.UserDislikesTuit | daos/DislikesDao.ts:81-83 | appends exactly one dislike (tid, uid) with no duplicate check; earlier records are unchanged |
| DislikesDao.UserUndislikesTuit | daos/DislikesDao.ts:91-93 | removes one dislike (tid, uid) when present, otherwise changes nothing, and reports how many it deleted |
| DislikesDao.CountAfterDislike | daos/DislikesDao.ts:81-83 | inserting a dislike of tid raises tid's count by one and leaves every other tuit's count as it was |
| DislikesDao.CountAfterUndislike | daos/DislikesDao.ts:91-93 | deleting an existing dislike of tid lowers tid's count by one and leaves every other tuit's count as it was |
| DislikesController.ResolveUser | controllers/DislikesController.ts:104 | `"me"` with a session profile gives the profile id; any other segment, or `"me"` without a session, is taken literally |
| DislikesController.PopulatedTuits | controllers/DislikesController.ts:71 | each dislike is mapped to the tuit document it points to, position by position |
| DislikesController.LiveRecords | controllers/DislikesController.ts:68-70 | exactly the user's dislikes whose tuit still exists, no more of them than the user's dislikes |
| DislikesController.PopulatedFromRecords | controllers/DislikesController.ts:71 | every populated tuit is the tuit of one of the records |
| DislikesController.Listing | controllers/DislikesController.ts:68-72 | only tuits of the user's dislikes whose tuit still exists, and no more of them than the user's dislikes |
| DislikesController.FindAllTuitsDislikedByUser | controllers/DislikesController.ts:59-75 | 503 exactly for `"me"` without a session; otherwise the listing for the resolved user |
| DislikesController.PopulatedTuitsConcat | controllers/DislikesController.ts:70-72 | mapping dislikes to tuits keeps order over concatenation |
| DislikesController.ListingAppend | controllers/DislikesController.ts:68-72 | the listing is in store order: a newly stored dislike adds its tuit at the end, when it is the user's and its tuit exists |
| DislikesController.ListingAppendFor | controllers/DislikesController.ts:68-72 | the same store-order property for an already resolved user |
| DislikesController.LiveRecordsAppend | controllers/DislikesController.ts:68-70 | a newly stored dislike is the last live record, when it is the user's and its tuit exists |
| DislikesController.ToggledRecords | controllers/DislikesController.ts:106-115 | an existing (tid, user) dislike is removed (one copy), and otherwise one is appended |
| DislikesController.Toggle | controllers/DislikesController.ts:98-121 | an existing (tid, user) dislike is removed, and otherwise one is added. The response is 200 when the tuit exists and 404 otherwise, and a missing tuit still has its dislikes changed. Only tid's `stats.dislikes` changes, and after a 200 it equals the number of dislike records for tid |
| DislikesController.ToggleAsWritten | controllers/DislikesController.ts:106-120 | as written: the same change to the dislikes, no tuit changed, and 404 for every request |
| DislikesController.ToggleAsWrittenDiffers | controllers/DislikesController.ts:111-119 | as written and as intended change the dislikes alike; on an existing tuit the code answers 404 where 200 is intended; on a missing tuit the two agree |
| DislikesController.ToggleAsWrittenCounterexample | controllers/DislikesController.ts:111-119 | the first dislike of a tuit: 404 and the counter left at 0 as written, against 200 and a counter of 1 as intended |
| DislikesController.UserTogglesTuitDislikes | controllers/DislikesController.ts:98-121 | the step-by-step handler leaves the store and returns the response exactly as Toggle says |
| DislikesController.DoubleToggleRestores | controllers/DislikesController.ts:106-116 | two successful toggles starting from at most one (tid, user) dislike restore the dislikes: exactly if there was none, and up to order otherwise. The counter then equals the original count, so a counter that was in step is restored |
| DislikesController.DoubleToggleDislikes | controllers/DislikesController.ts:109-115 | the dislikes part of the double toggle |
| DislikesController.DoubleToggleTuits | controllers/DislikesController.ts:111-116 | the counter part of the double toggle |
| DislikesController.CountFollowsMultiset | controllers/DislikesController.ts:107 | the count read by the toggle does not depend on the order of the records |
| DislikesController.DoubleToggleWithDuplicates | controllers/DislikesController.ts:131-133 | the plain POST endpoint can store duplicate dislikes. With two (tid, user) records, two toggles remove two records, so the count drops by two |
| PollDao.CreatePoll | daos/PollDao.ts:29-31 | stores the body as a new poll with a fresh id, created by uid whatever creator the body names |
| PollDao.GetAllPolls | daos/PollDao.ts:37-39 | every poll, in store order |
| PollDao.GetPollById | daos/PollDao.ts:46-48 | returns a stored poll with that id, and null exactly when there is none |
| PollDao.GetPollByIdUnique | daos/PollDao.ts:46-48 | with distinct ids, any stored poll is the one found by its id |
| PollDao.GetPollByUser | daos/PollDao.ts:55-57 | returns exactly the polls whose creator is uid |
| PollDao.DeleteKeepsIdsFresh | daos/PollDao.ts:65-67 | deleting a poll keeps poll ids distinct |
| PollDao.DeleteRemovesOnlyThatPoll | daos/PollDao.ts:65-67 | after deleting pid no poll with that id remains and every other poll is still stored |
| PollDao.DeletePoll | daos/PollDao.ts:65-67 | removes the poll pid and no other, and reports one deletion exactly when it existed |
| PollDao.ClosePollIn | daos/PollDao.ts:75-77 | only `closed` changes, and only on the poll pid, which becomes closed; question, options, creator and id stay |
| PollDao.ClosePollIdempotent | daos/PollDao.ts:75-77 | closing twice is the same as closing once |
| PollDao.ClosePollFound | daos/PollDao.ts:75-77 | after closing, the lookup by id gives the same poll with `closed` set; closing a missing poll changes nothing |
| PollDao.ClosePoll | daos/PollDao.ts:75-77 | the store changes as ClosePollIn says; it reports one match when the poll exists, and one modification when it was also open |
| PollResponseDao.IsPollClosed | daos/PollResponseDao.ts:35-44 | null exactly when no poll has that id; otherwise the stored poll's `closed` flag |
| PollResponseDao.CreatePollResponse | daos/PollResponseDao.ts:52-55 | stores a response with `respondedBy` uid and `pollId` pid, whatever the body names, keeping its chosen option |
| PollResponseDao.FindPollResponsesByUser | daos/PollResponseDao.ts:64-67 | returns exactly the responses whose `respondedBy` is uid |
| PollResponseDao.FindPollResponseByPollId | daos/PollResponseDao.ts:110-113 | returns exactly the responses whose `pollId` is pid |
| PollResponseDao.FindPollResponseByPollIdByUserId | daos/PollResponseDao.ts:122-124 | returns a stored response matching both pid and uid, and null exactly when there is none |
| PollResponseDao.UpdatePollResponse | daos/PollResponseDao.ts:87-91 | `$set`s the body on at most one response of uid to pid, with no change when there is none, and reports matched and modified |
| PollResponseDao.UpdateInPlace | daos/PollResponseDao.ts:87-91 | an update that keeps poll and user leaves the number of (pid, uid) responses as it was, and the response found afterwards has the new option |
| PollResponseDao.DeletePollResponse | daos/PollResponseDao.ts:99-101 | removes at most one response of uid to pid, with no change when there is none |
| MessageDao.SendMessage | daos/MessageDao.ts:38-41 | stores the text as a message with a fresh id, from u1 to u2 whatever the body names |
| MessageDao.MessageListSent | daos/MessageDao.ts:48-50 | returns exactly the messages whose `from` is uid |
| MessageDao.MessageListReceived | daos/MessageDao.ts:57-59 | returns exactly the messages whose `to` is uid |
| MessageDao.SentMessageListed | daos/MessageDao.ts:38-59 | a sent message is listed last for its sender and for its recipient, and for no one else |
| MessageDao.GetAllMessages | daos/MessageDao.ts:76-78 | every message, in store order |
| MessageDao.GetMessage | daos/MessageDao.ts:85-87 | returns a stored message with that id, and null exactly when there is none |
| MessageDao.GetMessageUnique | daos/MessageDao.ts:85-87 | with distinct ids, any stored message is the one found by its id |
| MessageDao.DeleteBySender | daos/MessageDao.ts:67-69 | the sender's delete removes exactly that message; with no such message, or another sender, nothing changes |
| MessageDao.DeleteKeepsIdsFresh | daos/MessageDao.ts:67-69 | a delete by any filter keeps message ids distinct and below the next fresh one |
| MessageDao.DeleteRemovesId | daos/MessageDao.ts:67-69 | when the deleted message has id mid, no message with that id remains |
| MessageDao.DeleteMessage | daos/MessageDao.ts:67-69 | removes message mid only when uid sent it, and then only that one; otherwise the store is unchanged |
| PollController.ResolveUser | controllers/PollController.ts:64 | `"my"` (not `"me"`) with a session profile gives the profile id; anything else is taken literally |
| PollController.CreatePoll | controllers/PollController.ts:62-71 | the stored and returned poll is created by the resolved user, with the body's question, options and flag |
| PollController.GetPollByUser | controllers/PollController.ts:102-106 | the polls created by the resolved user |
| PollController.DeletePoll | controllers/PollController.ts:114-137 | 404 and no change for a missing poll; the refusal text and no change for a non-creator; for the creator, that poll and no other is deleted |
| PollController.ClosePoll | controllers/PollController.ts:145-165 | as written. A missing poll gets no response, because its creator is read before the null check. A non-creator gets the refusal text and no change. The creator gets that poll closed with nothing else changed |
| PollController.ClosePollChecked | controllers/PollController.ts:153-164 | the close with the null check working: 404 and no change for a missing poll, otherwise as ClosePoll |
| PollController.ClosePollMissingCounterexample | controllers/PollController.ts:151-153 | on an empty store, closing poll 0 gets no response, where 404 is intended |

## Left out

- HTTP and Express wiring (routes, `req`/`res`, singletons, server files) is not modelled. Each controller is a method or function that takes the path segments, the session profile (`Option<UserId>`) and the store, and returns a `Response` value. Login, signup and sessions are not modelled: password hashing and the session store are outside code.
- Asynchrony and concurrency are not modelled. Each request runs atomically. The read-modify-write race between concurrent toggles on one tuit is therefore out of reach.
- Mongoose internals are not modelled. This covers ObjectId generation (a fresh-id counter stands in), casting of malformed ids, schema validation of required fields, `postedOn`/`sentOn` defaults (the clock), and the `_id` a body could supply. Population (`populate`) is modelled only where the core decides on it, in the dislike listing. Elsewhere the populated creator is taken to resolve; a poll whose creator's user document is gone would make the creator check throw.
- Store failures (a rejected promise from the database) are not modelled. The only exception the toggle's `catch` turns into 404 is the missing tuit.
- `deletePollByQuestion` and `deleteTuitByContent` are not modelled: they match with `$regex`, whose semantics belong to the database engine.
- `findAllUsersReplyByPollId` (daos/PollResponseDao.ts:75-78) is the same query as `findPollResponseByPollId`. `PollResponseDao.FindPollResponseByPollId` models both.
- The likes, follows, bookmarks, tuit, message and poll-response controllers, and the DAOs behind the first three, are not modelled: they are one-call pass-throughs with no decisions. No controller in the code toggles poll responses or refuses responses to a closed poll. Of that logic only the query `isPollClosed` exists, and it is modelled.
- `chosenOption` and the stats counters are JavaScript numbers. They are modelled as unbounded integers; fractions and floating-point rounding are not modelled.
- interfaces/DislikeDaoI.ts declares `(userId, tuitId)` argument order. The model follows the implementation's `(tid, uid)`.
- PollController.DeletePoll and PollController.ClosePoll: the creator check compares ids as plain strings, standing in for the `toString()` comparison of ObjectIds (controllers/PollController.ts:124, 154).
- DislikesController.Toggle: with `"me"` and no session, the store cannot cast `"me"` to an ObjectId. The first query (daos/DislikesDao.ts:64) then rejects, the `catch` answers 404 and no dislike changes. The model instead treats `"me"` as an ordinary user id, so it stores a dislike by `"me"` and answers 200 when the tuit exists. The same happens, and is modelled the same way, for any tuit or user id that is not a valid ObjectId. UserTogglesTuitDislikes inherits this.
- PollController.CreatePoll: with `"my"` and no session, `PollModel.create` fails to cast `"my"` as the creator, so no poll is stored and no response is sent. The model stores a poll created by `"my"`. The other poll routes likewise treat a malformed id as an ordinary one.

## Findings

| source | as written | input that shows it | evidently intended | confidence | as-written member | corrected member |
|---|---|---|---|---|---|---|
| controllers/PollController.ts:151-153 | `poll.createdBy._id` is logged before `poll != null` is tested, so a missing poll throws inside the async handler and the client never gets a response | close poll 0 on a store with no polls | the `else` branch at lines 162-164: respond 404 | high (not executed) | PollController.ClosePoll | PollController.ClosePollChecked |
| controllers/DislikesController.ts:111-116 | the tuit schema declares no `stats` and `TuitDao` defines no `updateDislikes`, so setting `tuit.stats.dislikes` throws after the dislike has been stored or removed; the `catch` answers 404 and the counter is never written | user u2 toggles tuit t1, which exists and has no dislikes | the counter set to the new count, written back, and 200 | high (not executed) | DislikesController.ToggleAsWritten | DislikesController.Toggle |
