/**
 * Request sequences from the repository's handler and store tests, replayed on a fresh store.
 * Each method returns the statuses the client receives; what it ensures follows from the handler
 * contracts alone.
 */
module Scenarios {
  import opened Wrappers
  import opened Strings
  import opened Messages
  import opened BasicStore
  import opened Handlers

  /** Create a message, read it back, then create the same id again: 200, 200, 409. */
  method CreateRetrieveConflict(id: string, content: string, other: string, now: Time)
    returns (created: int, retrieved: Response, conflict: int)
    requires id != "" && TrimSpace(id) == id
    ensures created == StatusOK && conflict == StatusConflict
    ensures retrieved.Code() == StatusOK
    ensures retrieved.body == [MsgJson(MsgRecord(id, content, Palindromic(content), now))]
  {
    var db := new BasicMsgDB();
    var rp := new Repository(db);
    var w := rp.HandleCreateMsg(JsonContentType, Success(MsgRecord(id, content, false, 0)), now);
    created := w.Code();
    retrieved := rp.HandleRetrieveMsg(id);
    w := rp.HandleCreateMsg(JsonContentType, Success(MsgRecord(id, other, false, 0)), now + 1);
    conflict := w.Code();
    assert db.Contents()[id].content == content;
  }

  /** A stored "11/11/11" is read back with its palindrome flag set. */
  method RetrievePalindrome(now: Time) returns (retrieved: Response)
    ensures retrieved.Code() == StatusOK
    ensures retrieved.body == [MsgJson(MsgRecord("potato", "11/11/11", true, now))]
  {
    var db := new BasicMsgDB();
    var rp := new Repository(db);
    var m := new Msg.NewMsg("potato", "11/11/11", now);
    SlashedOnes();
    var err := db.CreateMsg(m);
    retrieved := rp.HandleRetrieveMsg("potato");
  }

  /** An undecodable body and an id of white space only are both rejected with 400. */
  method RejectedCreates(blank: string, now: Time) returns (undecodable: int, emptyId: int)
    requires forall i | 0 <= i < |blank| :: IsSpace(blank[i])
    ensures undecodable == StatusBadRequest && emptyId == StatusBadRequest
  {
    var db := new BasicMsgDB();
    var rp := new Repository(db);
    var w := rp.HandleCreateMsg(JsonContentType, Failure("unexpected EOF"), now);
    undecodable := w.Code();
    w := rp.HandleCreateMsg(JsonContentType, Success(MsgRecord(blank, "kayak", false, 0)), now);
    emptyId := w.Code();
    assert db.Contents() == map[];
  }

  /** A create with the wrong Content-Type answers 415 and still stores the message. */
  method WrongContentTypeStillStores(id: string, now: Time) returns (status: int, stored: bool)
    requires id != "" && TrimSpace(id) == id
    ensures status == StatusUnsupportedMediaType && stored
  {
    var db := new BasicMsgDB();
    var rp := new Repository(db);
    var w := rp.HandleCreateMsg("text/xml", Success(MsgRecord(id, "kayak", false, 0)), now);
    status := w.Code();
    var r := db.GetMsg(id);
    stored := r.Success?;
  }

  /**
   * Update an unknown id, then a mismatched path id, then a real update (404, 400, 200), and
   * read the updated message back.
   */
  method UpdateStored(id: string, path: string, content: string, now: Time)
    returns (unknown: int, mismatch: int, updated: int, after: Response)
    requires id != "" && TrimSpace(id) == id && path != id
    ensures unknown == StatusNotFound && mismatch == StatusBadRequest && updated == StatusOK
    ensures after.body == [MsgJson(MsgRecord(id, content, Palindromic(content), now + 2))]
  {
    var db := new BasicMsgDB();
    var rp := new Repository(db);
    var w := rp.HandleUpdateMsg(JsonContentType, id, Success(MsgRecord(id, content, false, 0)), now);
    unknown := w.Code();
    w := rp.HandleCreateMsg(JsonContentType, Success(MsgRecord(id, "", false, 0)), now);
    w := rp.HandleUpdateMsg(JsonContentType, path, Success(MsgRecord(id, content, false, 0)), now + 1);
    mismatch := w.Code();
    w := rp.HandleUpdateMsg(JsonContentType, id, Success(MsgRecord(id, content, true, 0)), now + 2);
    updated := w.Code();
    after := rp.HandleRetrieveMsg(id);
  }

  /** Deleting the same id twice: 200, then 404. */
  method DeleteTwiceReplay(id: string, now: Time) returns (first: int, second: int)
    requires id != "" && TrimSpace(id) == id
    ensures first == StatusOK && second == StatusNotFound
  {
    var db := new BasicMsgDB();
    var rp := new Repository(db);
    var w := rp.HandleCreateMsg(JsonContentType, Success(MsgRecord(id, "x", false, 0)), now);
    w := rp.HandleDeleteMsg(id);
    first := w.Code();
    w := rp.HandleDeleteMsg(id);
    second := w.Code();
  }

  /** Listing an empty store answers 200 with no messages. */
  method ListEmpty() returns (w: Response)
    ensures w.Code() == StatusOK && w.body == [MsgsJson([])]
  {
    var db := new BasicMsgDB();
    var rp := new Repository(db);
    ghost var ids;
    w, ids := rp.HandleRetrieveAllMsgs();
    MsgDb.EnumerationLength(ids, db.Contents().Keys);
  }
}
