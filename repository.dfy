/**
 * The request handlers of internal/handlers/repository.go. A handler validates the request, calls
 * the store and answers with one status code. JSON decoding is abstracted: a request body arrives
 * already decoded into a `MsgRecord`, or as the decoder's error text. The response is modelled as
 * the first status written (200 when none was) and the chunks written to its body.
 */
module Handlers {
  import opened Wrappers
  import opened Strings
  import opened Errors
  import opened Messages
  import opened MsgDb
  import opened BasicStore

  const JsonContentType := "application/json"

  const StatusOK := 200
  const StatusBadRequest := 400
  const StatusNotFound := 404
  const StatusConflict := 409
  const StatusUnsupportedMediaType := 415
  const StatusInternalServerError := 500

  /** The step during which an unexpected store error occurred, as the reply names it. */
  datatype Operation = Creation | RetrievalOfAll | Retrieval | Deletion

  /** The reason a handler gives the client for an error reply. */
  datatype Reason =
    | UnsupportedContentType
    | UndecodableBody
    | EmptyId
    | IdInUse(id: string)
    | IdMismatch
    | MsgNotFound(id: string)
    | Unexpected(during: Operation)

  /** The text of a reason, as it appears in the response body. */
  function Text(reason: Reason): string {
    match reason
    case UnsupportedContentType => "Unsupported content type"
    case UndecodableBody => "Failed to decode body into msg object"
    case EmptyId => "Message id must not be empty"
    case IdInUse(id) => "CreateMsg request failed, " + id + " is already in use"
    case IdMismatch => "The id in the request doesn't match the id in the msg object"
    case MsgNotFound(id) => "Msg with id " + id + " was not found"
    case Unexpected(Creation) => "Unexpected error during creation of message"
    case Unexpected(RetrievalOfAll) => "Unexpected error during retrieval of all messages"
    case Unexpected(Retrieval) => "Unexpected error during retrieval of message"
    case Unexpected(Deletion) => "Unexpected error during deletion of message"
  }

  /** A piece of a response body: an error line, or a JSON message or message list. */
  datatype Chunk = ErrorLine(reason: Reason) | MsgJson(msg: MsgRecord) | MsgsJson(msgs: seq<MsgRecord>)

  /**
   * What a handler has written so far. Once a status is written, later ones are ignored; a
   * response whose status was never written reaches the client as 200.
   */
  datatype Response = Response(header: Option<int>, body: seq<Chunk>) {
    function Code(): int {
      header.GetOr(StatusOK)
    }
  }

  /** A response nothing has been written to. */
  const Unwritten := Response(None, [])

  /**
   * `handleReqErr`: answers through `http.Error`, which writes `code` unless a status was already
   * written, and appends the line `Text(baseErrorMsg)` to the body. `internalErrorMsg` only goes to
   * the log, so it never reaches the client.
   */
  function HandleReqErr(w: Response, baseErrorMsg: Reason, code: int, internalErrorMsg: string): (r: Response)
    ensures r.body == w.body + [ErrorLine(baseErrorMsg)]
    ensures r.Code() == (if w.header.Some? then w.Code() else code)
  {
    Response(if w.header.Some? then w.header else Some(code), w.body + [ErrorLine(baseErrorMsg)])
  }

  /** The response to the client is the same whatever the internal message was. */
  lemma InternalMessageNeverSent(w: Response, baseErrorMsg: Reason, code: int, internal1: string, internal2: string)
    ensures HandleReqErr(w, baseErrorMsg, code, internal1) == HandleReqErr(w, baseErrorMsg, code, internal2)
    ensures forall c | c in HandleReqErr(w, baseErrorMsg, code, internal1).body[|w.body|..] :: c == ErrorLine(baseErrorMsg)
  {
  }

  /** `w.Write`: appends to the body; a first write without a status sends 200. */
  function WriteBody(w: Response, c: Chunk): (r: Response)
    ensures r.body == w.body + [c]
    ensures r.header.Some? && r.Code() == w.Code()
  {
    Response(if w.header.Some? then w.header else Some(StatusOK), w.body + [c])
  }

  /**
   * The status a create or update request is answered with when its later steps would answer
   * `code`: a Content-Type other than JSON has already written 415, and that status stays.
   */
  function Answered(contentType: string, code: int): int {
    if contentType != JsonContentType then StatusUnsupportedMediaType else code
  }

  /** A failed get, update or delete: 404 for `ErrMsgNotFound`, 500 otherwise. */
  function NotFoundReply(w: Response, err: DbError, id: string, during: Operation): (r: Response)
    ensures w.header.None? ==> r.Code() == (if IsErrMsgNotFound(err) then StatusNotFound else StatusInternalServerError)
    ensures w.header.Some? ==> r.Code() == w.Code()
    ensures IsErrMsgNotFound(err) ==> r.body == w.body + [ErrorLine(MsgNotFound(id))]
    ensures !IsErrMsgNotFound(err) ==> r.body == w.body + [ErrorLine(Unexpected(during))]
  {
    if IsErrMsgNotFound(err) then
      HandleReqErr(w, MsgNotFound(id), StatusNotFound, err.Error())
    else
      HandleReqErr(w, Unexpected(during), StatusInternalServerError, err.Error())
  }

  /** A failed create: 409 for `ErrIdUnavailable`, 500 otherwise. */
  function ConflictReply(w: Response, err: DbError, id: string): (r: Response)
    ensures w.header.None? ==> r.Code() == (if IsErrIdUnavailable(err) then StatusConflict else StatusInternalServerError)
    ensures w.header.Some? ==> r.Code() == w.Code()
    ensures IsErrIdUnavailable(err) ==> r.body == w.body + [ErrorLine(IdInUse(id))]
    ensures !IsErrIdUnavailable(err) ==> r.body == w.body + [ErrorLine(Unexpected(Creation))]
  {
    if IsErrIdUnavailable(err) then
      HandleReqErr(w, IdInUse(id), StatusConflict, err.Error())
    else
      HandleReqErr(w, Unexpected(Creation), StatusInternalServerError, err.Error())
  }

  /**
   * The 415 written for a wrong Content-Type is never replaced: a later error reply still reaches
   * the client as 415, which is the status `Answered` gives.
   */
  lemma UnsupportedTypeStays(contentType: string, reason: Reason, code: int, internal: string)
    ensures var w := if contentType != JsonContentType
                     then HandleReqErr(Unwritten, UnsupportedContentType, StatusUnsupportedMediaType, "")
                     else Unwritten;
            HandleReqErr(w, reason, code, internal).Code() == Answered(contentType, code)
  {
  }

  /** The line a client reads for a missing id, and for an id in use, names that id. */
  lemma ReplyTexts(w: Response, err: DbError, id: string, during: Operation)
    ensures IsErrMsgNotFound(err) ==>
              Text(NotFoundReply(w, err, id, during).body[|w.body|].reason) == "Msg with id " + id + " was not found"
    ensures IsErrIdUnavailable(err) ==>
              Text(ConflictReply(w, err, id).body[|w.body|].reason) == "CreateMsg request failed, " + id + " is already in use"
  {
  }

  /** `Repository`: the handlers, sharing one store. */
  class Repository {
    const msgDb: BasicMsgDB

    /** `NewRepository`. */
    constructor (msgDb: BasicMsgDB)
      ensures this.msgDb == msgDb
    {
      this.msgDb := msgDb;
    }

    /**
     * `HandleCreateMsg`. The id is trimmed; the stored message is built by `NewMsg` from the
     * trimmed id and the content, so a client's palindrome flag and time are ignored. A wrong
     * Content-Type writes 415 but does not stop the handler: the store may still change.
     */
    method HandleCreateMsg(contentType: string, body: Result<MsgRecord, string>, now: Time) returns (w: Response)
      modifies msgDb
      ensures old(msgDb.Valid()) ==> msgDb.Valid()
      ensures body.Failure? ==>
                msgDb.Contents() == old(msgDb.Contents()) && w.Code() == Answered(contentType, StatusBadRequest)
      ensures body.Success? && TrimSpace(body.value.id) == "" ==>
                msgDb.Contents() == old(msgDb.Contents()) && w.Code() == Answered(contentType, StatusBadRequest)
      ensures body.Success? && TrimSpace(body.value.id) != "" && TrimSpace(body.value.id) in old(msgDb.Contents()) ==>
                msgDb.Contents() == old(msgDb.Contents()) && w.Code() == Answered(contentType, StatusConflict)
      ensures body.Success? && TrimSpace(body.value.id) != "" && TrimSpace(body.value.id) !in old(msgDb.Contents()) ==>
                var id, content := TrimSpace(body.value.id), body.value.content;
                && msgDb.Contents() == old(msgDb.Contents())[id := MsgRecord(id, content, Palindromic(content), now)]
                && w.Code() == Answered(contentType, StatusOK)
      ensures contentType == JsonContentType && w.Code() == StatusOK ==> w.body == []
      ensures fresh(msgDb.msgs.Values - old(msgDb.msgs.Values))
    {
      w := Unwritten;
      if contentType != JsonContentType {
        w := HandleReqErr(w, UnsupportedContentType, StatusUnsupportedMediaType, "");
      }

      if body.Failure? {
        w := HandleReqErr(w, UndecodableBody, StatusBadRequest, body.error);
        return;
      }
      var msgRcv := body.value;

      var id := TrimSpace(msgRcv.id);
      if id == "" {
        w := HandleReqErr(w, EmptyId, StatusBadRequest, "");
        return;
      }

      var err := StoreNew(id, msgRcv.content, now);
      if err.Some? {
        w := ConflictReply(w, err.value, id);
        return;
      }
    }

    /**
     * The storing step of `HandleCreateMsg`: a fresh `Msg` is built by `NewMsg` and handed to
     * `CreateMsg`, which keeps the store as it was when the id is taken.
     */
    method StoreNew(id: string, content: string, now: Time) returns (err: Option<DbError>)
      modifies msgDb
      ensures old(msgDb.Valid()) ==> msgDb.Valid()
      ensures fresh(msgDb.msgs.Values - old(msgDb.msgs.Values))
      ensures id in old(msgDb.Contents()) ==>
                err == Some(ErrIdUnavailable) && msgDb.Contents() == old(msgDb.Contents())
      ensures id !in old(msgDb.Contents()) ==>
                err == None && msgDb.Contents() == old(msgDb.Contents())[id := MsgRecord(id, content, Palindromic(content), now)]
    {
      ghost var before := msgDb.Contents();
      var msg := new Msg.NewMsg(id, content, now);
      ghost var stored := msg.Record();
      assert msgDb.Contents() == before;
      err := msgDb.CreateMsg(msg);
      assert msg.Record() == stored;
    }

    /** `HandleRetrieveAllMsgs`: 200 with every stored message once, in the store's order. */
    method HandleRetrieveAllMsgs() returns (w: Response, ghost ids: seq<string>)
      ensures w.Code() == StatusOK && |w.body| == 1 && w.body[0].MsgsJson?
      ensures GetAllMsgsMeets(msgDb.Contents(), Success(w.body[0].msgs), ids)
    {
      var r;
      r, ids := msgDb.GetAllMsgs();
      match r
      case Failure(err) =>
        w := HandleReqErr(Unwritten, Unexpected(RetrievalOfAll), StatusInternalServerError, err.Error());
      case Success(msgs) =>
        w := WriteBody(Unwritten, MsgsJson(Snapshots(msgs)));
    }

    /** `HandleRetrieveMsg`: 200 with the stored message, or 404 when the id is not stored. */
    method HandleRetrieveMsg(id: string) returns (w: Response)
      ensures id in msgDb.Contents() ==> w.Code() == StatusOK && w.body == [MsgJson(msgDb.Contents()[id])]
      ensures id !in msgDb.Contents() ==>
                w.Code() == StatusNotFound && w.body == [ErrorLine(MsgNotFound(id))]
    {
      var r := msgDb.GetMsg(id);
      match r
      case Failure(err) =>
        w := NotFoundReply(Unwritten, err, id, Retrieval);
      case Success(msg) =>
        w := WriteBody(Unwritten, MsgJson(msg.Record()));
    }

    /**
     * `HandleUpdateMsg`. The path id must equal the body's id exactly (neither is trimmed); the
     * stored message keeps its id and takes the content, with the flag and time `NewMsg` derives.
     * As in create, a wrong Content-Type writes 415 without stopping the handler.
     */
    method HandleUpdateMsg(contentType: string, id: string, body: Result<MsgRecord, string>, now: Time)
      returns (w: Response)
      requires msgDb.Valid()
      modifies msgDb.msgs.Values
      ensures msgDb.Valid()
      ensures body.Failure? ==>
                msgDb.Contents() == old(msgDb.Contents()) && w.Code() == Answered(contentType, StatusBadRequest)
      ensures body.Success? && body.value.id != id ==>
                msgDb.Contents() == old(msgDb.Contents()) && w.Code() == Answered(contentType, StatusBadRequest)
      ensures body.Success? && body.value.id == id && id !in old(msgDb.Contents()) ==>
                msgDb.Contents() == old(msgDb.Contents()) && w.Code() == Answered(contentType, StatusNotFound)
      ensures body.Success? && body.value.id == id && id in old(msgDb.Contents()) ==>
                var content := body.value.content;
                && msgDb.Contents() == old(msgDb.Contents())[id := old(msgDb.Contents())[id].(
                     content := content, isPalindrome := Palindromic(content), modTime := now)]
                && w.Code() == Answered(contentType, StatusOK)
      ensures contentType == JsonContentType && w.Code() == StatusOK ==> w.body == []
      ensures fresh(msgDb.msgs.Values - old(msgDb.msgs.Values))
    {
      w := Unwritten;
      if contentType != JsonContentType {
        w := HandleReqErr(w, UnsupportedContentType, StatusUnsupportedMediaType, "");
      }

      if body.Failure? {
        w := HandleReqErr(w, UndecodableBody, StatusBadRequest, body.error);
        return;
      }
      var msgRcv := body.value;

      if id != msgRcv.id {
        w := HandleReqErr(w, IdMismatch, StatusBadRequest, "");
        return;
      }

      var err := StoreUpdate(msgRcv.id, msgRcv.content, now);
      if err.Some? {
        w := NotFoundReply(w, err.value, id, Creation);
        return;
      }
    }

    /**
     * The storing step of `HandleUpdateMsg`: a fresh `Msg` is built by `NewMsg` and handed to
     * `UpdateMsg`, which copies it into the stored message of that id, if there is one.
     */
    method StoreUpdate(id: string, content: string, now: Time) returns (err: Option<DbError>)
      requires msgDb.Valid()
      modifies msgDb.msgs.Values
      ensures msgDb.Valid()
      ensures id !in old(msgDb.Contents()) ==>
                err == Some(ErrMsgNotFound) && msgDb.Contents() == old(msgDb.Contents())
      ensures id in old(msgDb.Contents()) ==>
                && err == None
                && msgDb.Contents() == old(msgDb.Contents())[id := old(msgDb.Contents())[id].(
                     content := content, isPalindrome := Palindromic(content), modTime := now)]
    {
      ghost var before := msgDb.Contents();
      var msg := new Msg.NewMsg(id, content, now);
      assert msgDb.Contents() == before && msgDb.Valid();
      err := msgDb.UpdateMsg(msg);
    }

    /** `HandleDeleteMsg`: removes the id and answers 200, or 404 when the id is not stored. */
    method HandleDeleteMsg(id: string) returns (w: Response)
      modifies msgDb
      ensures old(msgDb.Valid()) ==> msgDb.Valid()
      ensures fresh(msgDb.msgs.Values - old(msgDb.msgs.Values))
      ensures id in old(msgDb.Contents()) ==>
                msgDb.Contents() == old(msgDb.Contents()) - {id} && w.Code() == StatusOK && w.body == []
      ensures id !in old(msgDb.Contents()) ==>
                && msgDb.Contents() == old(msgDb.Contents())
                && w.Code() == StatusNotFound && w.body == [ErrorLine(MsgNotFound(id))]
    {
      w := Unwritten;
      var err := msgDb.DeleteMsg(id);
      if err.Some? {
        w := NotFoundReply(w, err.value, id, Deletion);
        return;
      }
    }
  }
}
