/**
 * The in-memory store of internal/db/basic_msg_db.go. It is a map from id to the `*Msg` stored
 * under it. Create inserts only when the id is absent. Update writes the fields of the stored
 * `*Msg` in place, so whoever holds that pointer sees the change. Delete removes the id.
 */
module BasicStore {
  import opened Wrappers
  import opened Errors
  import opened Messages
  import opened MsgDb

  class BasicMsgDB {
    var msgs: map<string, Msg>

    /** Every message is stored under its own id. This also means no two ids share one `*Msg`. */
    ghost predicate Valid()
      reads this, msgs.Values
    {
      forall id | id in msgs :: msgs[id].id == id
    }

    /** The current values of the stored messages, by id. */
    ghost function Contents(): Store
      reads this, msgs.Values
    {
      map id | id in msgs :: msgs[id].Record()
    }

    /** `NewBasicMsgDB`: an empty store. */
    constructor ()
      ensures msgs == map[]
      ensures Valid() && Contents() == map[]
    {
      msgs := map[];
    }

    /** `GetMsg`: the `*Msg` stored under `id`, or `ErrMsgNotFound`. */
    method GetMsg(id: string) returns (r: Result<Msg, DbError>)
      ensures id in msgs ==> r == Success(msgs[id])
      ensures id !in msgs ==> r == Failure(ErrMsgNotFound)
      ensures GetMsgMeets(Contents(), id, if r.Success? then Success(r.value.Record()) else Failure(r.error))
    {
      if id !in msgs {
        return Failure(ErrMsgNotFound);
      }
      return Success(msgs[id]);
    }

    /**
     * `GetAllMsgs`: visits the map in an order of its own choosing and collects every stored
     * `*Msg` once. It never fails; `ids` is the order in which the ids were visited.
     */
    method GetAllMsgs() returns (r: Result<seq<Msg>, DbError>, ghost ids: seq<string>)
      ensures r.Success?
      ensures Enumerates(ids, msgs.Keys)
      ensures |r.value| == |ids| == |msgs|
      ensures forall i | 0 <= i < |ids| :: r.value[i] == msgs[ids[i]]
      ensures GetAllMsgsMeets(Contents(), Success(Snapshots(r.value)), ids)
    {
      var collected: seq<Msg> := [];
      ids := [];
      var unvisited := msgs.Keys;
      while unvisited != {}
        invariant unvisited <= msgs.Keys
        invariant Enumerates(ids, msgs.Keys - unvisited)
        invariant |collected| == |ids|
        invariant forall i | 0 <= i < |ids| :: collected[i] == msgs[ids[i]]
        decreases unvisited
      {
        var id :| id in unvisited;
        collected := collected + [msgs[id]];
        ids := ids + [id];
        unvisited := unvisited - {id};
      }
      EnumerationLength(ids, msgs.Keys);
      r := Success(collected);
    }

    /** `CreateMsg`: stores `msg` under `msg.Id` only if that id is absent, else `ErrIdUnavailable`. */
    method CreateMsg(msg: Msg) returns (err: Option<DbError>)
      modifies this
      ensures msg.id in old(msgs) ==> err == Some(ErrIdUnavailable) && msgs == old(msgs)
      ensures msg.id !in old(msgs) ==> err == None && msgs == old(msgs)[msg.id := msg]
      ensures msg.id in old(msgs) ==> Contents() == old(Contents())
      ensures msg.id !in old(msgs) ==> Contents() == old(Contents())[msg.id := msg.Record()]
      ensures old(Valid()) ==> Valid()
      ensures CreateMsgMeets(old(Contents()), Contents(), msg.Record(), err)
    {
      if msg.id in msgs {
        return Some(ErrIdUnavailable);
      }
      msgs := msgs[msg.id := msg];
      assert Contents() == old(Contents())[msg.id := msg.Record()];
      return None;
    }

    /**
     * `UpdateMsg`: copies content, palindrome flag and time of `newMsg` into the `*Msg` stored
     * under `newMsg.Id`, in place; its id and every other stored message stay as they were.
     */
    method UpdateMsg(newMsg: Msg) returns (err: Option<DbError>)
      modifies msgs.Values
      ensures newMsg.id == old(newMsg.id)
      ensures newMsg.id !in msgs ==> err == Some(ErrMsgNotFound) && unchanged(msgs.Values)
      ensures newMsg.id in msgs ==>
                var stored := msgs[newMsg.id];
                && err == None
                && stored.id == old(stored.id)
                && stored.content == old(newMsg.content)
                && stored.isPalindrome == old(newMsg.isPalindrome)
                && stored.modTime == old(newMsg.modTime)
                && forall m | m in msgs.Values && m != stored :: unchanged(m)
      ensures old(Valid()) ==> Valid()
      ensures old(Valid()) && newMsg.id in old(msgs) ==>
                Contents() == old(Contents())[newMsg.id := Updated(old(Contents())[newMsg.id], old(newMsg.Record()))]
      ensures old(Valid()) ==> UpdateMsgMeets(old(Contents()), Contents(), old(newMsg.Record()), err)
    {
      if newMsg.id !in msgs {
        return Some(ErrMsgNotFound);
      }
      var stored := msgs[newMsg.id];
      ghost var before := stored.Record();
      ghost var update := newMsg.Record();
      stored.content := newMsg.content;
      stored.isPalindrome := newMsg.isPalindrome;
      stored.modTime := newMsg.modTime;
      if old(Valid()) {
        forall id | id in msgs && id != newMsg.id ensures msgs[id] != stored {
          assert old(msgs[id].id) == id;
        }
        assert Contents() == old(Contents())[newMsg.id := Updated(before, update)];
      }
      return None;
    }

    /** `DeleteMsg`: removes `id` if it is stored, else `ErrMsgNotFound`. */
    method DeleteMsg(id: string) returns (err: Option<DbError>)
      modifies this
      ensures id in old(msgs) ==> err == None && msgs == old(msgs) - {id}
      ensures id !in old(msgs) ==> err == Some(ErrMsgNotFound) && msgs == old(msgs)
      ensures Contents() == old(Contents()) - {id}
      ensures old(Valid()) ==> Valid()
      ensures DeleteMsgMeets(old(Contents()), Contents(), id, err)
    {
      if id !in msgs {
        return Some(ErrMsgNotFound);
      }
      msgs := msgs - {id};
      assert Contents() == old(Contents()) - {id};
      return None;
    }
  }
}
