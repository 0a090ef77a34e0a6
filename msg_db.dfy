/**
 * The storage contract of internal/db/msg_db.go (the `MsgDB` interface), stated over an abstract
 * store: the messages it holds, by id. Each operation either does what its documentation says, or
 * fails with an error of neither typed kind (a backend failure) and leaves the store as it was.
 * `Close` releases a backend connection and has no effect on the stored messages.
 */
module MsgDb {
  import opened Wrappers
  import opened Errors
  import opened Messages

  /** The messages a store holds, by id. */
  type Store = map<string, MsgRecord>

  /** An error that is neither `ErrMsgNotFound` nor `ErrIdUnavailable`. */
  predicate BackendFailure(err: DbError) {
    !IsErrMsgNotFound(err) && !IsErrIdUnavailable(err)
  }

  /** `GetMsg(id)`: the stored message, or `ErrMsgNotFound` when no message has that id. */
  ghost predicate GetMsgMeets(s: Store, id: string, r: Result<MsgRecord, DbError>) {
    || r == (if id in s then Success(s[id]) else Failure(ErrMsgNotFound))
    || (r.Failure? && BackendFailure(r.error))
  }

  /** `ids` lists every key of `keys` exactly once, in some order. */
  ghost predicate Enumerates(ids: seq<string>, keys: set<string>) {
    && (forall i, j | 0 <= i < j < |ids| :: ids[i] != ids[j])
    && (forall i | 0 <= i < |ids| :: ids[i] in keys)
    && (forall k | k in keys :: k in ids)
  }

  /** `GetAllMsgs`: every stored message once, in the order of some enumeration `ids` of the ids. */
  ghost predicate GetAllMsgsMeets(s: Store, r: Result<seq<MsgRecord>, DbError>, ids: seq<string>) {
    || (&& r.Success?
        && Enumerates(ids, s.Keys)
        && |r.value| == |ids|
        && forall i | 0 <= i < |ids| :: r.value[i] == s[ids[i]])
    || (r.Failure? && BackendFailure(r.error))
  }

  /** `CreateMsg(m)`: adds `m` under its id, or `ErrIdUnavailable` when the id is in use. */
  ghost predicate CreateMsgMeets(s: Store, s': Store, m: MsgRecord, err: Option<DbError>) {
    || (m.id !in s && err == None && s' == s[m.id := m])
    || (m.id in s && err == Some(ErrIdUnavailable) && s' == s)
    || (err.Some? && BackendFailure(err.value) && s' == s)
  }

  /** The stored message after an update with `m`: content, flag and time replaced. */
  function Updated(stored: MsgRecord, m: MsgRecord): MsgRecord {
    stored.(content := m.content, isPalindrome := m.isPalindrome, modTime := m.modTime)
  }

  /** `UpdateMsg(m)`: updates the message stored under `m.id`, or `ErrMsgNotFound`. */
  ghost predicate UpdateMsgMeets(s: Store, s': Store, m: MsgRecord, err: Option<DbError>) {
    || (m.id in s && err == None && s' == s[m.id := Updated(s[m.id], m)])
    || (m.id !in s && err == Some(ErrMsgNotFound) && s' == s)
    || (err.Some? && BackendFailure(err.value) && s' == s)
  }

  /** `DeleteMsg(id)`: removes the message with that id, or `ErrMsgNotFound`. */
  ghost predicate DeleteMsgMeets(s: Store, s': Store, id: string, err: Option<DbError>) {
    || (id in s && err == None && s' == s - {id})
    || (id !in s && err == Some(ErrMsgNotFound) && s' == s)
    || (err.Some? && BackendFailure(err.value) && s' == s)
  }

  /** An enumeration has one entry per key. */
  lemma {:induction false} EnumerationLength(ids: seq<string>, keys: set<string>)
    requires Enumerates(ids, keys)
    ensures |ids| == |keys|
  {
    if ids != [] {
      var last := ids[|ids| - 1];
      var rest := ids[..|ids| - 1];
      assert Enumerates(rest, keys - {last}) by {
        forall k | k in keys - {last} ensures k in rest {
          var i :| 0 <= i < |ids| && ids[i] == k;
          assert i < |ids| - 1;
        }
      }
      EnumerationLength(rest, keys - {last});
    }
  }

  /** Any backend: a message created successfully is what a successful get returns for its id. */
  lemma CreateThenGet(s: Store, s1: Store, m: MsgRecord, r: Result<MsgRecord, DbError>)
    requires CreateMsgMeets(s, s1, m, None)
    requires GetMsgMeets(s1, m.id, r)
    ensures r != Failure(ErrMsgNotFound)
    ensures r.Success? ==> r.value == m
  {
  }

  /** Any backend: a second create with an id already in use never succeeds and changes nothing. */
  lemma CreateTwice(s: Store, s1: Store, s2: Store, m: MsgRecord, m2: MsgRecord, err: Option<DbError>)
    requires CreateMsgMeets(s, s1, m, None)
    requires m2.id == m.id
    requires CreateMsgMeets(s1, s2, m2, err)
    ensures err.Some? && !IsErrMsgNotFound(err.value)
    ensures s2 == s1 && s2[m.id] == m
  {
  }

  /** Any backend: an update never adds an id, and the stored id never changes. */
  lemma UpdateNeverInserts(s: Store, s1: Store, m: MsgRecord, err: Option<DbError>)
    requires UpdateMsgMeets(s, s1, m, err)
    ensures s1.Keys == s.Keys
    ensures forall id | id in s :: s1[id].id == s[id].id
  {
  }

  /** Any backend: after a successful delete, deleting the same id again never succeeds. */
  lemma DeleteTwice(s: Store, s1: Store, s2: Store, id: string, err: Option<DbError>)
    requires DeleteMsgMeets(s, s1, id, None)
    requires DeleteMsgMeets(s1, s2, id, err)
    ensures id !in s1 && s2 == s1
    ensures err.Some? && !IsErrIdUnavailable(err.value)
  {
  }
}
