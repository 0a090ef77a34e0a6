# palermo message store, in Dafny

A model of the message-store core of palermo, a small REST service written in Go that stores
text messages by id and says whether each message is a palindrome.

The model covers five pieces of the service:

- **The message** (`internal/db/msg.go`). `Msg` is a class, because the in-memory store updates a
  stored `*Msg` in place. `MsgRecord` holds the value of its fields. `NewMsg` keeps the id and
  content and derives `IsPalindrome` with the two-ended comparison loop of `isPalindrome`. That
  loop is proved against `Palindromic`: mirrored characters agree once lower-cased.
- **The typed errors** (`internal/db/errors.go`). `DbError` has the two kinds the store defines
  and `Other` for any other error value. The type tests `IsErrMsgNotFound` and
  `IsErrIdUnavailable` come with it.
- **The storage contract** (`internal/db/msg_db.go`). Dafny has no interfaces here, so the
  documented behaviour of each `MsgDB` operation is a predicate over an abstract store, a
  `map<string, MsgRecord>`. An operation does what its doc comment says, or it fails with an error
  of neither typed kind and leaves the store unchanged. The lemmas beside the predicates hold for
  every backend that meets them.
- **The in-memory store** (`internal/db/basic_msg_db.go`). `BasicMsgDB` keeps a
  `map<string, Msg>`. Each of its methods states its exact effect on that map and on the stored
  objects. Each also proves that it meets the storage contract on `Contents()`, the values of the
  stored messages by id; for `UpdateMsg` this holds when `Valid()` held before the call.
  `Valid()` says every message is stored under its own id. The constructor establishes it and
  every operation keeps it.
- **The handlers** (`internal/handlers/repository.go`). Each handler is a method of `Repository`
  that calls the shared store and builds a `Response`. A response is the first status written
  (200 if none was) plus the chunks written to its body.
  - A request body arrives already decoded, as `Success(record)`, or as `Failure(text)` when
    decoding failed.
  - Both quirks of the code are kept. A wrong Content-Type writes 415, but create and update carry
    on, so the store can still change while the client sees 415. Create trims the id; update
    compares the path id and the body id untrimmed.

Strings are sequences of characters. `Strings.ToLower` lower-cases the ASCII letters only.
`Strings.TrimSpace` removes the characters Go's `unicode.IsSpace` accepts. The clock is a
parameter: each handler that builds a message takes `now`.

The `Scenarios` module replays request sequences from the repository's tests on a fresh store. Each
scenario returns the statuses the client receives, and what it ensures follows from the handler
contracts alone.

## Model

| member | source | states |
|---|---|---|
| Strings.ToLower | internal/db/msg.go:37 | the result has the input's length, and each character is the input's character lower-cased |
| Strings.TrimSpace | internal/handlers/repository.go:36 | the result is the middle slice of the input with only white space cut off before and after it; it is empty exactly when every character is white space, otherwise it starts and ends with a non-space; an input with non-space ends comes back unchanged |
| Strings.TrimSpaceIdempotent | internal/handlers/repository.go:36-37 | trimming an id that was already trimmed changes nothing |
| Messages.IsPalindrome | internal/db/msg.go:34-47 | the loop's verdict is `Palindromic(sequence)`, and it holds exactly when the lower-cased input equals its own reverse |
| Messages.LoweredEqualsReverse | internal/db/msg.go:36-47 | both directions: being a palindrome is the same as the lower-cased input being equal to its reverse |
| Messages.PairsMatchDecides | internal/db/msg.go:40-45 | checking the pairs from the front, stopping at the first mismatch, decides exactly `Palindromic` |
| Messages.Mismatch | internal/db/msg.go:41-43 | one pair of mirrored positions that differ after lower-casing makes the verdict false |
| Messages.PalindromeUnderReversal | internal/db/msg.go:40-44 | reversing the input never changes the verdict |
| Messages.CaseIgnored | internal/db/msg.go:34-37 | two inputs that differ only in letter case get the same verdict |
| Messages.ShortIsPalindrome | internal/db/msg.go:39-40 | the empty string and every one-character string are palindromes |
| Messages.KnownPalindromes | internal/db/msg_test.go:33-52 | "kayak", "Step on no pets", "Live on time emit no evil", "613A316" and " 6 7 8   8 7 6 " are palindromes: letter case is ignored, spaces are compared |
| Messages.KnownNonPalindromes | internal/db/msg_test.go:53-68 | "12345321", "potato", the long mixed string and "===s===a==" are not palindromes: spaces and punctuation are not skipped |
| Messages.SpacedMessage | internal/db/msg_test.go:12-16 | "a message", the content of the constructor example, is not a palindrome |
| Messages.SlashedOnes | internal/handlers/repository_test.go:101-119 | "11/11/11", the content of the retrieved message, is a palindrome |
| Messages.Msg.NewMsg | internal/db/msg.go:18-27 | id and content are kept as given, `isPalindrome` is `Palindromic(content)`, and the time is the supplied "now" |
| Messages.Snapshots | internal/handlers/repository.go:65 | the values of a slice of messages, one per message and in the same order |
| Errors.DbError.Error | internal/db/errors.go:6-20 | the text of each kind's `Error()`, and an other error's own text |
| Errors.IsErrMsgNotFound | internal/db/errors.go:10-13 | the type test for `ErrMsgNotFound` |
| Errors.IsErrIdUnavailable | internal/db/errors.go:22-25 | the type test for `ErrIdUnavailable` |
| Errors.KindsAreDisjoint | internal/db/errors.go:3-25 | each type test holds exactly for its own kind; no error is of both kinds; any other error is of neither kind |
| Errors.FixedTexts | internal/db/errors.go:6-20 | each kind's exact `Error()` text; the two texts differ; another error carrying a typed error's text is still not of that kind |
| MsgDb.GetMsgMeets | internal/db/msg_db.go:5-7 | a get returns the message stored under the id, or `ErrMsgNotFound` when there is none, or fails with an error of neither typed kind |
| MsgDb.GetAllMsgsMeets | internal/db/msg_db.go:9-10 | a listing holds every stored message exactly once, in the order of an enumeration of the ids, so none for an empty store; or it fails with an error of neither typed kind |
| MsgDb.CreateMsgMeets | internal/db/msg_db.go:12-14 | a create adds the message under its id when the id is free; a used id gives `ErrIdUnavailable`; any other failure is of neither typed kind; every failure leaves the store unchanged |
| MsgDb.UpdateMsgMeets | internal/db/msg_db.go:16-18 | an update replaces content, flag and time of the message stored under the id; an absent id gives `ErrMsgNotFound`; any other failure is of neither typed kind; every failure leaves the store unchanged |
| MsgDb.DeleteMsgMeets | internal/db/msg_db.go:20-22 | a delete removes the id; an absent id gives `ErrMsgNotFound`; any other failure is of neither typed kind; every failure leaves the store unchanged |
| MsgDb.EnumerationLength | internal/db/msg_db.go:9-10 | a listing with every stored id exactly once has one entry per stored message |
| MsgDb.CreateThenGet | internal/db/msg_db.go:5-14 | for any backend, after a successful create, a get of that id does not say "not found", and a successful get returns the created message |
| MsgDb.CreateTwice | internal/db/msg_db.go:12-14 | for any backend, a second create with an id already in use fails, not as "not found", and the first message stays |
| MsgDb.UpdateNeverInserts | internal/db/msg_db.go:16-18 | for any backend, an update never adds or removes an id and never changes a stored message's id |
| MsgDb.DeleteTwice | internal/db/msg_db.go:20-22 | for any backend, after a successful delete the id is gone, and a second delete fails, not as "id in use", and changes nothing |
| BasicStore.BasicMsgDB.constructor | internal/db/basic_msg_db.go:12-14 | a new store is empty and satisfies the store invariant |
| BasicStore.BasicMsgDB.GetMsg | internal/db/basic_msg_db.go:16-23 | the `*Msg` stored under the id, or `ErrMsgNotFound` when the id is absent; the store is not changed; meets the contract of `GetMsg` |
| BasicStore.BasicMsgDB.GetAllMsgs | internal/db/basic_msg_db.go:25-33 | never fails; returns every stored `*Msg` exactly once, in the order of an enumeration of the ids, so an empty store gives none; meets the contract of `GetAllMsgs` |
| BasicStore.BasicMsgDB.CreateMsg | internal/db/basic_msg_db.go:35-41 | an absent id gains the message and the call succeeds; a present id gives `ErrIdUnavailable` and nothing changes; keeps the invariant; meets the contract of `CreateMsg` |
| BasicStore.BasicMsgDB.UpdateMsg | internal/db/basic_msg_db.go:43-54 | the stored `*Msg` takes the new content, flag and time in place, keeps its id, and no other object changes; an absent id gives `ErrMsgNotFound` and nothing is inserted; keeps the invariant; when the invariant held before the call, meets the contract of `UpdateMsg` |
| BasicStore.BasicMsgDB.DeleteMsg | internal/db/basic_msg_db.go:56-62 | a present id is removed and nothing else changes; an absent id gives `ErrMsgNotFound`; keeps the invariant; meets the contract of `DeleteMsg` |
| Handlers.HandleReqErr | internal/handlers/repository.go:159-166 | the client sees the base message appended to the body, and the code only when no status was written before |
| Handlers.InternalMessageNeverSent | internal/handlers/repository.go:159-166 | the response is the same whatever the internal message is; only the base message is added |
| Handlers.WriteBody | internal/handlers/repository.go:100-101 | a write appends to the body, and a first write without a status answers 200 |
| Handlers.NotFoundReply | internal/handlers/repository.go:82-89 | a store error of kind `ErrMsgNotFound` answers 404 naming the id; any other error answers 500; an earlier status is kept |
| Handlers.ConflictReply | internal/handlers/repository.go:46-52 | a store error of kind `ErrIdUnavailable` answers 409 naming the id; any other error answers 500; an earlier status is kept |
| Handlers.Answered | internal/handlers/repository.go:25-27 | the status a create or update request ends with: 415 for a wrong Content-Type whatever the later steps answer, else the later steps' status |
| Handlers.UnsupportedTypeStays | internal/handlers/repository.go:25-34 | because the 415 reply does not return, a later error reply is still seen as 415, exactly the status `Answered` gives |
| Handlers.ReplyTexts | internal/handlers/repository.go:48 | the client's line for an id in use is "CreateMsg request failed, <id> is already in use", and for a missing id (lines 85, 133, 149) "Msg with id <id> was not found" |
| Handlers.Repository.constructor | internal/handlers/repository.go:18-22 | the repository works on the store it is given |
| Handlers.Repository.HandleCreateMsg | internal/handlers/repository.go:24-56 | an undecodable body and a trimmed-empty id answer 400 and leave the store unchanged; a trimmed id already in use answers 409 and leaves it unchanged; otherwise the store gains `NewMsg(trimmed id, content)`, with the client's flag and time ignored, and the answer is 200; a wrong Content-Type makes every one of these answers 415 without changing the store effects; a 200 has an empty body |
| Handlers.Repository.StoreNew | internal/handlers/repository.go:42-45 | a taken id gives `ErrIdUnavailable` and an unchanged store; a free id gains the message `NewMsg` builds |
| Handlers.Repository.HandleRetrieveAllMsgs | internal/handlers/repository.go:58-77 | answers 200 with one list holding every stored message exactly once |
| Handlers.Repository.HandleRetrieveMsg | internal/handlers/repository.go:79-106 | a stored id answers 200 with the stored message; an absent id answers 404 naming the id |
| Handlers.Repository.HandleUpdateMsg | internal/handlers/repository.go:108-141 | an undecodable body, or a path id different from the body id, answers 400 with the store unchanged; an absent id answers 404 with the store unchanged; otherwise the stored message keeps its id and takes the content, `Palindromic(content)` and the time, and the answer is 200; a wrong Content-Type turns every answer into 415 with the same store effects |
| Handlers.Repository.StoreUpdate | internal/handlers/repository.go:127-130 | an absent id gives `ErrMsgNotFound` and an unchanged store; a stored id takes the content, flag and time `NewMsg` derives |
| Handlers.Repository.HandleDeleteMsg | internal/handlers/repository.go:143-157 | a stored id is removed and the answer is 200 with an empty body; an absent id answers 404 naming the id, with the store unchanged |
| Scenarios.CreateRetrieveConflict | internal/handlers/repository_test.go:64-81 | on a fresh store, create answers 200, a retrieve answers 200 with the message `NewMsg` built, and a second create of the id answers 409 |
| Scenarios.RetrievePalindrome | internal/handlers/repository_test.go:97-119 | a stored "11/11/11" is retrieved with 200 and its palindrome flag set |
| Scenarios.RejectedCreates | internal/handlers/repository_test.go:42-61 | an undecodable body and an all-space id both answer 400 |
| Scenarios.WrongContentTypeStillStores | internal/handlers/repository_test.go:84-94 | a create with a wrong Content-Type answers 415 and the message is still stored |
| Scenarios.UpdateStored | internal/handlers/repository_test.go:191-244 | an update of an unknown id answers 404, a mismatched path id 400, a real update 200, and the message read back has the new content, flag and time |
| Scenarios.DeleteTwiceReplay | internal/db/basic_msg_db_test.go:127-141 | deleting the same id twice answers 200, then 404 |
| Scenarios.ListEmpty | internal/handlers/repository_test.go:172-188 | listing an empty store answers 200 with an empty list |

## Left out

- The MongoDB backend (`internal/db/mongo_msg_db.go`) is not part of this model; it is driver I/O. The handlers call `BasicMsgDB` directly. The 500 answers for unexpected store errors appear in `NotFoundReply` and `ConflictReply`, but the in-memory store never produces such errors.
- The program entry points, router wiring, middleware and all logging are left out. The path id that the router extracts (`mux.Vars`) is a parameter of the handlers.
- The concurrency of `sync.Map` is left out. The model is the sequential map semantics of `Load`, `LoadOrStore`, `LoadAndDelete` and `Range`.
- `time.Now()` is not modelled. The time is the caller-supplied parameter `now`, and the model never inspects it.
- JSON decoding and encoding are abstracted. A body arrives decoded as a `MsgRecord`, or as the decoder's error text. A response body holds `MsgJson`/`MsgsJson` chunks instead of encoded bytes.
- The 500 answers for a failed `json.Marshal` or a failed `w.Write` (repository.go:66-68, 73-75, 95-97, 102-104) are not modelled. Marshalling a `Msg` cannot fail, and write failures come from the network.
- Setting the `Content-Type` response header is not modelled.
- The encoding of an empty listing is left out. Go's `GetAllMsgs` returns a nil slice for an empty store, which is encoded as JSON `null`, not `[]`. The model returns an empty sequence and does not tell the two encodings apart.
- Unicode case folding is left out. `Strings.ToLower` lower-cases ASCII letters only.
- Messages.IsPalindrome: compares characters, while Go's loop compares the bytes of the UTF-8 encoding. The two agree on ASCII input.
- `Msg.String` (formatting for logs) and `MsgDB.Close` (releases a backend connection; the in-memory store has none) are not modelled.
- Handlers.Repository.HandleUpdateMsg: requires the store invariant `Valid()`, because in-place updates are reasoned about through it. `BasicMsgDB`'s constructor establishes it and every handler keeps it, so it holds for every store the service builds.
- Handlers.Repository.HandleUpdateMsg: when the store fails with an unexpected error, the source answers with the text "Unexpected error during creation of message". The model keeps that text, and the in-memory store never reaches the branch.
- Handlers.Repository.HandleRetrieveAllMsgs: the listing order is the order of a ghost enumeration of the ids, which stands for `sync.Map`'s unspecified iteration order.
