# MEET-LINE signaling backend: the user and room managers in Dafny

MEET-LINE pairs anonymous visitors for one-to-one video calls. Its backend
keeps all matchmaking and signaling state in two in-memory objects:

- `UserManager` holds the registered users, in the order they were added,
  and a FIFO waiting queue of socket ids. Users are appended without a
  duplicate check and removed by socket id. Queue entries are appended only
  when absent and spliced out from anywhere. A cleanup pass drops users whose
  socket is no longer connected, together with their queue entries.
- `RoomManager` holds two-person rooms keyed `room-<n>`, where `n` comes from
  a counter that is incremented before each use. Creating a room notifies its
  first member. Removing a room notifies both members and deletes it. An
  offer is relayed to the room's second member. The answer relay sends
  nothing at all.

The model is imperative, like the source. Both managers are Dafny classes
whose fields are the source's fields (`users` and `waitingQueue` as
sequences, `rooms` as a map, `roomCounter` as a `nat`). Each method's
`ensures` gives its whole new state in terms of the old one, using
specification functions on sequences. Lemmas state what those functions
guarantee.

Modelling choices:

- A socket is a record `Socket(id, connected)`. Every `socket.emit(event,
  payload)` the room manager performs is appended to its `outbox` field as
  `Emit(socket id, event, payload)`. Event names keep the source's spelling,
  including `roomCLosed`.
- `Date.now()` is the `now` parameter of `AddUser`.
- `userData` is an optional name. The source first computes
  `userData.name || "User-" + id.substring(0, 6)` and then spreads `userData`
  over the record. A supplied name therefore always wins, even the empty
  string, and the default applies only when no name is given. `NewUser`
  keeps both steps.
- A user's `id` field is always a copy of `socket.id` once the spread is
  reduced to a name. The model reads it from the socket (`User.Id()`).
- Each class has an invariant `Valid()`, established by its constructor and
  kept by every method. For the user manager it says that no socket id waits
  twice, which holds because the queue is filled only by `addToWaitingQueue`.
  For the room manager it says that every key was handed out by the counter
  and that every room has two members, which holds because rooms are created
  only by `createRoom`. The invariant rules out only states that no sequence
  of calls reaches.

Behaviour of the code worth knowing, all of it modelled as written:

- `addUser` does not reject an id that is already registered.
- `createRoom` notifies only its first member; the line that would notify
  the second is commented out.
- `onOffer` and `onAnswer` take no sender and check no room membership.
- `removeRoom` notifies both members of the room.
- The waiting queue holds bare socket ids; no per-user state records whether
  a user is waiting or in a room.

## Model

| member | source | states |
|---|---|---|
| `Decimal.NatToString` | backend/src/managers/Room.manager.js:15 | the counter's rendering in `room-${n}` is a non-empty string of decimal digits with no leading zero |
| `Decimal.DecimalRoundTrip` | backend/src/managers/Room.manager.js:15 | reading the digits of the rendering of `n` back gives `n` |
| `Decimal.NatToStringInjective` | backend/src/managers/Room.manager.js:15 | different counter values render as different numerals |
| `Users.DefaultName` | backend/src/managers/User.manager.js:12 | the default name is `User-` followed by a prefix of the socket id that is six characters long, or the whole id when the id is shorter |
| `Users.NewUser` | backend/src/managers/User.manager.js:9-15 | the new record keeps the socket and the join time, has the socket's id, takes any supplied name (even an empty one) and otherwise the default name |
| `Users.FindUserIndex` | backend/src/managers/User.manager.js:27-29 | the result is -1 exactly when no user has the socket id, and otherwise the position of the first user that has it |
| `Users.IndexOf` | backend/src/managers/User.manager.js:73 | the result is -1 exactly when the id is not queued, and otherwise the position of its first occurrence |
| `Users.RemoveAt` | backend/src/managers/User.manager.js:33 | `splice(i, 1)` shortens the sequence by one, keeps the elements before `i` and shifts the ones after it down by one |
| `Users.RemoveFirst` | backend/src/managers/User.manager.js:72-82 | an absent id leaves the queue unchanged; a present id has exactly its first occurrence spliced out, which removes one copy of it from the queue's multiset |
| `Users.RemoveAtNoDup` | backend/src/managers/User.manager.js:75 | splicing one position out of a duplicate-free queue leaves exactly the other ids and no duplicate |
| `Users.RemoveFirstNoDup` | backend/src/managers/User.manager.js:72-82 | on a duplicate-free queue, removal leaves exactly the other ids and no duplicate |
| `Users.EnqueuedIdempotent` | backend/src/managers/User.manager.js:54-61 | after adding, the id is queued; adding it again changes nothing |
| `Users.EnqueuedNoDup` | backend/src/managers/User.manager.js:54-61 | adding keeps a duplicate-free queue duplicate-free |
| `Users.EnqueueAllNoDup` | backend/src/managers/User.manager.js:54-61 | a queue filled only by `addToWaitingQueue` calls never holds a duplicate |
| `Users.FifoArrivalOrder` | backend/src/managers/User.manager.js:54-61 | ids that are not yet waiting are queued in the order they arrive, behind the existing entries |
| `Users.ConnectedOnly` | backend/src/managers/User.manager.js:90-92 | the filter's result is no longer than its input and holds exactly the users of the input whose socket is connected, each as many times as it occurs in the input; disconnected users do not occur |
| `Users.ConnectedOnlyKeepsOrder` | backend/src/managers/User.manager.js:121-123 | the filtered users appear in their original relative order |
| `Users.ConnectedOnlyAllConnected` | backend/src/managers/User.manager.js:121-123 | a list of connected users passes the filter unchanged |
| `Users.DisconnectedIds` | backend/src/managers/User.manager.js:116-118 | the result lists exactly the ids of disconnected users, and its length is the number of users minus the number the connected filter keeps |
| `Users.IdsOf` | backend/src/managers/User.manager.js:116-118 | `map(user => user.id)` keeps the length and gives each position's user id |
| `Users.DisconnectedIdsComplement` | backend/src/managers/User.manager.js:116-123 | the disconnected users' ids and the connected users' ids together are the ids of all users, each as often as it occurs, so there is one entry per disconnected user |
| `Users.RemoveEachClears` | backend/src/managers/User.manager.js:126-128 | on a duplicate-free queue, removing each listed id in turn leaves exactly the ids not listed, without duplicates |
| `Users.UserManager.constructor` | backend/src/managers/User.manager.js:2-5 | both the user list and the queue start empty |
| `Users.UserManager.AddUser` | backend/src/managers/User.manager.js:8-23 | the new record is appended at the end and earlier entries are kept; a duplicate id is not rejected; the queue is untouched |
| `Users.UserManager.RemoveUser` | backend/src/managers/User.manager.js:26-46 | with a match, only the first matching user is removed, the others keep their order, the id leaves the queue, and the removed user is returned; without a match, nothing changes and `None` is returned |
| `Users.UserManager.GetUser` | backend/src/managers/User.manager.js:49-51 | `None` exactly when no user has the socket id, otherwise the first user that has it |
| `Users.UserManager.AddToWaitingQueue` | backend/src/managers/User.manager.js:54-61 | the queue becomes `Enqueued(old queue, id)`: the id is at the back only if it was absent; the queue stays duplicate-free and the users are untouched |
| `Users.UserManager.GetNextWaitingUser` | backend/src/managers/User.manager.js:64-69 | `None` exactly when the queue is empty, otherwise its head; the queue is not modified |
| `Users.UserManager.RemoveFromWaitingQueue` | backend/src/managers/User.manager.js:72-82 | returns true exactly when the id was queued; that one occurrence is removed and the other ids keep their order; an absent id leaves the queue unchanged |
| `Users.UserManager.IsInWaitingQueue` | backend/src/managers/User.manager.js:85-87 | true exactly when the id is in the queue |
| `Users.UserManager.GetConnectedUsers` | backend/src/managers/User.manager.js:90-92 | exactly the connected users, each as many times as it is registered, in registration order, never more than are registered |
| `Users.UserManager.GetUserStats` | backend/src/managers/User.manager.js:95-109 | `totalUsers` is the number of users and `waitingQueueLength` the queue's length; `connectedUsers` is the length of `getConnectedUsers()`, so it counts every connected record, and it is at most `totalUsers` and, added to the number of disconnected users, equals it; each summary copies its user's fields, and its `inWaitingQueue` is true exactly when that id is queued |
| `Users.UserManager.CleanupDisconnectedUsers` | backend/src/managers/User.manager.js:112-135 | the remaining users are the connected ones, in their original order; the queue is the old queue with each removed id spliced out in turn; no removed user's id is left in the queue |
| `Rooms.RoomId` | backend/src/managers/Room.manager.js:15 | a room id is `room-` followed by the counter's decimal rendering |
| `Rooms.RoomIdInjective` | backend/src/managers/Room.manager.js:15 | different counter values give different room ids |
| `Rooms.NextRoomIdFresh` | backend/src/managers/Room.manager.js:15 | the id built from the incremented counter is none of the ids built before |
| `Rooms.RoomManager.constructor` | backend/src/managers/Room.manager.js:3-7 | no rooms, counter 0, nothing sent |
| `Rooms.RoomManager.CreateRoom` | backend/src/managers/Room.manager.js:9-27 | the counter goes up by exactly 1 and the result is `room-<new counter>`, an id not yet in the table; the room `[user1, user2]` is stored under it and every other room is unchanged; exactly one `successfulConnection {roomId, User: user2.name}` is sent, to `user1`, and `user2` receives nothing |
| `Rooms.RoomManager.RemoveRoom` | backend/src/managers/Room.manager.js:29-40 | for an existing room, `roomCLosed {roomId}` is sent to each member in member order and that room alone is deleted; an absent id sends nothing and changes nothing; afterwards the id is absent, so a second call is a no-op |
| `Rooms.RoomManager.OnOffer` | backend/src/managers/Room.manager.js:43-52 | for an existing room, exactly one `offer {roomId, offer: sdp}` is sent, to `users[1]`, and none reaches `users[0]` when the two ids differ; an unknown room gets nothing; the room table never changes |
| `Rooms.RoomManager.OnAnswer` | backend/src/managers/Room.manager.js:54-68 | nothing is sent, whatever the input, and the room table never changes |
| `Rooms.RoomManager.OnAnswerIntended` | backend/src/managers/Room.manager.js:59-62 | for an existing room, `answer {roomId, answer: sdp}` is sent to `users[0]` and then to `users[1]`; an unknown room gets nothing; the room table never changes |
| `Rooms.AnswerDiscrepancy` | backend/src/managers/Room.manager.js:54-68 | after pairing two users, the as-written answer relay sends nothing past the pairing notice, while the intended one reaches both members |

## Findings

| source | as written | input that shows it | evidently intended | confidence | as-written member | corrected member |
|---|---|---|---|---|---|---|
| backend/src/managers/Room.manager.js:59-62 | `onAnswer` stores `room.users[0]` and `room.users[1]` in locals, then emits through `room.user1?` and `room.user2?`. A room record has only `users`, so both lookups are undefined and nothing is sent | any existing room, for example `room-1` right after the first `createRoom(u1, u2)`, with any `sdp` | emit `answer {roomId, answer: sdp}` to the two members held in the locals | high (not executed) | `Rooms.RoomManager.OnAnswer`, with `Rooms.AnswerDiscrepancy` | `Rooms.RoomManager.OnAnswerIntended` |

## Left out

- backend/src/index.js (the Express, HTTP and socket.io wiring) is not part of this model. It calls `addUser` with its arguments swapped, reads a `queue` field that does not exist and assigns an undeclared `roomId`. None of that is modelled, and neither is its pairing step (shift two ids, then `createRoom`).
- The React front end (ChatRoom.jsx and Landing.jsx) and all WebRTC negotiation are not part of this model. They are browser and library calls.
- `console.log` and `console.error` output is not modelled. It changes no state.
- The transport is not modelled. A socket's `connected` flag is the value stored with the user, so the transport flipping it later is not captured. Each `emit` is only recorded in the outbox, not delivered.
- Concurrency and event interleaving are not modelled. Every method runs as one atomic step, as on the Node event loop.
- The `...userData` spread is reduced to an optional name. Other keys it could copy (an `id` or `socket` that would shadow the real ones, extra fields) are not modelled.
- Null or undefined arguments are not modelled: a missing `user1` in `createRoom`, a missing room member, a missing `socket`. Room members are always user records. So the short-circuit of `user1?.` and `user2?.` is not modelled. Neither are the TypeErrors that `createRoom` (with `user2` missing) and `removeRoom` (with a member missing) would throw part-way through.
- `rooms` is a plain JavaScript object in the source, so a lookup such as `rooms["toString"]` finds an inherited property. The model uses a map holding only the rooms that were stored.
- `roomCounter` is a JavaScript number, which stops counting exactly past 2^53. The model's counter is unbounded.
- The source shares objects by reference: `addUser` returns the stored record, and `getUserStats` returns the live queue array. The model returns values, so later mutation through those references is not captured.
- DefaultName: the six-character prefix is counted in Unicode characters, whereas JavaScript's `substring` counts UTF-16 code units. The two differ only for ids with characters outside the Basic Multilingual Plane; socket.io ids are ASCII, so the difference does not arise in practice.
- Only instance fields and methods are modelled. `new UserManager(io)` and `new RoomManager(io)` pass an argument that both constructors ignore.
