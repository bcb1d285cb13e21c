/**
 The user registry of the signaling backend: the connected users, in the
 order they were added, and a FIFO queue of the socket ids waiting for a
 peer. The sequence functions below are the specification the class's
 methods are proved against; the lemmas state what they guarantee.
 */
module Users {
  import opened Transport

  /** A registered user. The source also stores `id: socket.id`; with the
      `...userData` spread left out that copy always equals the socket's id,
      so `Id()` reads it from the socket. */
  datatype User = User(socket: Socket, name: string, joinedAt: int)
  {
    function Id(): string { socket.id }
  }

  /** One entry of `getUserStats().users`. */
  datatype UserSummary =
    UserSummary(id: string, name: string, connected: bool, joinedAt: int, inWaitingQueue: bool)

  /** The object `getUserStats` returns. */
  datatype UserStats = UserStats(
    totalUsers: nat,
    connectedUsers: nat,
    waitingQueueLength: nat,
    waitingQueue: seq<string>,
    users: seq<UserSummary>)

  function Min(a: int, b: int): int { if a < b then a else b }

  /** The name a user gets when none is supplied: `User-` followed by
      `socket.id.substring(0, 6)`. */
  function DefaultName(socketId: string): (r: string)
    ensures |r| >= 5 && r[..5] == "User-"
    ensures r[5..] <= socketId
    ensures |socketId| >= 6 ==> |r| == 11
    ensures |socketId| < 6 ==> r[5..] == socketId
  {
    "User-" + socketId[..Min(6, |socketId|)]
  }

  /** The record `addUser` builds. `userData.name || default` picks the
      default for an absent or empty name, and the `...userData` spread that
      follows writes a supplied name back, so any supplied name wins. */
  function NewUser(socket: Socket, name: Option<string>, joinedAt: int): (u: User)
    ensures u.socket == socket && u.Id() == socket.id && u.joinedAt == joinedAt
    ensures name.Some? ==> u.name == name.value
    ensures name.None? ==> u.name == DefaultName(socket.id)
  {
    var chosen := if name.Some? && name.value != "" then name.value else DefaultName(socket.id);
    var spread := if name.Some? then name.value else chosen;
    User(socket, spread, joinedAt)
  }

  /** `users.findIndex(user => user.socket.id === socketId)`: the position of
      the first user with that socket id, or -1. */
  function FindUserIndex(users: seq<User>, socketId: string): (i: int)
    ensures -1 <= i < |users|
    ensures i == -1 <==> forall k :: 0 <= k < |users| ==> users[k].socket.id != socketId
    ensures 0 <= i ==> users[i].socket.id == socketId
    ensures 0 <= i ==> forall k :: 0 <= k < i ==> users[k].socket.id != socketId
    decreases |users|
  {
    if |users| == 0 then -1
    else if users[0].socket.id == socketId then 0
    else
      var j := FindUserIndex(users[1..], socketId);
      assert forall k :: 1 <= k < |users| ==> users[k] == users[1..][k - 1];
      if j == -1 then -1 else j + 1
  }

  /** `queue.indexOf(x)`: the position of the first occurrence of `x`, or -1. */
  function IndexOf(q: seq<string>, x: string): (i: int)
    ensures -1 <= i < |q|
    ensures i == -1 <==> x !in q
    ensures 0 <= i ==> q[i] == x && x !in q[..i]
    decreases |q|
  {
    if |q| == 0 then -1
    else if q[0] == x then 0
    else
      var j := IndexOf(q[1..], x);
      assert q == [q[0]] + q[1..];
      assert 0 <= j ==> q[..j + 1] == [q[0]] + q[1..][..j];
      if j == -1 then -1 else j + 1
  }

  /** `array.splice(i, 1)`: the sequence without its element at `i`. */
  function RemoveAt<T>(s: seq<T>, i: nat): (r: seq<T>)
    requires i < |s|
    ensures |r| == |s| - 1
    ensures forall k :: 0 <= k < i ==> r[k] == s[k]
    ensures forall k :: i <= k < |r| ==> r[k] == s[k + 1]
  {
    s[..i] + s[i + 1..]
  }

  /** No id occurs twice in the queue. */
  ghost predicate NoDup(q: seq<string>)
  {
    forall i, j :: 0 <= i < j < |q| ==> q[i] != q[j]
  }

  /** The queue after `removeFromWaitingQueue(x)`: the first occurrence of `x`
      spliced out, if there is one. */
  function RemoveFirst(q: seq<string>, x: string): (r: seq<string>)
    ensures x !in q ==> r == q
    ensures x in q ==> |r| == |q| - 1
    ensures x in q ==> exists i :: 0 <= i < |q| && q[i] == x && x !in q[..i] && r == RemoveAt(q, i)
    ensures multiset(r) == if x in q then multiset(q) - multiset{x} else multiset(q)
  {
    var i := IndexOf(q, x);
    if i == -1 then q
    else
      assert q == q[..i] + [q[i]] + q[i + 1..];
      RemoveAt(q, i)
  }

  /** Splicing position `i` out of a queue without duplicates leaves exactly
      the other ids, still without duplicates. */
  lemma RemoveAtNoDup(q: seq<string>, i: nat)
    requires i < |q| && NoDup(q)
    ensures NoDup(RemoveAt(q, i))
    ensures forall y :: y in RemoveAt(q, i) <==> y in q && y != q[i]
  {
    var r := RemoveAt(q, i);
    forall y | y in r ensures y in q && y != q[i] {
      var k :| 0 <= k < |r| && r[k] == y;
      var k' := if k < i then k else k + 1;
      assert r[k] == q[k'] && k' != i;
    }
    forall y | y in q && y != q[i] ensures y in r {
      var k :| 0 <= k < |q| && q[k] == y;
      if k < i { assert r[k] == y; } else { assert r[k - 1] == y; }
    }
    forall a, b | 0 <= a < b < |r| ensures r[a] != r[b] {
      var a' := if a < i then a else a + 1;
      var b' := if b < i then b else b + 1;
      assert r[a] == q[a'] && r[b] == q[b'] && a' < b';
    }
  }

  /** On a queue without duplicates, removing `x` leaves exactly the other
      ids, still without duplicates. */
  lemma RemoveFirstNoDup(q: seq<string>, x: string)
    requires NoDup(q)
    ensures NoDup(RemoveFirst(q, x))
    ensures forall y :: y in RemoveFirst(q, x) <==> y in q && y != x
  {
    var i := IndexOf(q, x);
    if i != -1 {
      RemoveAtNoDup(q, i);
    }
  }

  /** The queue after `addToWaitingQueue(x)`: `x` at the back, unless it is
      already waiting. */
  function Enqueued(q: seq<string>, x: string): (r: seq<string>)
  {
    if x in q then q else q + [x]
  }

  /** Adding an id twice has the effect of adding it once. */
  lemma EnqueuedIdempotent(q: seq<string>, x: string)
    ensures x in Enqueued(q, x)
    ensures Enqueued(Enqueued(q, x), x) == Enqueued(q, x)
  {
  }

  /** Adding keeps the queue free of duplicates. */
  lemma EnqueuedNoDup(q: seq<string>, x: string)
    requires NoDup(q)
    ensures NoDup(Enqueued(q, x))
  {
  }

  /** The queue after `addToWaitingQueue` for each of `xs` in turn. */
  function EnqueueAll(q: seq<string>, xs: seq<string>): seq<string>
    decreases |xs|
  {
    if xs == [] then q else EnqueueAll(Enqueued(q, xs[0]), xs[1..])
  }

  /** A queue filled only through `addToWaitingQueue` never holds a duplicate. */
  lemma {:induction false} EnqueueAllNoDup(q: seq<string>, xs: seq<string>)
    requires NoDup(q)
    ensures NoDup(EnqueueAll(q, xs))
    decreases |xs|
  {
    if xs != [] {
      EnqueuedNoDup(q, xs[0]);
      EnqueueAllNoDup(Enqueued(q, xs[0]), xs[1..]);
    }
  }

  /** FIFO: ids that are not yet waiting queue up in the order they arrive. */
  lemma {:induction false} FifoArrivalOrder(q: seq<string>, xs: seq<string>)
    requires NoDup(q + xs)
    ensures EnqueueAll(q, xs) == q + xs
    decreases |xs|
  {
    if xs == [] {
      assert q + xs == q;
    } else {
      assert xs[0] == (q + xs)[|q|];
      assert xs[0] !in q by {
        forall k | 0 <= k < |q| ensures q[k] != xs[0] {
          assert q[k] == (q + xs)[k];
        }
      }
      assert (q + [xs[0]]) + xs[1..] == q + xs;
      FifoArrivalOrder(q + [xs[0]], xs[1..]);
    }
  }

  /** `users.filter(user => user.socket && user.socket.connected)`. */
  function ConnectedOnly(us: seq<User>): (r: seq<User>)
    ensures |r| <= |us|
    ensures forall u :: u in r ==> u.socket.connected
    ensures forall u :: u in r <==> u in us && u.socket.connected
    ensures forall u :: multiset(r)[u] == if u.socket.connected then multiset(us)[u] else 0
    decreases |us|
  {
    if us == [] then []
    else
      assert us == [us[0]] + us[1..];
      assert multiset(us) == multiset{us[0]} + multiset(us[1..]);
      (if us[0].socket.connected then [us[0]] else []) + ConnectedOnly(us[1..])
  }

  /** `r` keeps some of the elements of `s`, in their order in `s`. */
  ghost predicate IsSubsequence(r: seq<User>, s: seq<User>)
    decreases |s|
  {
    r == [] || (s != [] && ((r[0] == s[0] && IsSubsequence(r[1..], s[1..])) || IsSubsequence(r, s[1..])))
  }

  /** Filtering keeps the connected users in their original relative order. */
  lemma {:induction false} ConnectedOnlyKeepsOrder(us: seq<User>)
    ensures IsSubsequence(ConnectedOnly(us), us)
    decreases |us|
  {
    if us != [] {
      ConnectedOnlyKeepsOrder(us[1..]);
      var r := ConnectedOnly(us);
      if us[0].socket.connected {
        assert r[0] == us[0] && r[1..] == ConnectedOnly(us[1..]);
      } else {
        assert r == ConnectedOnly(us[1..]);
      }
    }
  }

  /** A list in which everybody is connected passes the filter unchanged. */
  lemma {:induction false} ConnectedOnlyAllConnected(us: seq<User>)
    requires forall k :: 0 <= k < |us| ==> us[k].socket.connected
    ensures ConnectedOnly(us) == us
    decreases |us|
  {
    if us != [] {
      ConnectedOnlyAllConnected(us[1..]);
      assert us == [us[0]] + us[1..];
    }
  }

  /** The ids of `users.filter(user => !user.socket || !user.socket.connected)`. */
  function DisconnectedIds(us: seq<User>): (ids: seq<string>)
    ensures |ids| + |ConnectedOnly(us)| == |us|
    ensures forall x :: x in ids <==> exists u :: u in us && !u.socket.connected && u.Id() == x
    decreases |us|
  {
    if us == [] then []
    else
      assert us == [us[0]] + us[1..];
      (if us[0].socket.connected then [] else [us[0].Id()]) + DisconnectedIds(us[1..])
  }

  /** The ids of the users, position by position (`users.map(user => user.id)`). */
  function IdsOf(us: seq<User>): (ids: seq<string>)
    ensures |ids| == |us|
    ensures forall k :: 0 <= k < |us| ==> ids[k] == us[k].Id()
    decreases |us|
  {
    if us == [] then [] else [us[0].Id()] + IdsOf(us[1..])
  }

  /** The disconnected users' ids and the connected users' ids together are
      the ids of all users, each as often as it occurs. */
  lemma {:induction false} DisconnectedIdsComplement(us: seq<User>)
    ensures multiset(DisconnectedIds(us)) + multiset(IdsOf(ConnectedOnly(us))) == multiset(IdsOf(us))
    decreases |us|
  {
    if us != [] {
      var rest := us[1..];
      DisconnectedIdsComplement(rest);
      var d, c := DisconnectedIds(rest), IdsOf(ConnectedOnly(rest));
      assert multiset(d) + multiset(c) == multiset(IdsOf(rest));
      assert IdsOf(us) == [us[0].Id()] + IdsOf(rest);
      if us[0].socket.connected {
        var r := ConnectedOnly(us);
        assert r == [us[0]] + ConnectedOnly(rest);
        assert r[0] == us[0] && r[1..] == ConnectedOnly(rest);
        assert IdsOf(r) == [us[0].Id()] + c;
        assert DisconnectedIds(us) == d;
      } else {
        assert ConnectedOnly(us) == ConnectedOnly(rest);
        assert DisconnectedIds(us) == [us[0].Id()] + d;
      }
    }
  }

  /** The queue after `removeFromWaitingQueue` for each of `ids` in turn. */
  function RemoveEach(q: seq<string>, ids: seq<string>): seq<string>
    decreases |ids|
  {
    if ids == [] then q else RemoveEach(RemoveFirst(q, ids[0]), ids[1..])
  }

  /** On a queue without duplicates, removing each of `ids` leaves exactly
      the ids not among them. */
  lemma {:induction false} RemoveEachClears(q: seq<string>, ids: seq<string>)
    requires NoDup(q)
    ensures NoDup(RemoveEach(q, ids))
    ensures forall y :: y in RemoveEach(q, ids) <==> y in q && y !in ids
    decreases |ids|
  {
    if ids != [] {
      var q' := RemoveFirst(q, ids[0]);
      RemoveFirstNoDup(q, ids[0]);
      RemoveEachClears(q', ids[1..]);
      assert RemoveEach(q, ids) == RemoveEach(q', ids[1..]);
      forall y ensures y in RemoveEach(q, ids) <==> y in q && y !in ids {
        assert y in ids <==> y == ids[0] || y in ids[1..];
        assert y in q' <==> y in q && y != ids[0];
      }
    }
  }

  class UserManager {
    var users: seq<User>
    var waitingQueue: seq<string>

    /** The invariant every operation keeps: no socket id waits twice. */
    ghost predicate Valid()
      reads this
    {
      NoDup(waitingQueue)
    }

    constructor()
      ensures Valid()
      ensures users == [] && waitingQueue == []
    {
      users := [];
      waitingQueue := [];
    }

    /** Appends a new user; an id that is already registered is not rejected. */
    method AddUser(socket: Socket, name: Option<string>, now: int) returns (user: User)
      requires Valid()
      modifies this
      ensures Valid()
      ensures user == NewUser(socket, name, now)
      ensures users == old(users) + [user]
      ensures waitingQueue == old(waitingQueue)
    {
      user := NewUser(socket, name, now);
      users := users + [user];
    }

    /** Removes the first user with this socket id, and its queue entry, and
        returns it; returns `None` and changes nothing when there is none. */
    method RemoveUser(socketId: string) returns (removed: Option<User>)
      requires Valid()
      modifies this
      ensures Valid()
      ensures var i := FindUserIndex(old(users), socketId);
        if i == -1 then
          removed == None && users == old(users) && waitingQueue == old(waitingQueue)
        else
          && removed == Some(old(users)[i])
          && users == RemoveAt(old(users), i)
          && waitingQueue == RemoveFirst(old(waitingQueue), socketId)
      ensures removed.Some? ==> removed.value.socket.id == socketId && socketId !in waitingQueue
    {
      var userIndex := FindUserIndex(users, socketId);
      if userIndex != -1 {
        var user := users[userIndex];
        users := RemoveAt(users, userIndex);
        var _ := RemoveFromWaitingQueue(socketId);
        return Some(user);
      }
      return None;
    }

    /** `users.find(...)`: the first user with this socket id, if any. */
    function GetUser(socketId: string): (r: Option<User>)
      reads this
      ensures r.None? <==> forall u :: u in users ==> u.socket.id != socketId
      ensures r.Some? ==> r.value.socket.id == socketId
      ensures r.Some? ==> exists i :: 0 <= i < |users| && users[i] == r.value
                            && forall k :: 0 <= k < i ==> users[k].socket.id != socketId
    {
      var i := FindUserIndex(users, socketId);
      if i == -1 then None else Some(users[i])
    }

    /** Appends the id at the back of the queue unless it is already waiting. */
    method AddToWaitingQueue(socketId: string)
      requires Valid()
      modifies this
      ensures Valid()
      ensures waitingQueue == Enqueued(old(waitingQueue), socketId)
      ensures socketId in waitingQueue
      ensures users == old(users)
    {
      EnqueuedNoDup(waitingQueue, socketId);
      if socketId !in waitingQueue {
        waitingQueue := waitingQueue + [socketId];
      }
    }

    /** The oldest waiting id, left in the queue, or `None` for an empty queue. */
    function GetNextWaitingUser(): (r: Option<string>)
      reads this
      ensures r.None? <==> waitingQueue == []
      ensures r.Some? ==> r.value == waitingQueue[0] && r.value in waitingQueue
    {
      if |waitingQueue| > 0 then Some(waitingQueue[0]) else None
    }

    /** Splices the first occurrence of the id out of the queue and reports
        whether there was one. */
    method RemoveFromWaitingQueue(socketId: string) returns (removed: bool)
      requires Valid()
      modifies this
      ensures Valid()
      ensures removed <==> socketId in old(waitingQueue)
      ensures waitingQueue == RemoveFirst(old(waitingQueue), socketId)
      ensures forall y :: y in waitingQueue <==> y in old(waitingQueue) && y != socketId
      ensures users == old(users)
    {
      RemoveFirstNoDup(waitingQueue, socketId);
      var index := IndexOf(waitingQueue, socketId);
      if index != -1 {
        waitingQueue := RemoveAt(waitingQueue, index);
        return true;
      }
      return false;
    }

    /** `waitingQueue.includes(socketId)`. */
    function IsInWaitingQueue(socketId: string): (r: bool)
      reads this
      ensures r <==> socketId in waitingQueue
    {
      IndexOf(waitingQueue, socketId) != -1
    }

    /** The connected users, in registration order. */
    function GetConnectedUsers(): (r: seq<User>)
      reads this
      ensures |r| <= |users|
      ensures forall u :: u in r <==> u in users && u.socket.connected
      ensures forall u :: multiset(r)[u] == if u.socket.connected then multiset(users)[u] else 0
      ensures IsSubsequence(r, users)
    {
      ConnectedOnlyKeepsOrder(users);
      ConnectedOnly(users)
    }

    /** Counts and a per-user summary of the registry. */
    function GetUserStats(): (r: UserStats)
      reads this
      ensures r.totalUsers == |users|
      ensures r.connectedUsers == |GetConnectedUsers()| && r.connectedUsers <= r.totalUsers
      ensures r.connectedUsers + |DisconnectedIds(users)| == r.totalUsers
      ensures r.waitingQueueLength == |waitingQueue| && r.waitingQueue == waitingQueue
      ensures |r.users| == |users|
      ensures forall i :: 0 <= i < |users| ==>
                && r.users[i].id == users[i].Id()
                && r.users[i].name == users[i].name
                && r.users[i].connected == users[i].socket.connected
                && r.users[i].joinedAt == users[i].joinedAt
                && (r.users[i].inWaitingQueue <==> users[i].Id() in waitingQueue)
    {
      var us, q := users, waitingQueue;
      UserStats(
        |us|,
        |ConnectedOnly(us)|,
        |q|,
        q,
        seq(|us|, i requires 0 <= i < |us| =>
          UserSummary(us[i].Id(), us[i].name, us[i].socket.connected, us[i].joinedAt,
                      IndexOf(q, us[i].Id()) != -1)))
    }

    /** Drops every disconnected user, keeping the others in order, then
        removes each dropped user's id from the queue. */
    method CleanupDisconnectedUsers()
      requires Valid()
      modifies this
      ensures Valid()
      ensures users == ConnectedOnly(old(users))
      ensures waitingQueue == RemoveEach(old(waitingQueue), DisconnectedIds(old(users)))
      ensures forall u :: u in users ==> u.socket.connected
      ensures forall u :: u in old(users) && !u.socket.connected ==> u.Id() !in waitingQueue
    {
      var disconnectedUserIds := DisconnectedIds(users);
      users := ConnectedOnly(users);
      var i := 0;
      while i < |disconnectedUserIds|
        invariant 0 <= i <= |disconnectedUserIds|
        invariant Valid()
        invariant users == ConnectedOnly(old(users))
        invariant RemoveEach(waitingQueue, disconnectedUserIds[i..])
                  == RemoveEach(old(waitingQueue), disconnectedUserIds)
      {
        assert disconnectedUserIds[i..][1..] == disconnectedUserIds[i + 1..];
        var _ := RemoveFromWaitingQueue(disconnectedUserIds[i]);
        i := i + 1;
      }
      assert disconnectedUserIds[i..] == [];
      RemoveEachClears(old(waitingQueue), disconnectedUserIds);
      forall u | u in old(users) && !u.socket.connected ensures u.Id() !in waitingQueue {
        assert u.Id() in disconnectedUserIds;
      }
    }
  }
}
