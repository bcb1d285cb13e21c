/**
 The room table of the signaling backend: two-person rooms keyed by
 `room-<n>`, where `n` comes from a counter that only grows, and the relay
 of offer messages to a room's second member. Every `socket.emit` the
 manager performs is recorded, in order, in `outbox`.
 */
module Rooms {
  import opened Transport
  import opened Users
  import Decimal

  /** A room record, `{ users: [user1, user2] }`. */
  datatype Room = Room(users: seq<User>)

  /** The id `createRoom` builds from counter value `n`. */
  function RoomId(n: nat): (id: string)
    ensures |id| > 5 && id[..5] == "room-"
    ensures id[5..] == Decimal.NatToString(n)
  {
    "room-" + Decimal.NatToString(n)
  }

  /** Different counter values give different room ids. */
  lemma RoomIdInjective(a: nat, b: nat)
    ensures RoomId(a) == RoomId(b) ==> a == b
  {
    Decimal.NatToStringInjective(a, b);
  }

  /** `id` is one of the ids `createRoom` has handed out by the time the
      counter reached `counter`. */
  ghost predicate Issued(id: string, counter: nat)
  {
    exists k :: 1 <= k <= counter && id == RoomId(k)
  }

  /** The id the next `createRoom` builds was never handed out before. */
  lemma NextRoomIdFresh(counter: nat)
    ensures !Issued(RoomId(counter + 1), counter)
  {
    forall k | 1 <= k <= counter ensures RoomId(k) != RoomId(counter + 1) {
      RoomIdInjective(k, counter + 1);
    }
  }

  class RoomManager {
    var rooms: map<string, Room>
    var roomCounter: nat
    var outbox: seq<Emit>

    /** Every stored room was created by `createRoom`: its key was handed out
        by the counter and it holds its two members. */
    ghost predicate Valid()
      reads this
    {
      forall id :: id in rooms ==> Issued(id, roomCounter) && |rooms[id].users| == 2
    }

    constructor()
      ensures Valid()
      ensures rooms == map[] && roomCounter == 0 && outbox == []
    {
      rooms := map[];
      roomCounter := 0;
      outbox := [];
    }

    /** Stores `[user1, user2]` under a fresh id and tells `user1` (only) who
        its peer is. */
    method CreateRoom(user1: User, user2: User) returns (roomId: string)
      requires Valid()
      modifies this
      ensures Valid()
      ensures roomCounter == old(roomCounter) + 1
      ensures roomId == RoomId(roomCounter)
      ensures roomId !in old(rooms)
      ensures rooms == old(rooms)[roomId := Room([user1, user2])]
      ensures outbox == old(outbox) + [Emit(user1.socket.id, "successfulConnection",
                                            ConnectionInfo(roomId, user2.name))]
    {
      NextRoomIdFresh(roomCounter);
      roomCounter := roomCounter + 1;
      roomId := RoomId(roomCounter);
      rooms := rooms[roomId := Room([user1, user2])];
      outbox := outbox + [Emit(user1.socket.id, "successfulConnection",
                               ConnectionInfo(roomId, user2.name))];
      // The notification of user2 is commented out in the source.
      forall id | id in rooms ensures Issued(id, roomCounter) {
        if id != roomId {
          var k :| 1 <= k <= old(roomCounter) && id == RoomId(k);
          assert 1 <= k <= roomCounter;
        }
      }
    }

    /** Tells each member, in member order, that the room closed, then deletes
        it; an unknown id changes nothing, so removing twice is removing once. */
    method RemoveRoom(roomId: string)
      requires Valid()
      modifies this
      ensures Valid()
      ensures roomCounter == old(roomCounter)
      ensures roomId !in rooms
      ensures roomId !in old(rooms) ==> rooms == old(rooms) && outbox == old(outbox)
      ensures roomId in old(rooms) ==>
                var members := old(rooms)[roomId].users;
                && rooms == old(rooms) - {roomId}
                && |outbox| == |old(outbox)| + |members|
                && outbox[..|old(outbox)|] == old(outbox)
                && forall j :: 0 <= j < |members| ==>
                     outbox[|old(outbox)| + j] == Emit(members[j].socket.id, "roomCLosed", RoomInfo(roomId))
    {
      if roomId in rooms {
        var users := rooms[roomId].users;
        var i := 0;
        while i < |users|
          invariant 0 <= i <= |users|
          invariant rooms == old(rooms) && roomCounter == old(roomCounter)
          invariant |outbox| == |old(outbox)| + i
          invariant outbox[..|old(outbox)|] == old(outbox)
          invariant forall j :: 0 <= j < i ==>
                      outbox[|old(outbox)| + j] == Emit(users[j].socket.id, "roomCLosed", RoomInfo(roomId))
        {
          outbox := outbox + [Emit(users[i].socket.id, "roomCLosed", RoomInfo(roomId))];
          i := i + 1;
        }
        rooms := rooms - {roomId};
      }
    }

    /** Forwards an offer to the room's second member only; an unknown room
        gets nothing. The room table is never changed. */
    method OnOffer(roomId: string, sdp: string)
      requires Valid()
      modifies this`outbox
      ensures Valid()
      ensures rooms == old(rooms)
      ensures roomId !in rooms ==> outbox == old(outbox)
      ensures roomId in rooms ==>
                outbox == old(outbox) + [Emit(rooms[roomId].users[1].socket.id, "offer", OfferInfo(roomId, sdp))]
      ensures roomId in rooms && rooms[roomId].users[0].socket.id != rooms[roomId].users[1].socket.id ==>
                forall e :: e in outbox[|old(outbox)|..] ==> e.to != rooms[roomId].users[0].socket.id
    {
      if roomId in rooms {
        var room := rooms[roomId];
        var user2 := room.users[1];
        outbox := outbox + [Emit(user2.socket.id, "offer", OfferInfo(roomId, sdp))];
        assert outbox[|old(outbox)|..] == [Emit(user2.socket.id, "offer", OfferInfo(roomId, sdp))];
      }
    }

    /** Meant to forward an answer, but it addresses `room.user1` and
        `room.user2`, properties a room record does not have; both lookups are
        undefined, the optional-chained emits are skipped, and nothing is sent
        whatever the input. */
    method OnAnswer(roomId: string, sdp: string)
      requires Valid()
      modifies this`outbox
      ensures Valid()
      ensures rooms == old(rooms)
      ensures outbox == old(outbox)
    {
      if roomId in rooms {
        var room := rooms[roomId];
        // `room.users[0]` and `room.users[1]` are read into locals the source
        // never uses; the emits go through `room.user1?` and `room.user2?`,
        // which a `Room` does not have, so there is no recipient.
        var user1, user2 := room.users[0], room.users[1];
      }
      // An unknown room is only logged.
    }

    /** `onAnswer` as its locals show it was meant to be written: the answer
        goes to `users[0]` and then to `users[1]`. */
    method OnAnswerIntended(roomId: string, sdp: string)
      requires Valid()
      modifies this`outbox
      ensures Valid()
      ensures rooms == old(rooms)
      ensures roomId !in rooms ==> outbox == old(outbox)
      ensures roomId in rooms ==>
                var members := rooms[roomId].users;
                outbox == old(outbox) + [Emit(members[0].socket.id, "answer", AnswerInfo(roomId, sdp)),
                                         Emit(members[1].socket.id, "answer", AnswerInfo(roomId, sdp))]
    {
      if roomId in rooms {
        var room := rooms[roomId];
        var user1, user2 := room.users[0], room.users[1];
        outbox := outbox + [Emit(user1.socket.id, "answer", AnswerInfo(roomId, sdp))];
        outbox := outbox + [Emit(user2.socket.id, "answer", AnswerInfo(roomId, sdp))];
      }
    }
  }

  /** A freshly paired room, then an answer relayed through `OnAnswer` and
      through `OnAnswerIntended`: the first sends nothing beyond the pairing
      notice, the second reaches both members. */
  method AnswerDiscrepancy(user1: User, user2: User, sdp: string)
    returns (asWritten: seq<Emit>, intended: seq<Emit>)
    ensures asWritten == [Emit(user1.socket.id, "successfulConnection", ConnectionInfo(RoomId(1), user2.name))]
    ensures intended == asWritten + [Emit(user1.socket.id, "answer", AnswerInfo(RoomId(1), sdp)),
                                     Emit(user2.socket.id, "answer", AnswerInfo(RoomId(1), sdp))]
  {
    var written := new RoomManager();
    var id := written.CreateRoom(user1, user2);
    written.OnAnswer(id, sdp);
    asWritten := written.outbox;

    var fixed := new RoomManager();
    id := fixed.CreateRoom(user1, user2);
    fixed.OnAnswerIntended(id, sdp);
    intended := fixed.outbox;
  }
}
