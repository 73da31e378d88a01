/**
 * The real-time core of the chat controller: the call-signalling table
 * (`rooms`), the per-conversation typing sets (`typingUsers`), presence,
 * the read/unread bookkeeping and the send-message pipeline, as one hub
 * object whose methods are the socket event handlers. A connection's own
 * state (its joined rooms and its active conversation) is a separate object.
 */
module Chat {
  import opened Common
  import opened Events
  import opened Store
  import opened Messages

  datatype CallStatus = Ringing | Ongoing

  datatype Room = Room(
    roomId: string,
    callerId: UserId,
    calleeId: UserId,
    callType: string,
    status: CallStatus,
    participants: seq<UserId>)

  /** The call room id: the two user ids in string-sort order, joined with '-'. */
  function RoomIdOf(a: UserId, b: UserId): (r: string)
    ensures LexLeq(a, b) ==> r == a + "-" + b
    ensures !LexLeq(a, b) ==> r == b + "-" + a && LexLeq(b, a)
  {
    LexLeqTotal(a, b);
    if LexLeq(a, b) then a + "-" + b else b + "-" + a
  }

  /** Either party initiating yields the same room. */
  lemma RoomIdSymmetric(a: UserId, b: UserId)
    ensures RoomIdOf(a, b) == RoomIdOf(b, a)
  {
    if LexLeq(a, b) && LexLeq(b, a) {
      LexLeqAntisymmetric(a, b);
    }
  }

  lemma SplitAtFirstDash(x: string, y: string, u: string, v: string)
    requires '-' !in x && '-' !in u
    requires x + "-" + y == u + "-" + v
    ensures x == u && y == v
  {
    var s := x + "-" + y;
    assert s[|x|] == '-' && forall i :: 0 <= i < |x| ==> s[i] == x[i];
    assert s[|u|] == '-' && forall i :: 0 <= i < |u| ==> s[i] == u[i];
    assert |x| == |u|;
    assert x == s[..|x|] == u;
    assert y == s[|x| + 1..] == v;
  }

  /** For ids without '-' (ObjectId strings), the room id determines the unordered pair. */
  lemma RoomIdDeterminesPair(a: UserId, b: UserId, c: UserId, d: UserId)
    requires '-' !in a && '-' !in b && '-' !in c && '-' !in d
    requires RoomIdOf(a, b) == RoomIdOf(c, d)
    ensures {a, b} == {c, d}
  {
    var (x, y) := if LexLeq(a, b) then (a, b) else (b, a);
    var (u, v) := if LexLeq(c, d) then (c, d) else (d, c);
    SplitAtFirstDash(x, y, u, v);
  }

  /** A live room as the handlers leave it: ringing rooms hold only the caller, accepted rooms the caller then the callee (once per accept). */
  ghost predicate RoomWellFormed(id: string, room: Room) {
    && room.roomId == id
    && |room.participants| >= 1
    && room.participants[0] == room.callerId
    && (room.status == Ringing ==> room.participants == [room.callerId])
    && (room.status == Ongoing ==>
          |room.participants| >= 2 && forall i :: 1 <= i < |room.participants| ==> room.participants[i] == room.calleeId)
  }

  /** The target of a relayed WebRTC signal: the first participant that is not the sender, if it is truthy and the call is ongoing. */
  function SignalTarget(room: Room, senderId: UserId): (r: Option<UserId>)
    ensures r.Some? ==> room.status == Ongoing && r.value != senderId && r.value != "" && r.value in room.participants
    ensures r.Some? ==> exists i :: 0 <= i < |room.participants| && room.participants[i] == r.value
                           && forall j :: 0 <= j < i ==> room.participants[j] == senderId
    ensures r.None? <==> room.status != Ongoing || FirstOther(room.participants, senderId) in {None, Some("")}
  {
    match FirstOther(room.participants, senderId)
    case None => None
    case Some(t) => if t != "" && room.status == Ongoing then Some(t) else None
  }

  /** In a ringing room the only participant is the caller, so no signal is forwarded whoever sends it. */
  lemma RingingRelaysNothing(id: string, room: Room, senderId: UserId)
    requires RoomWellFormed(id, room) && room.status == Ringing
    ensures SignalTarget(room, senderId).None?
  {
  }

  /** In an accepted call the caller's signals go to the callee and the callee's to the caller. */
  lemma OngoingRelaysToCounterpart(id: string, room: Room)
    requires RoomWellFormed(id, room) && room.status == Ongoing
    requires room.callerId != room.calleeId && room.callerId != "" && room.calleeId != ""
    ensures SignalTarget(room, room.callerId) == Some(room.calleeId)
    ensures SignalTarget(room, room.calleeId) == Some(room.callerId)
  {
    var p := room.participants;
    var t := FirstOther(p, room.callerId);
    assert p[1] != room.callerId;
    assert t.Some?;
    var i :| 0 <= i < |p| && p[i] == t.value && forall j :: 0 <= j < i ==> p[j] == room.callerId;
    assert i != 0;
    assert t.value == room.calleeId;
  }

  function CallEndedNotices(participants: seq<UserId>, reason: string, roomId: string): seq<Emit> {
    seq(|participants|, i requires 0 <= i < |participants| => Emit(ToUser(participants[i]), CallEnded(reason, roomId)))
  }

  /** The call-ended emits of a sweep that ends the rooms of `order`, one room after the other. */
  function SweepNotices(rooms: map<string, Room>, order: seq<string>, reason: string): seq<Emit>
    requires forall r :: r in order ==> r in rooms
  {
    if order == [] then []
    else CallEndedNotices(rooms[order[0]].participants, reason, order[0]) + SweepNotices(rooms, order[1..], reason)
  }

  lemma {:induction false} SweepNoticesSnoc(rooms: map<string, Room>, order: seq<string>, r: string, reason: string)
    requires forall x :: x in order ==> x in rooms
    requires r in rooms
    ensures SweepNotices(rooms, order + [r], reason)
            == SweepNotices(rooms, order, reason) + CallEndedNotices(rooms[r].participants, reason, r)
  {
    if order == [] {
      assert [r][1..] == [];
    } else {
      assert (order + [r])[1..] == order[1..] + [r];
      SweepNoticesSnoc(rooms, order[1..], r, reason);
    }
  }

  function StopTypingNotices(order: seq<ConversationId>): seq<Emit> {
    seq(|order|, i requires 0 <= i < |order| => Emit(ToRoom(order[i]), UserStopTyping))
  }

  /**
   * Socket handshake: the identity a connection is bound to, or None when it is
   * refused. A missing token or a failed verification refuses it; a payload
   * without a userId yields a freshly generated ObjectId (`freshId`), since that
   * is what the ObjectId constructor returns for an absent argument.
   */
  function HandshakeIdentity(token: Option<string>, verify: string -> JwtOutcome, freshId: UserId): (r: Option<UserId>)
    ensures !Truthy(token) ==> r.None?
    ensures Truthy(token) && verify(token.value).JwtFailure? ==> r.None?
    ensures r.Some? ==> Truthy(token) && verify(token.value).Decoded?
    ensures r.Some? && verify(token.value).userId.Some? ==>
              && IsObjectId(verify(token.value).userId.value)
              && r.value == Canonical(verify(token.value).userId.value) && IsObjectId(r.value)
    ensures r.Some? && verify(token.value).userId.None? ==> r.value == freshId
    ensures Truthy(token) && verify(token.value).Decoded? ==>
              (r.None? <==> verify(token.value).userId.Some? && !IsObjectId(verify(token.value).userId.value))
  {
    if !Truthy(token) then None
    else match verify(token.value)
      case JwtFailure(_) => None
      case Decoded(None) => Some(freshId)
      case Decoded(Some(u)) => if IsObjectId(u) then Some(Canonical(u)) else None
  }

  /** The state of one socket connection: the rooms it has joined and the conversation it is focused on. */
  class Connection {
    const userId: UserId
    var activeConversation: Option<ConversationId>
    var joined: set<string>

    /** The active conversation, when truthy, is one of the joined rooms. */
    ghost predicate Valid()
      reads this
    {
      Truthy(activeConversation) ==> activeConversation.value in joined
    }

    /** On connection the socket joins its user's personal room. */
    constructor (userId: UserId)
      ensures Valid()
      ensures this.userId == userId && activeConversation == None && joined == {userId}
    {
      this.userId := userId;
      activeConversation := None;
      joined := {userId};
    }

    /** join_conversation: leave the previous active conversation (when truthy), then join and focus the new one. */
    method JoinConversation(conversationId: ConversationId)
      requires Valid()
      modifies this
      ensures Valid()
      ensures activeConversation == Some(conversationId)
      ensures joined == (if Truthy(old(activeConversation)) then old(joined) - {old(activeConversation).value} else old(joined)) + {conversationId}
    {
      if Truthy(activeConversation) {
        joined := joined - {activeConversation.value};
      }
      activeConversation := Some(conversationId);
      joined := joined + {conversationId};
    }

    /** join-call-room: join an arbitrary room. */
    method JoinRoom(room: string)
      requires Valid()
      modifies this
      ensures Valid()
      ensures activeConversation == old(activeConversation) && joined == old(joined) + {room}
    {
      joined := joined + {room};
    }

    /**
     * join: join the room named by the id cast to an ObjectId and back. A
     * missing id casts to a freshly generated one (`freshId`); an id that does
     * not cast makes the handler throw before it joins anything.
     */
    method JoinPersonalRoom(userId: Option<string>, freshId: UserId) returns (joinedRoom: Option<string>)
      requires Valid() && IsObjectId(freshId)
      modifies this
      ensures Valid() && activeConversation == old(activeConversation)
      ensures userId.None? ==> joinedRoom == Some(Canonical(freshId))
      ensures userId.Some? && IsObjectId(userId.value) ==> joinedRoom == Some(Canonical(userId.value))
      ensures userId.Some? && !IsObjectId(userId.value) ==> joinedRoom.None?
      ensures joinedRoom.Some? ==> IsObjectId(joinedRoom.value) && joined == old(joined) + {joinedRoom.value}
      ensures joinedRoom.None? ==> joined == old(joined)
    {
      if userId.Some? && !IsObjectId(userId.value) {
        return None;
      }
      var id := if userId.None? then freshId else userId.value;
      joinedRoom := Some(Canonical(id));
      joined := joined + {Canonical(id)};
    }
  }

  ghost function Elements<T>(s: seq<T>): set<T> {
    set x | x in s
  }

  /** Appending a pending member of `all` to a duplicate-free record of the visited members keeps it duplicate-free. */
  lemma OrderGrows<T>(order: seq<T>, x: T, all: set<T>, pending: set<T>)
    requires Distinct(order) && Elements(order) == all - pending
    requires x in pending && x in all
    ensures Distinct(order + [x]) && Elements(order + [x]) == all - (pending - {x})
  {
    assert x !in order;
    assert Elements(order + [x]) == Elements(order) + {x};
  }

  /** One more room ended by a sweep: its notices extend the sweep's. */
  lemma SweepStep(out0: seq<Emit>, out1: seq<Emit>, out2: seq<Emit>, rooms: map<string, Room>, order: seq<string>, r: string, reason: string)
    requires forall x :: x in order ==> x in rooms
    requires r in rooms
    requires out1 == out0 + SweepNotices(rooms, order, reason)
    requires out2 == out1 + CallEndedNotices(rooms[r].participants, reason, r)
    ensures out2 == out0 + SweepNotices(rooms, order + [r], reason)
  {
    SweepNoticesSnoc(rooms, order, r, reason);
  }

  /** One more room removed by a sweep. */
  lemma RemovedStep<K, V>(m0: map<K, V>, m1: map<K, V>, m2: map<K, V>, removed: set<K>, k: K)
    requires m1 == m0 - removed && m2 == m1 - {k}
    ensures m2 == m0 - (removed + {k})
  {
  }

  class ChatHub {
    var rooms: map<string, Room>
    var typingUsers: map<ConversationId, set<UserId>>
    var outbox: seq<Emit>
    const db: Database

    ghost predicate Valid()
      reads this, db
    {
      db.Valid() && forall id :: id in rooms ==> RoomWellFormed(id, rooms[id])
    }

    constructor (db: Database)
      requires db.Valid()
      ensures Valid()
      ensures this.db == db && rooms == map[] && typingUsers == map[] && outbox == []
    {
      this.db := db;
      rooms, typingUsers, outbox := map[], map[], [];
    }

    /** Connection established: the user document, if any, is marked online and records the socket's id. */
    method Connect(userId: UserId, socketId: string)
      requires Valid()
      modifies db
      ensures Valid()
      ensures db.users == if userId in old(db.users)
                          then old(db.users)[userId := old(db.users)[userId].(online := true,
                                                                               fields := old(db.users)[userId].fields["socketId" := socketId])]
                          else old(db.users)
      ensures db.posts == old(db.posts) && db.comments == old(db.comments) && db.messages == old(db.messages)
      ensures db.conversations == old(db.conversations) && db.notifications == old(db.notifications)
    {
      if userId in db.users {
        var user := db.users[userId];
        db.users := db.users[userId := user.(online := true, fields := user.fields["socketId" := socketId])];
      }
    }

    /** initiate-call: (re)create the pair's room in the ringing state and notify both sides. */
    method InitiateCall(callerId: UserId, calleeId: UserId, callType: string) returns (roomId: string)
      requires Valid()
      modifies this
      ensures Valid()
      ensures roomId == RoomIdOf(callerId, calleeId)
      ensures rooms == old(rooms)[roomId := Room(roomId, callerId, calleeId, callType, Ringing, [callerId])]
      ensures typingUsers == old(typingUsers)
      ensures outbox == old(outbox) + [Emit(ToSender, CallInitiated(roomId, callType)),
                                       Emit(ToUser(calleeId), IncomingCall(roomId, callerId, callType))]
    {
      roomId := RoomIdOf(callerId, calleeId);
      rooms := rooms[roomId := Room(roomId, callerId, calleeId, callType, Ringing, [callerId])];
      outbox := outbox + [Emit(ToSender, CallInitiated(roomId, callType)),
                          Emit(ToUser(calleeId), IncomingCall(roomId, callerId, callType))];
    }

    /** accept-call: a missing room is ignored; otherwise the call becomes ongoing and the callee is appended. */
    method AcceptCall(roomId: string)
      requires Valid()
      modifies this
      ensures Valid()
      ensures roomId !in old(rooms) ==> rooms == old(rooms) && outbox == old(outbox)
      ensures roomId in old(rooms) ==>
        var room := old(rooms)[roomId];
        && rooms == old(rooms)[roomId := room.(status := Ongoing, participants := room.participants + [room.calleeId])]
        && outbox == old(outbox) + [Emit(ToUser(room.callerId), CallAccepted(roomId)),
                                    Emit(ToUser(room.calleeId), CallAccepted(roomId))]
      ensures typingUsers == old(typingUsers)
    {
      if roomId !in rooms {
        return;
      }
      var room := rooms[roomId];
      room := room.(status := Ongoing, participants := room.participants + [room.calleeId]);
      rooms := rooms[roomId := room];
      outbox := outbox + [Emit(ToUser(room.callerId), CallAccepted(roomId)),
                          Emit(ToUser(room.calleeId), CallAccepted(roomId))];
    }

    /** endCall: a missing room is ignored; otherwise each participant entry is told the call ended, then the room is deleted. */
    method EndCall(roomId: string, reason: string)
      requires Valid()
      modifies this
      ensures Valid()
      ensures roomId !in old(rooms) ==> rooms == old(rooms) && outbox == old(outbox)
      ensures roomId in old(rooms) ==>
        && rooms == old(rooms) - {roomId}
        && outbox == old(outbox) + CallEndedNotices(old(rooms)[roomId].participants, reason, roomId)
      ensures typingUsers == old(typingUsers)
    {
      if roomId !in rooms {
        return;
      }
      var participants := rooms[roomId].participants;
      var i := 0;
      while i < |participants|
        invariant 0 <= i <= |participants|
        invariant outbox == old(outbox) + CallEndedNotices(participants[..i], reason, roomId)
        invariant rooms == old(rooms) && typingUsers == old(typingUsers)
      {
        assert CallEndedNotices(participants[..i + 1], reason, roomId)
            == CallEndedNotices(participants[..i], reason, roomId) + [Emit(ToUser(participants[i]), CallEnded(reason, roomId))];
        outbox := outbox + [Emit(ToUser(participants[i]), CallEnded(reason, roomId))];
        i := i + 1;
      }
      assert participants[..i] == participants;
      rooms := rooms - {roomId};
    }

    method DeclineCall(roomId: string)
      requires Valid()
      modifies this
      ensures Valid()
      ensures roomId !in old(rooms) ==> rooms == old(rooms) && outbox == old(outbox)
      ensures roomId in old(rooms) ==>
        rooms == old(rooms) - {roomId} && outbox == old(outbox) + CallEndedNotices(old(rooms)[roomId].participants, "declined", roomId)
      ensures typingUsers == old(typingUsers)
    {
      EndCall(roomId, "declined");
    }

    method HangUp(roomId: string)
      requires Valid()
      modifies this
      ensures Valid()
      ensures roomId !in old(rooms) ==> rooms == old(rooms) && outbox == old(outbox)
      ensures roomId in old(rooms) ==>
        rooms == old(rooms) - {roomId} && outbox == old(outbox) + CallEndedNotices(old(rooms)[roomId].participants, "ended", roomId)
      ensures typingUsers == old(typingUsers)
    {
      EndCall(roomId, "ended");
    }

    /** The no-answer timer firing: the call ends only if its room still exists and is still ringing. */
    method NoAnswerTimeout(roomId: string)
      requires Valid()
      modifies this
      ensures Valid()
      ensures roomId in old(rooms) && old(rooms)[roomId].status == Ringing ==>
        && rooms == old(rooms) - {roomId}
        && outbox == old(outbox) + [Emit(ToUser(old(rooms)[roomId].callerId), CallEnded("no-answer", roomId))]
      ensures !(roomId in old(rooms) && old(rooms)[roomId].status == Ringing) ==> rooms == old(rooms) && outbox == old(outbox)
      ensures typingUsers == old(typingUsers)
    {
      if roomId in rooms && rooms[roomId].status == Ringing {
        EndCall(roomId, "no-answer");
      }
    }

    /** webrtc-signal: forwarded verbatim to SignalTarget when there is one, otherwise dropped. */
    method RelaySignal(roomId: string, signal: string, senderId: UserId)
      requires Valid()
      modifies this
      ensures Valid()
      ensures rooms == old(rooms) && typingUsers == old(typingUsers)
      ensures outbox == old(outbox) + (
        if roomId in rooms && SignalTarget(rooms[roomId], senderId).Some?
        then [Emit(ToUser(SignalTarget(rooms[roomId], senderId).value), WebrtcSignal(signal, roomId, senderId))]
        else [])
    {
      if roomId !in rooms {
        return;
      }
      var room := rooms[roomId];
      var target := FirstOther(room.participants, senderId);
      if target.Some? && target.value != "" {
        if room.status == Ongoing {
          outbox := outbox + [Emit(ToUser(target.value), WebrtcSignal(signal, roomId, senderId))];
        }
      }
    }

    /** typing: add the user to the conversation's typing set, creating it if needed, and tell the rest of the room. */
    method Typing(userId: UserId, conversationId: ConversationId)
      requires Valid()
      modifies this
      ensures Valid()
      ensures typingUsers == old(typingUsers)[conversationId :=
        (if conversationId in old(typingUsers) then old(typingUsers)[conversationId] else {}) + {userId}]
      ensures rooms == old(rooms)
      ensures outbox == old(outbox) + [Emit(ToRoomExceptSender(conversationId), UserTyping)]
    {
      if conversationId !in typingUsers {
        typingUsers := typingUsers[conversationId := {}];
      }
      typingUsers := typingUsers[conversationId := typingUsers[conversationId] + {userId}];
      outbox := outbox + [Emit(ToRoomExceptSender(conversationId), UserTyping)];
    }

    /** stop_typing: only an existing typing set is touched (and only then is the room told). */
    method StopTyping(userId: UserId, conversationId: ConversationId)
      requires Valid()
      modifies this
      ensures Valid()
      ensures conversationId in old(typingUsers) ==>
        && typingUsers == old(typingUsers)[conversationId := old(typingUsers)[conversationId] - {userId}]
        && outbox == old(outbox) + [Emit(ToRoomExceptSender(conversationId), UserStopTyping)]
      ensures conversationId !in old(typingUsers) ==> typingUsers == old(typingUsers) && outbox == old(outbox)
      ensures rooms == old(rooms)
    {
      if conversationId in typingUsers {
        typingUsers := typingUsers[conversationId := typingUsers[conversationId] - {userId}];
        outbox := outbox + [Emit(ToRoomExceptSender(conversationId), UserStopTyping)];
      }
    }

    /** The typing half of disconnect: drop the user from every typing set, telling each conversation it was typing in. */
    method ClearTypingOf(userId: UserId) returns (ghost order: seq<ConversationId>)
      requires Valid()
      modifies this
      ensures Valid()
      ensures typingUsers == map c | c in old(typingUsers) :: old(typingUsers)[c] - {userId}
      ensures rooms == old(rooms)
      ensures Distinct(order)
      ensures forall c :: c in order <==> c in old(typingUsers) && userId in old(typingUsers)[c]
      ensures outbox == old(outbox) + StopTypingNotices(order)
    {
      var pending := typingUsers.Keys;
      order := [];
      while pending != {}
        invariant pending <= old(typingUsers).Keys
        invariant typingUsers.Keys == old(typingUsers).Keys
        invariant forall c :: c in typingUsers ==>
                    typingUsers[c] == if c in pending then old(typingUsers)[c] else old(typingUsers)[c] - {userId}
        invariant Distinct(order)
        invariant forall c :: c in order <==> c in old(typingUsers) && c !in pending && userId in old(typingUsers)[c]
        invariant outbox == old(outbox) + StopTypingNotices(order)
        invariant rooms == old(rooms)
        decreases pending
      {
        var c :| c in pending;
        if userId in typingUsers[c] {
          typingUsers := typingUsers[c := typingUsers[c] - {userId}];
          assert StopTypingNotices(order + [c]) == StopTypingNotices(order) + [Emit(ToRoom(c), UserStopTyping)];
          outbox := outbox + [Emit(ToRoom(c), UserStopTyping)];
          order := order + [c];
        }
        pending := pending - {c};
      }
    }

    /** The call half of disconnect: end, with reason "disconnected", every call whose participants include the user. */
    method EndCallsOf(userId: UserId) returns (ghost order: seq<string>)
      requires Valid()
      modifies this
      ensures Valid()
      ensures rooms == map r | r in old(rooms) && userId !in old(rooms)[r].participants :: old(rooms)[r]
      ensures typingUsers == old(typingUsers)
      ensures Distinct(order)
      ensures forall r :: r in order <==> r in old(rooms) && userId in old(rooms)[r].participants
      ensures outbox == old(outbox) + SweepNotices(old(rooms), order, "disconnected")
    {
      var pending := set r | r in rooms && userId in rooms[r].participants;
      ghost var involved := pending;
      ghost var removed: set<string> := {};
      order := [];
      while pending != {}
        invariant Valid()
        invariant pending <= involved && removed == involved - pending
        invariant rooms == old(rooms) - removed
        invariant Distinct(order) && Elements(order) == removed
        invariant forall r :: r in order ==> r in old(rooms)
        invariant outbox == old(outbox) + SweepNotices(old(rooms), order, "disconnected")
        invariant typingUsers == old(typingUsers)
        decreases pending
      {
        var r :| r in pending;
        ghost var roomsBefore, outboxBefore := rooms, outbox;
        OrderGrows(order, r, involved, pending);
        EndCall(r, "disconnected");
        SweepStep(old(outbox), outboxBefore, outbox, old(rooms), order, r, "disconnected");
        RemovedStep(old(rooms), roomsBefore, rooms, removed, r);
        order := order + [r];
        pending := pending - {r};
        removed := removed + {r};
      }
      assert rooms == old(rooms) - involved;
      forall r ensures r in order <==> r in involved {
        assert r in order <==> r in Elements(order);
      }
    }

    /**
     * disconnect: mark the user offline and unset its socketId, remove the user from every typing set,
     * then end every call the user takes part in. The ghost results record the
     * order the two sweeps visited the affected entries in.
     */
    method Disconnect(userId: UserId) returns (ghost typingOrder: seq<ConversationId>, ghost endedOrder: seq<string>)
      requires Valid()
      modifies this, db
      ensures Valid()
      ensures db.users == if userId in old(db.users)
                          then old(db.users)[userId := old(db.users)[userId].(online := false,
                                                                               fields := old(db.users)[userId].fields - {"socketId"})]
                          else old(db.users)
      ensures db.posts == old(db.posts) && db.comments == old(db.comments) && db.messages == old(db.messages)
      ensures db.conversations == old(db.conversations) && db.notifications == old(db.notifications)
      ensures typingUsers == map c | c in old(typingUsers) :: old(typingUsers)[c] - {userId}
      ensures rooms == map r | r in old(rooms) && userId !in old(rooms)[r].participants :: old(rooms)[r]
      ensures forall c :: c in typingUsers ==> userId !in typingUsers[c]
      ensures forall r :: r in rooms ==> userId !in rooms[r].participants
      ensures Distinct(typingOrder)
      ensures forall c :: c in typingOrder <==> c in old(typingUsers) && userId in old(typingUsers)[c]
      ensures Distinct(endedOrder)
      ensures forall r :: r in endedOrder <==> r in old(rooms) && userId in old(rooms)[r].participants
      ensures outbox == old(outbox) + StopTypingNotices(typingOrder) + SweepNotices(old(rooms), endedOrder, "disconnected")
    {
      if userId in db.users {
        var user := db.users[userId];
        db.users := db.users[userId := user.(online := false, fields := user.fields - {"socketId"})];
      }
      typingOrder := ClearTypingOf(userId);
      endedOrder := EndCallsOf(userId);
    }

    /**
     * mark_message_read: a message id that does not cast or names no message
     * stops the handler before it emits; otherwise the reader is added to the
     * message's readBy, the conversation room (named as sent) is told, and the
     * conversation's counter drops by one when it is positive (whoever reads
     * which message). Both ids are looked up by their cast.
     */
    method MarkMessageRead(readerId: UserId, messageId: MessageId, conversationId: ConversationId)
      requires Valid()
      modifies this, db
      ensures Valid()
      ensures rooms == old(rooms) && typingUsers == old(typingUsers)
      ensures db.users == old(db.users) && db.posts == old(db.posts) && db.comments == old(db.comments)
      ensures db.notifications == old(db.notifications)
      ensures !(IsObjectId(messageId) && Canonical(messageId) in old(db.messages)) ==>
        db.messages == old(db.messages) && db.conversations == old(db.conversations) && outbox == old(outbox)
      ensures IsObjectId(messageId) && Canonical(messageId) in old(db.messages) ==>
        var m, c := Canonical(messageId), Canonical(conversationId);
        var read := MarkedRead(old(db.messages)[m], readerId);
        var decrements := IsObjectId(conversationId) && c in old(db.conversations) && old(db.conversations)[c].unreadCount > 0;
        && db.messages == old(db.messages)[m := read]
        && db.conversations == (if decrements then old(db.conversations)[c := ReadDecrement(old(db.conversations)[c])]
                                else old(db.conversations))
        && outbox == old(outbox) + [Emit(ToRoom(conversationId), MessageRead(messageId, read.readBy))]
                     + (if decrements
                        then ConversationUpdatedNotices(old(db.conversations)[c].participants, old(db.users).Keys,
                                                        c, old(db.conversations)[c].unreadCount - 1)
                        else [])
    {
      if !IsObjectId(messageId) || Canonical(messageId) !in db.messages {
        return;
      }
      var m := Canonical(messageId);
      var read := MarkedRead(db.messages[m], readerId);
      db.messages := db.messages[m := read];
      outbox := outbox + [Emit(ToRoom(conversationId), MessageRead(messageId, read.readBy))];
      if !IsObjectId(conversationId) || Canonical(conversationId) !in db.conversations {
        return;
      }
      var c := Canonical(conversationId);
      var conversation := db.conversations[c];
      if conversation.unreadCount > 0 {
        conversation := ReadDecrement(conversation);
        db.conversations := db.conversations[c := conversation];
        outbox := outbox + ConversationUpdatedNotices(conversation.participants, db.users.Keys, c, conversation.unreadCount);
      }
    }

    /**
     * mark_conversation_read: an id that does not cast stops the handler before
     * any write; otherwise the bulk read runs on the cast id, the counter (if
     * the conversation exists) is reset, and each populated participant is told.
     */
    method MarkConversationRead(readerId: UserId, conversationId: ConversationId)
      requires Valid()
      modifies this, db
      ensures Valid()
      ensures rooms == old(rooms) && typingUsers == old(typingUsers)
      ensures db.users == old(db.users) && db.posts == old(db.posts) && db.comments == old(db.comments)
      ensures db.notifications == old(db.notifications)
      ensures !IsObjectId(conversationId) ==>
        db.messages == old(db.messages) && db.conversations == old(db.conversations) && outbox == old(outbox)
      ensures IsObjectId(conversationId) ==> db.messages == MarkAllRead(old(db.messages), Canonical(conversationId), readerId)
      ensures IsObjectId(conversationId) && Canonical(conversationId) !in old(db.conversations) ==>
        db.conversations == old(db.conversations) && outbox == old(outbox)
      ensures IsObjectId(conversationId) && Canonical(conversationId) in old(db.conversations) ==>
        var c := Canonical(conversationId);
        && db.conversations == old(db.conversations)[c := ResetUnread(old(db.conversations)[c])]
        && outbox == old(outbox) + ConversationUpdatedNotices(old(db.conversations)[c].participants, old(db.users).Keys, c, 0)
    {
      if !IsObjectId(conversationId) {
        return;
      }
      var c := Canonical(conversationId);
      db.messages := MarkAllRead(db.messages, c, readerId);
      if c in db.conversations {
        var conversation := ResetUnread(db.conversations[c]);
        db.conversations := db.conversations[c := conversation];
        outbox := outbox + ConversationUpdatedNotices(conversation.participants, db.users.Keys, c, 0);
      }
    }

    /**
     * send_message. The checks of SendPrecheck run before any write; then the
     * message (read by its sender only) and the conversation update are written
     * in one transaction, which `fault` may make fail. Everything after the
     * commit can still fail the acknowledgement without undoing the commit: a
     * conversation id that names no conversation, or a failed notification save.
     * `newId` is the id the new message document receives. The message and
     * the lookups use the cast conversation id; the room is named as sent.
     */
    method SendMessage(senderId: UserId, conversation: Option<string>, content: Option<string>, newId: MessageId, fault: Fault)
      returns (ack: Ack)
      requires Valid() && newId !in db.messages
      modifies this, db
      ensures Valid()
      ensures rooms == old(rooms) && typingUsers == old(typingUsers)
      ensures db.users == old(db.users) && db.posts == old(db.posts) && db.comments == old(db.comments)
      // all or nothing: an error raised before the commit leaves every collection and the outbox as they were
      ensures ack.Failed? && BeforeCommit(ack.error) ==>
        && db.messages == old(db.messages) && db.conversations == old(db.conversations)
        && db.notifications == old(db.notifications) && outbox == old(outbox)
      ensures SendPrecheck(conversation, content).Some? ==> ack == Failed(SendPrecheck(conversation, content).value)
      ensures SendPrecheck(conversation, content).None? && fault == FailBeforeCommit ==> ack == Failed(PersistenceFailure)
      ensures SendPrecheck(conversation, content).None? && fault != FailBeforeCommit ==>
        var sent, id := conversation.value, Canonical(conversation.value);
        var message := Message(id, senderId, content.value, false, [senderId]);
        && db.messages == old(db.messages)[newId := message]
        && db.conversations == (if id in old(db.conversations)
                                then old(db.conversations)[id := RecordSent(old(db.conversations)[id], newId)]
                                else old(db.conversations))
        && (id !in old(db.conversations) ==>
              && ack == Failed(ConversationNotFound)
              && db.notifications == old(db.notifications)
              && outbox == old(outbox) + [Emit(ToRoom(sent), ReceiveMessage(newId))])
        && (id in old(db.conversations) ==>
              var after := RecordSent(old(db.conversations)[id], newId);
              var receiver := FirstOther(after.participants, senderId);
              var notified := receiver.Some? && fault != FailNotificationSave;
              && db.notifications == old(db.notifications)
                   + (if notified
                      then [Notification(receiver.value, senderId, MessageNotice, None, Some(MessagePreview(content.value)), false)]
                      else [])
              && (receiver.Some? && fault == FailNotificationSave ==>
                    ack == Failed(NotificationSaveFailure) && outbox == old(outbox) + [Emit(ToRoom(sent), ReceiveMessage(newId))])
              && (receiver.None? || fault != FailNotificationSave ==>
                    && ack == Sent(newId, message)
                    && outbox == old(outbox) + [Emit(ToRoom(sent), ReceiveMessage(newId))]
                       + (if notified then [Emit(ToUser(receiver.value), NewNotification(receiver.value, senderId, "message"))] else [])
                       + ConversationUpdatedNotices(after.participants, old(db.users).Keys, id, after.unreadCount)))
    {
      var precheck := SendPrecheck(conversation, content);
      if precheck.Some? {
        return Failed(precheck.value);
      }
      if fault == FailBeforeCommit {
        return Failed(PersistenceFailure);
      }
      var sent, id := conversation.value, Canonical(conversation.value);
      var message := Message(id, senderId, content.value, false, [senderId]);
      db.messages := db.messages[newId := message];
      if id in db.conversations {
        db.conversations := db.conversations[id := RecordSent(db.conversations[id], newId)];
      }
      outbox := outbox + [Emit(ToRoom(sent), ReceiveMessage(newId))];
      if id !in db.conversations {
        return Failed(ConversationNotFound);
      }
      ack := NotifyAndAcknowledge(senderId, id, content.value, newId, message, fault);
    }

    /** The part of send_message after the commit, when the conversation exists: notify the other participant, then update every participant. */
    method NotifyAndAcknowledge(senderId: UserId, id: ConversationId, text: string, newId: MessageId, message: Message, fault: Fault)
      returns (ack: Ack)
      requires Valid() && id in db.conversations
      modifies this, db
      ensures Valid()
      ensures rooms == old(rooms) && typingUsers == old(typingUsers)
      ensures db.users == old(db.users) && db.posts == old(db.posts) && db.comments == old(db.comments)
      ensures db.messages == old(db.messages) && db.conversations == old(db.conversations)
      ensures
        var after := old(db.conversations)[id];
        var receiver := FirstOther(after.participants, senderId);
        var notified := receiver.Some? && fault != FailNotificationSave;
        && db.notifications == old(db.notifications)
             + (if notified then [Notification(receiver.value, senderId, MessageNotice, None, Some(MessagePreview(text)), false)] else [])
        && (receiver.Some? && fault == FailNotificationSave ==> ack == Failed(NotificationSaveFailure) && outbox == old(outbox))
        && (receiver.None? || fault != FailNotificationSave ==>
              && ack == Sent(newId, message)
              && outbox == old(outbox)
                 + (if notified then [Emit(ToUser(receiver.value), NewNotification(receiver.value, senderId, "message"))] else [])
                 + ConversationUpdatedNotices(after.participants, old(db.users).Keys, id, after.unreadCount))
    {
      var after := db.conversations[id];
      var receiver := FirstOther(after.participants, senderId);
      if receiver.Some? {
        if fault == FailNotificationSave {
          return Failed(NotificationSaveFailure);
        }
        db.notifications := db.notifications + [Notification(receiver.value, senderId, MessageNotice, None, Some(MessagePreview(text)), false)];
        outbox := outbox + [Emit(ToUser(receiver.value), NewNotification(receiver.value, senderId, "message"))];
      }
      outbox := outbox + ConversationUpdatedNotices(after.participants, db.users.Keys, id, after.unreadCount);
      ack := Sent(newId, message);
    }

    /** send_notification: store the requested notification and push it to the receiver's room; a request RequestedNotification refuses changes nothing. */
    method SendNotification(senderId: UserId, receiverId: Option<string>, kind: Option<string>,
                            postId: Option<string>, commentText: Option<string>)
      requires Valid()
      modifies this, db
      ensures Valid()
      ensures rooms == old(rooms) && typingUsers == old(typingUsers)
      ensures db.users == old(db.users) && db.posts == old(db.posts) && db.comments == old(db.comments)
      ensures db.messages == old(db.messages) && db.conversations == old(db.conversations)
      ensures RequestedNotification(senderId, receiverId, kind, postId, commentText).None? ==>
        db.notifications == old(db.notifications) && outbox == old(outbox)
      ensures RequestedNotification(senderId, receiverId, kind, postId, commentText).Some? ==>
        var n := RequestedNotification(senderId, receiverId, kind, postId, commentText).value;
        && db.notifications == old(db.notifications) + [n]
        && outbox == old(outbox) + [Emit(ToUser(receiverId.value), NewNotification(n.receiver, senderId, kind.value))]
    {
      var n := RequestedNotification(senderId, receiverId, kind, postId, commentText);
      if n.Some? {
        db.notifications := db.notifications + [n.value];
        outbox := outbox + [Emit(ToUser(receiverId.value), NewNotification(n.value.receiver, senderId, kind.value))];
      }
    }
  }

  /** The conversations startConversation's `$all` query matches: both ids among the participants. */
  predicate HasPair(c: Conversation, me: UserId, other: UserId) {
    me in c.participants && other in c.participants
  }

  /**
   * startConversation: return some conversation already holding both users,
   * or create one for the pair with a zero counter under `newId`; the other
   * user is matched and stored by the cast id. An id that
   * does not cast makes the query reject, which the handler does not catch:
   * no response (None) and no write.
   */
  method StartConversation(db: Database, me: UserId, other: string, newId: ConversationId) returns (r: Option<ConversationId>)
    requires db.Valid() && newId !in db.conversations
    modifies db
    ensures db.Valid()
    ensures db.users == old(db.users) && db.posts == old(db.posts) && db.comments == old(db.comments)
    ensures db.messages == old(db.messages) && db.notifications == old(db.notifications)
    ensures !IsObjectId(other) ==> r.None? && db.conversations == old(db.conversations)
    ensures IsObjectId(other) ==>
              r.Some? && r.value in db.conversations && HasPair(db.conversations[r.value], me, Canonical(other))
    ensures IsObjectId(other) && (exists c :: c in old(db.conversations) && HasPair(old(db.conversations)[c], me, Canonical(other))) ==>
              r.value in old(db.conversations) && db.conversations == old(db.conversations)
    ensures IsObjectId(other) && !(exists c :: c in old(db.conversations) && HasPair(old(db.conversations)[c], me, Canonical(other))) ==>
              r == Some(newId) && db.conversations == old(db.conversations)[newId := Conversation([me, Canonical(other)], None, 0)]
  {
    if !IsObjectId(other) {
      return None;
    }
    var them := Canonical(other);
    if c :| c in db.conversations && HasPair(db.conversations[c], me, them) {
      return Some(c);
    }
    db.conversations := db.conversations[newId := Conversation([me, them], None, 0)];
    r := Some(newId);
  }

  /** The REST markConversationRead: the same bulk read and reset as the socket event on the cast id, answered 200, or 500 when the id does not cast. */
  method MarkConversationReadRest(db: Database, readerId: UserId, conversationId: ConversationId) returns (status: int)
    requires db.Valid()
    modifies db
    ensures db.Valid()
    ensures db.users == old(db.users) && db.posts == old(db.posts) && db.comments == old(db.comments)
    ensures db.notifications == old(db.notifications)
    ensures status == (if IsObjectId(conversationId) then 200 else 500)
    ensures !IsObjectId(conversationId) ==> db.messages == old(db.messages) && db.conversations == old(db.conversations)
    ensures IsObjectId(conversationId) ==>
      var c := Canonical(conversationId);
      && db.messages == MarkAllRead(old(db.messages), c, readerId)
      && db.conversations == (if c in old(db.conversations)
                              then old(db.conversations)[c := ResetUnread(old(db.conversations)[c])]
                              else old(db.conversations))
  {
    if !IsObjectId(conversationId) {
      return 500;
    }
    var c := Canonical(conversationId);
    db.messages := MarkAllRead(db.messages, c, readerId);
    if c in db.conversations {
      db.conversations := db.conversations[c := ResetUnread(db.conversations[c])];
    }
    status := 200;
  }
}
