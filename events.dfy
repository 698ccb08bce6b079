/**
 * What each event handler promises, stated over the pure model in `Delivery`:
 * authentication and the flush of waiting messages, direct messages and their
 * acknowledgement, read receipts, typing indicators, the auth timer and the
 * close handler. Every handler only ever fills in null timestamps of stored
 * messages or appends new ones.
 */
module Events {
  import opened Wrappers
  import opened Json
  import opened MessageModel
  import opened MessageStore
  import opened Registry
  import opened Protocol
  import opened Delivery
  import opened Invariants
  import opened Flush

  /** The last frame written to a transcript, if any. */
  function LastFrame(t: seq<OutFrame>): (r: Option<OutFrame>)
    ensures r.Some? <==> t != []
  {
    if t == [] then None else Some(t[|t| - 1])
  }

  // ----- finalizeAuth -----

  /** Binding, registering, recording lastSeen and welcoming leave the socket's message frames alone. */
  lemma RegisterKeepsMessageFrames(s: State, ws: SocketId, u: UserId, fault: Option<nat>)
    requires ws in s.status && ws in s.outbox
    ensures ws in Register(s, ws, u, fault).outbox
    ensures MessageFrames(Register(s, ws, u, fault).outbox[ws]) == MessageFrames(s.outbox[ws])
  {
    var s1 := s.(status := s.status[ws := s.status[ws].(userId := Some(u))]);
    var s2 := AddSocketForUser(s1, u, ws);
    FanoutKeepsMessageFrames(s1.outbox, s1.status, OnlineSockets(s2.userSockets), OnlineUsers(s2.userSockets.Keys), ws);
    var s3 := if fault == Some(0) then s2 else s2.(users := TouchLastSeen(s2.users, u, s2.clock));
    FanoutKeepsMessageFrames(s3.outbox, s3.status, {ws}, Welcome(WelcomeText), ws);
  }

  /**
   * A valid token with every store operation succeeding: the socket is
   * registered under the user, each message that was waiting for the user is
   * sent to this socket, oldest first, and marked delivered now, nothing else
   * in the store changes, no message for the user is left waiting, and the
   * auth timer is cancelled.
   */
  lemma AuthenticateDeliversPending(s: State, ws: SocketId, u: UserId)
    requires ws in s.status && ws in s.outbox
    ensures
      var r := Authenticate(s, ws, Some(u), None);
      var pending := PendingFor(s.store, u);
      && Filed(r, u, ws)
      && ws in r.status && r.status[ws] == s.status[ws].(userId := Some(u), timerArmed := false)
      && |r.store| == |s.store|
      && (forall i :: 0 <= i < |s.store| ==>
            r.store[i] == if IsPending(s.store[i], u) then s.store[i].(deliveredAt := Some(s.clock)) else s.store[i])
      && (forall i :: 0 <= i < |r.store| ==> !IsPending(r.store[i], u))
      && (s.status[ws].ready == Open ==>
            ws in r.outbox && MessageFrames(r.outbox[ws]) == MessageFrames(s.outbox[ws]) + Pick(s.store, pending))
  {
    AuthenticateRegisters(s, ws, u);
    AuthenticateMarksDelivered(s, ws, u);
    if s.status[ws].ready == Open {
      AuthenticateSendsPending(s, ws, u);
    }
  }

  /** A valid token with every store operation succeeding files the socket under the user and cancels its timer. */
  lemma AuthenticateRegisters(s: State, ws: SocketId, u: UserId)
    requires ws in s.status
    ensures
      var r := Authenticate(s, ws, Some(u), None);
      && Filed(r, u, ws)
      && ws in r.status && r.status[ws] == s.status[ws].(userId := Some(u), timerArmed := false)
  {
    AuthenticateFlushes(s, ws, u);
    FlushPendingAll(Register(s, ws, u, None), ws, u);
  }

  /** A valid token with every store operation succeeding marks each message waiting for the user delivered now, and only those. */
  lemma AuthenticateMarksDelivered(s: State, ws: SocketId, u: UserId)
    requires ws in s.status
    ensures
      var r := Authenticate(s, ws, Some(u), None);
      && |r.store| == |s.store|
      && (forall i :: 0 <= i < |s.store| ==>
            r.store[i] == if IsPending(s.store[i], u) then s.store[i].(deliveredAt := Some(s.clock)) else s.store[i])
      && (forall i :: 0 <= i < |r.store| ==> !IsPending(r.store[i], u))
  {
    AuthenticateFlushes(s, ws, u);
    FlushAllStore(Register(s, ws, u, None), ws, u);
  }

  /** A valid token with every store operation succeeding sends every waiting message to the open socket, oldest first. */
  lemma AuthenticateSendsPending(s: State, ws: SocketId, u: UserId)
    requires ws in s.status && ws in s.outbox && s.status[ws].ready == Open
    ensures
      var r := Authenticate(s, ws, Some(u), None);
      ws in r.outbox && MessageFrames(r.outbox[ws]) == MessageFrames(s.outbox[ws]) + Pick(s.store, PendingFor(s.store, u))
  {
    RegisterKeepsMessageFrames(s, ws, u, None);
    AuthenticateFlushes(s, ws, u);
    FlushAllTranscript(Register(s, ws, u, None), ws, u);
  }

  /** A valid token with every store operation succeeding: registration, then the whole flush. */
  lemma AuthenticateFlushes(s: State, ws: SocketId, u: UserId)
    requires ws in s.status
    ensures Authenticate(s, ws, Some(u), None) == FlushPending(Register(s, ws, u, None), ws, u, None)
  {
  }

  /** With every save succeeding and the socket open, the flush sends every waiting message, oldest first. */
  lemma FlushAllTranscript(s: State, ws: SocketId, u: UserId)
    requires ws in s.status && ws in s.outbox && IsOpen(s.status, ws)
    ensures ws in FlushPending(s, ws, u, None).outbox
    ensures MessageFrames(FlushPending(s, ws, u, None).outbox[ws]) == MessageFrames(s.outbox[ws]) + Pick(s.store, PendingFor(s.store, u))
  {
    var pending := PendingFor(s.store, u);
    PendingPrefixReplayable(s, u, ws, |pending|);
    assert pending[..|pending|] == pending;
    FlushPendingAll(s, ws, u);
    FlushTranscript(s, ws, pending);
  }

  /**
   * With every save succeeding, the flush marks each message waiting for the
   * user delivered now, changes nothing else in the store, and leaves no
   * message for the user waiting.
   */
  lemma FlushAllStore(s: State, ws: SocketId, u: UserId)
    requires ws in s.status
    ensures
      var r := FlushPending(s, ws, u, None);
      && |r.store| == |s.store|
      && (forall i :: 0 <= i < |s.store| ==>
            r.store[i] == if IsPending(s.store[i], u) then s.store[i].(deliveredAt := Some(s.clock)) else s.store[i])
      && (forall i :: 0 <= i < |r.store| ==> !IsPending(r.store[i], u))
  {
    var pending := PendingFor(s.store, u);
    PendingPrefixReplayable(s, u, ws, |pending|);
    assert pending[..|pending|] == pending;
    FlushPendingAll(s, ws, u);
    var r := FlushPending(s, ws, u, None);
    forall i | 0 <= i < |s.store|
      ensures r.store[i] == if IsPending(s.store[i], u) then s.store[i].(deliveredAt := Some(s.clock)) else s.store[i]
    {
      ReplayStore(s, Deliver(ws), pending, i);
      assert i in pending <==> IsPending(s.store[i], u);
    }
    FlushLeavesRest(s, ws, u, |pending|);
    forall i | 0 <= i < |r.store| ensures !IsPending(r.store[i], u) {
      assert i !in PendingFor(r.store, u);
    }
  }

  /** With every save succeeding, the flush runs over the whole pending list and then cancels the timer. */
  lemma FlushPendingAll(s: State, ws: SocketId, u: UserId)
    requires ws in s.status
    ensures
      var s5 := Replay(s, Deliver(ws), PendingFor(s.store, u));
      FlushPending(s, ws, u, None) == s5.(status := s5.status[ws := s5.status[ws].(timerArmed := false)])
  {
    var pending := PendingFor(s.store, u);
    assert Completed(None, 2, |pending|) == |pending|;
    assert pending[..|pending|] == pending;
  }

  /** Binding, registering, recording lastSeen and welcoming send no receipt to any socket. */
  lemma RegisterKeepsReceipts(s: State, ws: SocketId, u: UserId, fault: Option<nat>, x: SocketId)
    requires ws in s.status && x in s.outbox
    ensures x in Register(s, ws, u, fault).outbox
    ensures ReceiptFrames(Register(s, ws, u, fault).outbox[x]) == ReceiptFrames(s.outbox[x])
  {
    var s1 := s.(status := s.status[ws := s.status[ws].(userId := Some(u))]);
    var reg := AddSocket(s.userSockets, u, ws);
    FanoutKeepsReceiptFrames(s1.outbox, s1.status, OnlineSockets(reg), OnlineUsers(reg.Keys), x);
    var s2 := AddSocketForUser(s1, u, ws);
    assert s2.outbox == Fanout(s1.outbox, s1.status, OnlineSockets(reg), OnlineUsers(reg.Keys));
    var s3 := if fault == Some(0) then s2 else s2.(users := TouchLastSeen(s2.users, u, s2.clock));
    FanoutKeepsReceiptFrames(s3.outbox, s3.status, {ws}, Welcome(WelcomeText), x);
    assert Register(s, ws, u, fault) == Send(s3, ws, Welcome(WelcomeText));
  }

  /**
   * A valid token with every store operation succeeding: each open socket
   * receives, in the order the waiting messages were found, one `delivered`
   * receipt per message whose sender has that socket registered, and no
   * other receipt. The registry is the one after this socket joined it.
   */
  lemma AuthenticateSendsReceipts(s: State, ws: SocketId, u: UserId, x: SocketId)
    requires ws in s.status && x in s.outbox && IsOpen(s.status, x)
    ensures
      var r := Authenticate(s, ws, Some(u), None);
      && x in r.outbox
      && ReceiptFrames(r.outbox[x]) == ReceiptFrames(s.outbox[x])
           + ReceiptsTo(AddSocket(s.userSockets, u, ws), s.store, s.clock, Deliver(ws), PendingFor(s.store, u), x)
  {
    RegisterKeepsReceipts(s, ws, u, None, x);
    AuthenticateFlushes(s, ws, u);
    FlushAllReceipts(Register(s, ws, u, None), ws, u, x);
  }

  /** With every save succeeding, the flush sends each open socket the receipts it owes it, in the order of the pending list. */
  lemma FlushAllReceipts(s: State, ws: SocketId, u: UserId, x: SocketId)
    requires ws in s.status && x in s.outbox && IsOpen(s.status, x)
    ensures x in FlushPending(s, ws, u, None).outbox
    ensures ReceiptFrames(FlushPending(s, ws, u, None).outbox[x]) == ReceiptFrames(s.outbox[x])
      + ReceiptsTo(s.userSockets, s.store, s.clock, Deliver(ws), PendingFor(s.store, u), x)
  {
    var pending := PendingFor(s.store, u);
    PendingPrefixReplayable(s, u, ws, |pending|);
    assert pending[..|pending|] == pending;
    FlushPendingAll(s, ws, u);
    ReplayReceipts(s, Deliver(ws), pending, x);
  }

  /**
   * A valid token with every store operation succeeding: the sender of each
   * message that was waiting gets, on every open socket it has registered,
   * a `delivered` receipt carrying the message stamped delivered now.
   */
  lemma AuthenticateNotifiesSenders(s: State, ws: SocketId, u: UserId, x: SocketId)
    requires ws in s.status && x in s.outbox && IsOpen(s.status, x)
    ensures
      var r := Authenticate(s, ws, Some(u), None);
      var pending := PendingFor(s.store, u);
      && x in r.outbox
      && forall k :: 0 <= k < |pending| && x in SocketsOf(AddSocket(s.userSockets, u, ws), s.store[pending[k]].from) ==>
           Delivered(s.store[pending[k]].(deliveredAt := Some(s.clock))) in r.outbox[x]
  {
    AuthenticateSendsReceipts(s, ws, u, x);
    var r := Authenticate(s, ws, Some(u), None);
    var pending := PendingFor(s.store, u);
    var reg := AddSocket(s.userSockets, u, ws);
    forall k | 0 <= k < |pending| && x in SocketsOf(reg, s.store[pending[k]].from)
      ensures Delivered(s.store[pending[k]].(deliveredAt := Some(s.clock))) in r.outbox[x]
    {
      ReceiptsToCovers(reg, s.store, s.clock, Deliver(ws), pending, x, k);
      ReceiptFramesWritten(r.outbox[x], Delivered(s.store[pending[k]].(deliveredAt := Some(s.clock))));
    }
  }

  /** The welcome frame is the last thing `Register` writes to the socket, when it is open. */
  lemma RegisterWelcomes(s: State, ws: SocketId, u: UserId, fault: Option<nat>)
    requires ws in s.status && ws in s.outbox && IsOpen(s.status, ws)
    ensures ws in Register(s, ws, u, fault).outbox
    ensures LastFrame(Register(s, ws, u, fault).outbox[ws]) == Some(Welcome(WelcomeText))
  {
    var s1 := s.(status := s.status[ws := s.status[ws].(userId := Some(u))]);
    var s2 := AddSocketForUser(s1, u, ws);
    var s3 := if fault == Some(0) then s2 else s2.(users := TouchLastSeen(s2.users, u, s2.clock));
    FanoutDelivers(s3.outbox, s3.status, {ws}, Welcome(WelcomeText), ws);
  }

  /** The flush only appends to transcripts, whether it finishes or a save fails. */
  lemma FlushExtendsTranscript(s: State, ws: SocketId, u: UserId, fault: Option<nat>, x: SocketId)
    requires ws in s.status && x in s.outbox
    ensures x in FlushPending(s, ws, u, fault).outbox && s.outbox[x] <= FlushPending(s, ws, u, fault).outbox[x]
  {
    var pending := PendingFor(s.store, u);
    var n := Completed(fault, 2, |pending|);
    PendingPrefixReplayable(s, u, ws, n);
    ReplayExtendsTranscript(s, Deliver(ws), pending[..n], x);
    var s5 := Replay(s, Deliver(ws), pending[..n]);
    if n < |pending| {
      FanoutDelivers(s5.outbox, s5.status, {ws}, MessageFrame(s5.store[pending[n]]), x);
    }
  }

  /**
   * Authentication of an open socket with any outcome after the token
   * verified: the socket has been sent `welcome`, and whatever the flush sends
   * it, the waiting messages included, comes after that frame.
   */
  lemma AuthenticateWelcomes(s: State, ws: SocketId, u: UserId, fault: Option<nat>)
    requires ws in s.status && ws in s.outbox && IsOpen(s.status, ws)
    ensures
      var t := Register(s, ws, u, fault).outbox;
      var r := Authenticate(s, ws, Some(u), fault);
      && ws in t && ws in r.outbox
      && LastFrame(t[ws]) == Some(Welcome(WelcomeText))
      && t[ws] <= r.outbox[ws]
  {
    RegisterWelcomes(s, ws, u, fault);
    if fault != Some(1) {
      FlushExtendsTranscript(Register(s, ws, u, fault), ws, u, fault, ws);
    }
  }

  /**
   * Authentication with a verified token refreshes the user's `lastSeen` to
   * now unless that update fails; its failure is swallowed, and the rest of
   * the user collection is never touched.
   */
  lemma AuthenticateRecordsLastSeen(s: State, ws: SocketId, u: UserId, fault: Option<nat>)
    requires ws in s.status
    ensures
      var r := Authenticate(s, ws, Some(u), fault);
      && r.users.Keys == s.users.Keys
      && (forall v :: v in s.users && v != u ==> r.users[v] == s.users[v])
      && (u in s.users ==> r.users[u].connections == s.users[u].connections)
      && (u in s.users ==> r.users[u].lastSeen == if fault == Some(0) then s.users[u].lastSeen else Some(s.clock))
  {
    AuthenticateKeepsRegisteredUsers(s, ws, u, fault);
  }

  /** After registration, the rest of authentication leaves the user collection alone. */
  lemma AuthenticateKeepsRegisteredUsers(s: State, ws: SocketId, u: UserId, fault: Option<nat>)
    requires ws in s.status
    ensures Authenticate(s, ws, Some(u), fault).users == Register(s, ws, u, fault).users
    ensures Register(s, ws, u, fault).users == if fault == Some(0) then s.users else TouchLastSeen(s.users, u, s.clock)
  {
    if fault != Some(1) {
      FlushPendingStore(Register(s, ws, u, fault), ws, u, fault);
    }
  }

  /** The flush changes the store only through its completed iterations; it keeps the registry. */
  lemma FlushPendingStore(s: State, ws: SocketId, u: UserId, fault: Option<nat>)
    requires ws in s.status
    ensures
      var pending := PendingFor(s.store, u);
      var r := FlushPending(s, ws, u, fault);
      && r.store == Replay(s, Deliver(ws), pending[..Completed(fault, 2, |pending|)]).store
      && r.userSockets == s.userSockets && r.users == s.users && ws in r.status
      && r.status[ws].userId == s.status[ws].userId
      && (Completed(fault, 2, |pending|) < |pending| ==> r.status[ws].ready != Open)
      && (Completed(fault, 2, |pending|) < |pending| && s.status[ws].ready == Open ==> r.status[ws].closure == Some(AuthFailed))
  {
  }

  /**
   * A valid token but a store operation that fails: every waiting message
   * whose save did not complete is still waiting, to be sent again on the
   * next connection.
   */
  lemma AuthenticateFailureKeepsRest(s: State, ws: SocketId, u: UserId, k: nat)
    requires ws in s.status
    ensures
      var r := Authenticate(s, ws, Some(u), Some(k));
      var pending := PendingFor(s.store, u);
      var saved := if k == 1 then 0 else Completed(Some(k), 2, |pending|);
      forall i: nat :: i in PendingFor(r.store, u) <==> i in pending[saved..]
  {
    var s4 := Register(s, ws, u, Some(k));
    var pending := PendingFor(s4.store, u);
    if k == 1 {
      assert pending[0..] == pending;
    } else {
      FlushPendingStore(s4, ws, u, Some(k));
      FlushLeavesRest(s4, ws, u, Completed(Some(k), 2, |pending|));
    }
  }

  /** When the failing operation is the query or one of the saves, the socket is closed with 4002, still registered. */
  lemma AuthenticateFailureCloses(s: State, ws: SocketId, u: UserId, k: nat)
    requires ws in s.status
    requires k == 1 || 2 <= k < 2 + |PendingFor(s.store, u)|
    ensures
      var r := Authenticate(s, ws, Some(u), Some(k));
      && Filed(r, u, ws) && r.status[ws].userId == Some(u)
      && r.status[ws].ready != Open
      && (s.status[ws].ready == Open ==> r.status[ws].ready == Closing && r.status[ws].closure == Some(AuthFailed))
  {
    var s4 := Register(s, ws, u, Some(k));
    if k != 1 {
      FlushPendingStore(s4, ws, u, Some(k));
    }
  }

  /** An invalid token: the socket is closed with 4002 and nothing else changes. */
  lemma AuthenticateRejected(s: State, ws: SocketId, fault: Option<nat>)
    requires ws in s.status
    ensures
      var r := Authenticate(s, ws, None, fault);
      && r.userSockets == s.userSockets && r.store == s.store && r.users == s.users && r.outbox == s.outbox
      && r.status.Keys == s.status.Keys && r.status[ws].userId == s.status[ws].userId
      && (forall x :: x in s.status && x != ws ==> r.status[x] == s.status[x])
      && (s.status[ws].ready == Open ==> r.status[ws].ready == Closing && r.status[ws].closure == Some(AuthFailed))
      && (s.status[ws].ready != Open ==> r.status[ws] == s.status[ws])
  {
  }

  // ----- direct_message -----

  /**
   * The steps of a direct message that is stored with no failure: the save,
   * both `$addToSet` updates, the forward to the `to` key, the delivered save
   * when that key has an entry, and the `sent` acknowledgement.
   */
  lemma SendDirectSteps(s: State, ws: SocketId, u: UserId, data: Json)
    requires Create(DraftOf(data, u), |s.store|, s.clock).Ok?
    ensures
      var m := Create(DraftOf(data, u), |s.store|, s.clock).value;
      var key := ToJsString(Field(data, "to"));
      var delivered := key in s.userSockets;
      var s3 := s.(store := s.store + [m], users := AddConnection(AddConnection(s.users, u, m.to), m.to, u));
      var s4 := SendToUser(s3, key, MessageFrame(m));
      var stored := if delivered then m.(deliveredAt := Some(s.clock)) else m;
      SendDirect(s, ws, u, data, None) == Send(s4.(store := s.store + [stored]), ws, Sent(stored, Field(data, "msgKey"), delivered, m.createdAt))
  {
    var m := Create(DraftOf(data, u), |s.store|, s.clock).value;
    var key := ToJsString(Field(data, "to"));
    var s3 := s.(store := s.store + [m], users := AddConnection(AddConnection(s.users, u, m.to), m.to, u));
    var s4 := SendToUser(s3, key, MessageFrame(m));
    if key !in s.userSockets {
      assert s4.(store := s.store + [m]) == s4;
    }
  }

  /**
   * A valid direct message with every store operation succeeding: the message
   * is appended, from the user bound to the socket, stamped now; it counts as
   * delivered exactly when the recipient has a registry entry; both users list
   * each other as connections.
   */
  lemma SendDirectStores(s: State, ws: SocketId, u: UserId, data: Json)
    requires Create(DraftOf(data, u), |s.store|, s.clock).Ok?
    ensures
      var m := Create(DraftOf(data, u), |s.store|, s.clock).value;
      var delivered := ToJsString(Field(data, "to")) in s.userSockets;
      var r := SendDirect(s, ws, u, data, None);
      && |r.store| == |s.store| + 1 && r.store[..|s.store|] == s.store
      && r.store[|s.store|] == (if delivered then m.(deliveredAt := Some(s.clock)) else m)
      && m.from == u && m.to == CastObjectId(Field(data, "to")).value && m.id == |s.store| && m.createdAt == s.clock
      && (u in s.users ==> m.to in r.users[u].connections)
      && (m.to in s.users ==> u in r.users[m.to].connections)
  {
    SendDirectSteps(s, ws, u, data);
    var m := Create(DraftOf(data, u), |s.store|, s.clock).value;
    var stored := if ToJsString(Field(data, "to")) in s.userSockets then m.(deliveredAt := Some(s.clock)) else m;
    assert (s.store + [stored])[..|s.store|] == s.store;
  }

  /**
   * The stored message goes to every open socket filed under the `to` key,
   * and the sender's socket gets `sent` with the stored message, the echoed
   * `msgKey`, the delivered flag and the creation time.
   */
  lemma SendDirectFrames(s: State, ws: SocketId, u: UserId, data: Json)
    requires Create(DraftOf(data, u), |s.store|, s.clock).Ok? && ws in s.outbox
    ensures
      var m := Create(DraftOf(data, u), |s.store|, s.clock).value;
      var key := ToJsString(Field(data, "to"));
      var r := SendDirect(s, ws, u, data, None);
      && (forall x :: x in SocketsOf(s.userSockets, key) && IsOpen(s.status, x) && x != ws && x in s.outbox ==>
            LastFrame(r.outbox[x]) == Some(MessageFrame(m)))
      && (IsOpen(s.status, ws) ==>
            LastFrame(r.outbox[ws]) == Some(Sent(r.store[|s.store|], Field(data, "msgKey"), key in s.userSockets, s.clock)))
  {
    SendDirectReachesRecipients(s, ws, u, data);
    SendDirectAcksSender(s, ws, u, data);
  }

  /** The outbox after a complete direct message: the fan-out, then `sent` to the sender. */
  lemma SendDirectOutbox(s: State, ws: SocketId, u: UserId, data: Json)
    requires Create(DraftOf(data, u), |s.store|, s.clock).Ok?
    ensures
      var m := Create(DraftOf(data, u), |s.store|, s.clock).value;
      var key := ToJsString(Field(data, "to"));
      var delivered := key in s.userSockets;
      var s4 := SendToUser(s.(store := s.store + [m], users := AddConnection(AddConnection(s.users, u, m.to), m.to, u)), key, MessageFrame(m));
      var stored := if delivered then m.(deliveredAt := Some(s.clock)) else m;
      && s4.status == s.status
      && SendDirect(s, ws, u, data, None).outbox == Emit(s4.outbox, s.status, ws, Sent(stored, Field(data, "msgKey"), delivered, m.createdAt))
  {
    SendDirectSteps(s, ws, u, data);
  }

  /** Every other open socket of the recipient ends with the message frame. */
  lemma SendDirectReachesRecipients(s: State, ws: SocketId, u: UserId, data: Json)
    requires Create(DraftOf(data, u), |s.store|, s.clock).Ok?
    ensures
      var m := Create(DraftOf(data, u), |s.store|, s.clock).value;
      var r := SendDirect(s, ws, u, data, None);
      forall x :: x in SocketsOf(s.userSockets, ToJsString(Field(data, "to"))) && IsOpen(s.status, x) && x != ws && x in s.outbox ==>
        LastFrame(r.outbox[x]) == Some(MessageFrame(m))
  {
    SendDirectOutbox(s, ws, u, data);
    var m := Create(DraftOf(data, u), |s.store|, s.clock).value;
    var key := ToJsString(Field(data, "to"));
    var s3 := s.(store := s.store + [m], users := AddConnection(AddConnection(s.users, u, m.to), m.to, u));
    var s4 := SendToUser(s3, key, MessageFrame(m));
    var stored := if key in s.userSockets then m.(deliveredAt := Some(s.clock)) else m;
    var f := Sent(stored, Field(data, "msgKey"), key in s.userSockets, m.createdAt);
    EmitAppends(s4.outbox, s.status, ws, f);
    forall x | x in SocketsOf(s.userSockets, key) && IsOpen(s.status, x) && x != ws && x in s.outbox
      ensures LastFrame(SendDirect(s, ws, u, data, None).outbox[x]) == Some(MessageFrame(m))
    {
      FanoutDelivers(s3.outbox, s3.status, SocketsOf(s3.userSockets, key), MessageFrame(m), x);
    }
  }

  /** The sender's open socket ends with `sent`, carrying the stored message. */
  lemma SendDirectAcksSender(s: State, ws: SocketId, u: UserId, data: Json)
    requires Create(DraftOf(data, u), |s.store|, s.clock).Ok? && ws in s.outbox
    ensures
      var r := SendDirect(s, ws, u, data, None);
      var key := ToJsString(Field(data, "to"));
      IsOpen(s.status, ws) ==>
        LastFrame(r.outbox[ws]) == Some(Sent(r.store[|s.store|], Field(data, "msgKey"), key in s.userSockets, s.clock))
  {
    SendDirectOutbox(s, ws, u, data);
    SendDirectStores(s, ws, u, data);
    var m := Create(DraftOf(data, u), |s.store|, s.clock).value;
    var key := ToJsString(Field(data, "to"));
    var s4 := SendToUser(s.(store := s.store + [m], users := AddConnection(AddConnection(s.users, u, m.to), m.to, u)), key, MessageFrame(m));
    var stored := if key in s.userSockets then m.(deliveredAt := Some(s.clock)) else m;
    EmitAppends(s4.outbox, s.status, ws, Sent(stored, Field(data, "msgKey"), key in s.userSockets, m.createdAt));
  }

  /**
   * A direct message that cannot be stored: a draft the schema rejects, or a
   * failing first save, leaves the store and the users unchanged and answers
   * the sender with the error frame.
   */
  lemma SendDirectRejected(s: State, ws: SocketId, u: UserId, data: Json, fault: Option<nat>)
    requires ws in s.outbox
    requires Create(DraftOf(data, u), |s.store|, s.clock).Err? || fault == Some(0)
    ensures
      var r := SendDirect(s, ws, u, data, fault);
      && r.store == s.store && r.users == s.users
      && (IsOpen(s.status, ws) ==> LastFrame(r.outbox[ws]) == Some(Error(SendFailed)))
  {
    FanoutDelivers(s.outbox, s.status, {ws}, Error(SendFailed), ws);
  }

  /**
   * A save or update that fails after the message was stored still answers
   * the sender with the error frame; the stored message stays undelivered.
   */
  lemma SendDirectLateFailure(s: State, ws: SocketId, u: UserId, data: Json, k: nat)
    requires ws in s.outbox && Create(DraftOf(data, u), |s.store|, s.clock).Ok?
    requires k == 1 || k == 2 || (k == 3 && ToJsString(Field(data, "to")) in s.userSockets)
    ensures
      var m := Create(DraftOf(data, u), |s.store|, s.clock).value;
      var r := SendDirect(s, ws, u, data, Some(k));
      && r.store == s.store + [m]
      && (IsOpen(s.status, ws) ==> LastFrame(r.outbox[ws]) == Some(Error(SendFailed)))
  {
    var m := Create(DraftOf(data, u), |s.store|, s.clock).value;
    var key := ToJsString(Field(data, "to"));
    var s1 := s.(store := s.store + [m]);
    var s2 := s1.(users := AddConnection(s1.users, u, m.to));
    var s3 := s2.(users := AddConnection(s2.users, m.to, u));
    var s4 := SendToUser(s3, key, MessageFrame(m));
    var before := if k == 1 then s1 else if k == 2 then s2 else s4;
    if k == 1 {
      SendDirectStepsTo(s, ws, u, data, 1);
    } else if k == 2 {
      SendDirectStepsTo(s, ws, u, data, 2);
    } else {
      SendDirectStepsTo(s, ws, u, data, 3);
    }
    EmitAppends(before.outbox, before.status, ws, Error(SendFailed));
  }

  /**
   * `sendToUser` reports success as soon as the recipient has a registry
   * entry, even when none of its sockets is open any more: the message is then
   * marked delivered although no socket received it, and no later connection
   * sends it again.
   */
  lemma DeliveredWithoutOpenSocket(s: State, ws: SocketId, u: UserId, data: Json)
    requires Create(DraftOf(data, u), |s.store|, s.clock).Ok?
    requires ToJsString(Field(data, "to")) in s.userSockets
    requires forall x :: x in SocketsOf(s.userSockets, ToJsString(Field(data, "to"))) ==> !IsOpen(s.status, x)
    ensures
      var m := Create(DraftOf(data, u), |s.store|, s.clock).value;
      var r := SendDirect(s, ws, u, data, None);
      && r.store[|s.store|].deliveredAt == Some(s.clock)
      && !IsPending(r.store[|s.store|], m.to)
      && (forall x :: x in s.outbox && x != ws ==> r.outbox[x] == s.outbox[x])
  {
    SendDirectSteps(s, ws, u, data);
    SendDirectStores(s, ws, u, data);
    var key := ToJsString(Field(data, "to"));
    var m := Create(DraftOf(data, u), |s.store|, s.clock).value;
    var s3 := s.(store := s.store + [m], users := AddConnection(AddConnection(s.users, u, m.to), m.to, u));
    var s4 := SendToUser(s3, key, MessageFrame(m));
    var stored := m.(deliveredAt := Some(s.clock));
    var f := Sent(stored, Field(data, "msgKey"), true, m.createdAt);
    forall x | x in s.outbox && x != ws ensures SendDirect(s, ws, u, data, None).outbox[x] == s.outbox[x] {
      FanoutDelivers(s3.outbox, s3.status, SocketsOf(s3.userSockets, key), MessageFrame(m), x);
      FanoutDelivers(s4.outbox, s4.status, {ws}, f, x);
    }
  }

  // ----- read -----

  /**
   * `read` with every save succeeding: each message to the user that was
   * unread is marked read now, nothing else in the store changes and no
   * message to the user is left unread; the registry and statuses are untouched.
   */
  lemma MarkAllReadMarksAll(s: State, u: UserId)
    ensures
      var r := MarkAllRead(s, u, None);
      && |r.store| == |s.store|
      && (forall i :: 0 <= i < |s.store| ==>
            r.store[i] == if IsUnread(s.store[i], u) then s.store[i].(readAt := Some(s.clock)) else s.store[i])
      && (forall i :: 0 <= i < |r.store| ==> !IsUnread(r.store[i], u))
      && r.userSockets == s.userSockets && r.status == s.status && r.users == s.users
  {
    var unread := UnreadFor(s.store, u);
    UnreadPrefixReplayable(s, u, |unread|);
    assert unread[..|unread|] == unread;
    var r := MarkAllRead(s, u, None);
    MarkAllReadReplaysAll(s, u);
    forall i | 0 <= i < |s.store|
      ensures r.store[i] == if IsUnread(s.store[i], u) then s.store[i].(readAt := Some(s.clock)) else s.store[i]
    {
      ReplayStore(s, Read, unread, i);
      assert i in unread <==> IsUnread(s.store[i], u);
    }
    ReadLeavesRest(s, u, |unread|);
    forall i | 0 <= i < |r.store| ensures !IsUnread(r.store[i], u) {
      assert i !in UnreadFor(r.store, u);
    }
  }

  /** With every save succeeding, `read` runs the pass over the whole unread list. */
  lemma MarkAllReadReplaysAll(s: State, u: UserId)
    ensures MarkAllRead(s, u, None) == Replay(s, Read, UnreadFor(s.store, u))
  {
    var unread := UnreadFor(s.store, u);
    assert Completed(None, 1, |unread|) == |unread|;
    assert unread[..|unread|] == unread;
  }
  /**
   * With every save succeeding, `read` sends each open socket, in store
   * order, one `read` receipt per unread message whose sender has that socket
   * registered, and no other receipt.
   */
  lemma MarkAllReadSendsReceipts(s: State, u: UserId, x: SocketId)
    requires x in s.outbox && IsOpen(s.status, x)
    ensures
      var r := MarkAllRead(s, u, None);
      && x in r.outbox
      && ReceiptFrames(r.outbox[x]) == ReceiptFrames(s.outbox[x])
           + ReceiptsTo(s.userSockets, s.store, s.clock, Read, UnreadFor(s.store, u), x)
  {
    var unread := UnreadFor(s.store, u);
    MarkAllReadReplaysAll(s, u);
    UnreadPrefixReplayable(s, u, |unread|);
    assert unread[..|unread|] == unread;
    ReplayReceipts(s, Read, unread, x);
  }

  /**
   * With every save succeeding, the sender of each message `read` marks gets,
   * on every open socket it has registered, a `read` receipt carrying the
   * message stamped read now.
   */
  lemma MarkAllReadNotifiesSenders(s: State, u: UserId, x: SocketId)
    requires x in s.outbox && IsOpen(s.status, x)
    ensures
      var r := MarkAllRead(s, u, None);
      var unread := UnreadFor(s.store, u);
      && x in r.outbox
      && forall k :: 0 <= k < |unread| && x in SocketsOf(s.userSockets, s.store[unread[k]].from) ==>
           ReadReceipt(s.store[unread[k]].(readAt := Some(s.clock))) in r.outbox[x]
  {
    MarkAllReadSendsReceipts(s, u, x);
    var r := MarkAllRead(s, u, None);
    var unread := UnreadFor(s.store, u);
    forall k | 0 <= k < |unread| && x in SocketsOf(s.userSockets, s.store[unread[k]].from)
      ensures ReadReceipt(s.store[unread[k]].(readAt := Some(s.clock))) in r.outbox[x]
    {
      ReceiptsToCovers(s.userSockets, s.store, s.clock, Read, unread, x, k);
      ReceiptFramesWritten(r.outbox[x], ReadReceipt(s.store[unread[k]].(readAt := Some(s.clock))));
    }
  }


  /** A failing save in `read` leaves that message and every later one unread. */
  lemma MarkAllReadFailureKeepsRest(s: State, u: UserId, k: nat)
    requires 1 <= k
    ensures
      var r := MarkAllRead(s, u, Some(k));
      var unread := UnreadFor(s.store, u);
      forall i: nat :: i in UnreadFor(r.store, u) <==> i in unread[Completed(Some(k), 1, |unread|)..]
  {
    ReadLeavesRest(s, u, Completed(Some(k), 1, |UnreadFor(s.store, u)|));
  }

  /** Each pass iteration sends its receipt to every open socket of the message's sender. */
  lemma ReceiptToSender(s: State, p: Pass, i: nat, x: SocketId)
    requires i < |s.store| && x in s.outbox && IsOpen(s.status, x)
    requires x in SocketsOf(s.userSockets, s.store[i].from)
    ensures
      var m := Stamp(s.store[i], p, s.clock);
      LastFrame(ReplayOne(s, p, i).outbox[x]) == Some(if p.Read? then ReadReceipt(m) else Delivered(m))
  {
    var m := Stamp(s.store[i], p, s.clock);
    match p
    case Deliver(ws) =>
      var s1 := Send(s, ws, MessageFrame(s.store[i]));
      var s2 := s1.(store := s.store[i := m]);
      FanoutDelivers(s2.outbox, s2.status, SocketsOf(s2.userSockets, m.from), Delivered(m), x);
    case Read =>
      var s2 := s.(store := s.store[i := m]);
      FanoutDelivers(s2.outbox, s2.status, SocketsOf(s2.userSockets, m.from), ReadReceipt(m), x);
  }

  // ----- typing, ping, unknown -----

  /**
   * A typing frame from an authenticated socket is forwarded to every open
   * socket filed under the `to` key, and nothing is stored.
   */
  lemma TypingOnlyForwards(s: State, ws: SocketId, raw: Option<Json>, verify: Json -> Option<UserId>, now: nat, fault: Option<nat>)
    requires ws in s.status && s.status[ws].userId.Some?
    requires Classify(true, raw).TypingForward?
    ensures
      var a := Classify(true, raw);
      var r := HandleFrame(s, ws, raw, verify, now, fault);
      var targets := SocketsOf(s.userSockets, ToJsString(a.to));
      && r.store == s.store && r.users == s.users && r.userSockets == s.userSockets && r.status == s.status
      && r.outbox.Keys == s.outbox.Keys
      && (forall x :: x in s.outbox ==>
            r.outbox[x] == if x in targets && IsOpen(s.status, x) then s.outbox[x] + [Typing(s.status[ws].userId.value, a.state)] else s.outbox[x])
  {
    var a := Classify(true, raw);
    forall x | x in s.outbox
      ensures HandleFrame(s, ws, raw, verify, now, fault).outbox[x] ==
        if x in SocketsOf(s.userSockets, ToJsString(a.to)) && IsOpen(s.status, x) then s.outbox[x] + [Typing(s.status[ws].userId.value, a.state)] else s.outbox[x]
    {
      FanoutDelivers(s.outbox, s.status, SocketsOf(s.userSockets, ToJsString(a.to)), Typing(s.status[ws].userId.value, a.state), x);
    }
  }

  /**
   * Frames that change nothing but the transcript of the socket itself: a
   * `ping` is answered with `pong`, an unknown type with the error frame, and
   * an unparseable frame is dropped.
   */
  lemma ReplyOnlyFrames(s: State, ws: SocketId, raw: Option<Json>, verify: Json -> Option<UserId>, now: nat, fault: Option<nat>)
    requires ws in s.status && ws in s.outbox
    requires Classify(s.status[ws].userId.Some?, raw) in {Ping, Unknown, Drop}
    ensures
      var a := Classify(s.status[ws].userId.Some?, raw);
      var r := HandleFrame(s, ws, raw, verify, now, fault);
      && r.store == s.store && r.users == s.users && r.userSockets == s.userSockets && r.status == s.status
      && (forall x :: x in s.outbox && x != ws ==> r.outbox[x] == s.outbox[x])
      && r.outbox[ws] == if a.Drop? || !IsOpen(s.status, ws) then s.outbox[ws] else s.outbox[ws] + [if a.Ping? then Pong else Error(UnknownType)]
  {
    var a := Classify(s.status[ws].userId.Some?, raw);
    forall x | x in s.outbox {
      FanoutDelivers(s.outbox, s.status, {ws}, if a.Ping? then Pong else Error(UnknownType), x);
    }
  }

  // ----- the auth timer -----

  /**
   * The auth timer closes the socket with 4003 exactly when it is still
   * armed, no user is bound to the socket and the socket is open; it never
   * fires twice.
   */
  lemma TimeoutClosesOnlyUnbound(s: State, ws: SocketId)
    requires ws in s.status
    ensures
      var c := s.status[ws];
      var r := AuthTimeout(s, ws);
      && ws in r.status && !r.status[ws].timerArmed
      && (r.status[ws].ready != c.ready <==> c.timerArmed && c.userId.None? && c.ready == Open)
      && (r.status[ws].ready != c.ready ==> r.status[ws].ready == Closing && r.status[ws].closure == Some(AuthTimedOut))
      && r.status[ws].userId == c.userId
      && r.userSockets == s.userSockets && r.store == s.store && r.users == s.users && r.outbox == s.outbox
  {
  }

  // ----- close -----

  /**
   * The close of a bound socket takes it out of the registry; its user goes
   * offline exactly when it was the user's last socket, and only then is the
   * user's lastSeen recorded.
   */
  lemma CloseLastSocketGoesOffline(s: State, ws: SocketId, now: nat, fault: Option<nat>)
    requires Inv(s) && ws in s.status && s.status[ws].ready != Closed && s.status[ws].userId.Some?
    ensures
      var u := s.status[ws].userId.value;
      var r := HandleClose(s, ws, now, fault);
      && (forall k :: !Filed(r, k, ws))
      && (u in r.userSockets <==> SocketsOf(s.userSockets, u) != {ws})
      && (u !in r.userSockets && fault != Some(0) && u in s.users ==> r.users[u].lastSeen == Some(now))
      && (u in r.userSockets ==> r.users == s.users)
      && r.store == s.store && r.status[ws].ready == Closed
  {
    var u := s.status[ws].userId.value;
    assert Live(s, ws);
    assert Filed(s, u, ws);
    InvExclusive(s);
    var r := HandleClose(s, ws, now, fault);
    forall k ensures !Filed(r, k, ws) {
      if k != u && k in s.userSockets {
        assert ws !in s.userSockets[k];
      }
    }
  }

  /** The close of a socket with no user bound only marks it closed. */
  lemma CloseUnbound(s: State, ws: SocketId, now: nat, fault: Option<nat>)
    requires ws in s.status && s.status[ws].userId.None?
    ensures HandleClose(s, ws, now, fault) == s.(clock := now, status := s.status[ws := s.status[ws].(ready := Closed)])
  {
  }

  // ----- the online list -----

  /**
   * Registering a socket announces the new list of online users to every
   * open registered socket, the new one included; other sockets get nothing.
   */
  lemma RegisterAnnounces(s: State, u: UserId, ws: SocketId, x: SocketId)
    requires x in s.outbox
    ensures
      var r := AddSocketForUser(s, u, ws);
      && u in r.userSockets && ws in r.userSockets[u]
      && r.outbox[x] == if x in OnlineSockets(r.userSockets) && IsOpen(s.status, x)
                        then s.outbox[x] + [OnlineUsers(r.userSockets.Keys)] else s.outbox[x]
  {
    var reg := AddSocket(s.userSockets, u, ws);
    FanoutDelivers(s.outbox, s.status, OnlineSockets(reg), OnlineUsers(reg.Keys), x);
  }
  /**
   * `removeSocketForUser`: a user without an entry leaves everything as it
   * was, nothing broadcast; otherwise the socket leaves the user's set and
   * the registry's key set goes to every open socket still registered.
   */
  lemma DeregisterAnnounces(s: State, u: UserId, ws: SocketId, x: SocketId)
    requires x in s.outbox
    ensures u !in s.userSockets ==> RemoveSocketForUser(s, u, ws) == s
    ensures
      var r := RemoveSocketForUser(s, u, ws);
      u in s.userSockets ==>
        && r.userSockets == RemoveSocket(s.userSockets, u, ws) && ws !in SocketsOf(r.userSockets, u)
        && r.outbox[x] == if x in OnlineSockets(r.userSockets) && IsOpen(s.status, x)
                          then s.outbox[x] + [OnlineUsers(r.userSockets.Keys)] else s.outbox[x]
  {
    if u in s.userSockets {
      var reg := RemoveSocket(s.userSockets, u, ws);
      FanoutDelivers(s.outbox, s.status, OnlineSockets(reg), OnlineUsers(reg.Keys), x);
    }
  }

  /**
   * The `close` event of an authenticated socket announces the new online
   * list to every other open registered socket, only when the user had an
   * entry, and writes nothing else.
   */
  lemma CloseAnnounces(s: State, ws: SocketId, now: nat, fault: Option<nat>, x: SocketId)
    requires ws in s.status && s.status[ws].userId.Some? && x in s.outbox
    ensures
      var u := s.status[ws].userId.value;
      var reg := RemoveSocket(s.userSockets, u, ws);
      var r := HandleClose(s, ws, now, fault);
      r.outbox[x] == if u in s.userSockets && x in OnlineSockets(reg) && x != ws && IsOpen(s.status, x)
                     then s.outbox[x] + [OnlineUsers(reg.Keys)] else s.outbox[x]
  {
    var u := s.status[ws].userId.value;
    var s0 := s.(clock := now, status := s.status[ws := s.status[ws].(ready := Closed)]);
    DeregisterAnnounces(s0, u, ws, x);
  }


  // ----- the store only grows -----

  lemma FlushEvolves(s: State, ws: SocketId, u: UserId, fault: Option<nat>)
    requires ws in s.status
    ensures Evolves(s.store, FlushPending(s, ws, u, fault).store)
  {
    var n := Completed(fault, 2, |PendingFor(s.store, u)|);
    PendingPrefixReplayable(s, u, ws, n);
    ReplayEvolves(s, Deliver(ws), PendingFor(s.store, u)[..n]);
  }

  lemma AuthenticateEvolves(s: State, ws: SocketId, identity: Option<UserId>, fault: Option<nat>)
    requires ws in s.status
    ensures Evolves(s.store, Authenticate(s, ws, identity, fault).store)
  {
    if identity.Some? {
      var u := identity.value;
      var s4 := Register(s, ws, u, fault);
      if fault != Some(1) {
        FlushEvolves(s4, ws, u, fault);
      }
    }
  }

  /**
   * No frame ever deletes or rewrites a stored message: it can only append
   * one and fill in a delivered or read time that was null.
   */
  lemma HandleFrameEvolves(s: State, ws: SocketId, raw: Option<Json>, verify: Json -> Option<UserId>, now: nat, fault: Option<nat>)
    requires ws in s.status
    ensures Evolves(s.store, HandleFrame(s, ws, raw, verify, now, fault).store)
  {
    var s0 := s.(clock := now);
    var bound := s.status[ws].userId;
    match Classify(bound.Some?, raw)
    case Identify(token) => AuthenticateEvolves(s0, ws, verify(token), fault);
    case DirectMessage(data) =>
      if bound.Some? { SendDirectEvolves(s0, ws, bound.value, data, fault); }
    case MarkRead =>
      if bound.Some? { MarkAllReadEvolves(s0, bound.value, fault); }
    case _ =>
  }

  lemma SendDirectEvolves(s: State, ws: SocketId, u: UserId, data: Json, fault: Option<nat>)
    ensures Evolves(s.store, SendDirect(s, ws, u, data, fault).store)
  {
  }

  lemma MarkAllReadEvolves(s: State, u: UserId, fault: Option<nat>)
    ensures Evolves(s.store, MarkAllRead(s, u, fault).store)
  {
    if fault != Some(0) {
      var n := Completed(fault, 1, |UnreadFor(s.store, u)|);
      UnreadPrefixReplayable(s, u, n);
      ReplayEvolves(s, Read, UnreadFor(s.store, u)[..n]);
    }
  }

  /** A new connection, with or without a token in its URL, only fills in delivered times. */
  lemma ConnectEvolves(s: State, ws: SocketId, urlToken: Option<string>, verify: Json -> Option<UserId>, now: nat, fault: Option<nat>)
    requires ws !in s.status
    ensures Evolves(s.store, Connect(s, ws, urlToken, verify, now, fault).store)
  {
    var s1 := s.(clock := now,
                 status := s.status[ws := Conn(Open, None, true, None)],
                 outbox := s.outbox[ws := []]);
    if urlToken.Some? && urlToken.value != "" {
      AuthenticateEvolves(s1, ws, verify(JStr(urlToken.value)), fault);
    }
  }

  /** A new connection starts open, unbound, with its auth timer armed, and without a URL token nothing else happens. */
  lemma ConnectWithoutToken(s: State, ws: SocketId, urlToken: Option<string>, verify: Json -> Option<UserId>, now: nat, fault: Option<nat>)
    requires ws !in s.status && (urlToken.None? || urlToken == Some(""))
    ensures
      var r := Connect(s, ws, urlToken, verify, now, fault);
      && r.status == s.status[ws := Conn(Open, None, true, None)]
      && r.outbox == s.outbox[ws := []]
      && r.userSockets == s.userSockets && r.store == s.store && r.users == s.users
  {
  }
}
