/**
 * Every event keeps the server's invariant: the registry holds exactly the
 * authenticated sockets whose close has not been handled, no entry is empty,
 * and the message store stays well formed.
 */
module Invariants {
  import opened Wrappers
  import opened Json
  import opened MessageModel
  import opened MessageStore
  import opened Registry
  import opened Protocol
  import opened Delivery

  /** The registry part of the invariant, which only the registry and the statuses decide. */
  ghost predicate RegistryInv(s: State)
  {
    && NoEmptyEntries(s.userSockets)
    && (forall k, x :: Filed(s, k, x) ==> Live(s, x) && s.status[x].userId.value == k)
    && (forall x :: Live(s, x) ==> Filed(s, s.status[x].userId.value, x))
  }

  lemma InvParts(s: State)
    ensures Inv(s) <==>
      && RegistryInv(s)
      && s.outbox.Keys == s.status.Keys
      && WellFormed(s.store, s.clock)
      && (forall x :: x in s.status && s.status[x].closure.Some? ==> s.status[x].ready != Open)
  {
  }

  /** Under the invariant each socket is filed under one user only. */
  lemma InvExclusive(s: State)
    requires Inv(s)
    ensures Exclusive(s.userSockets)
  {
    forall k1, k2, x | k1 in s.userSockets && k2 in s.userSockets && x in s.userSockets[k1] && x in s.userSockets[k2]
      ensures k1 == k2
    {
      assert Filed(s, k1, x) && Filed(s, k2, x);
    }
  }

  lemma WellFormedLater(store: seq<Message>, c0: nat, c1: nat)
    requires WellFormed(store, c0) && c0 <= c1
    ensures WellFormed(store, c1)
  {
  }

  /** A step that leaves the registry and the statuses alone keeps the invariant if the store stays well formed. */
  lemma FrameKeepsInv(s: State, t: State)
    requires Inv(s)
    requires t.userSockets == s.userSockets && t.status == s.status && t.outbox.Keys == s.outbox.Keys
    requires WellFormed(t.store, t.clock)
    ensures Inv(t)
  {
    forall k, x ensures Filed(t, k, x) <==> Filed(s, k, x) {}
    forall x ensures Live(t, x) <==> Live(s, x) {}
  }

  lemma SendKeepsInv(s: State, ws: SocketId, f: OutFrame)
    requires Inv(s)
    ensures Inv(Send(s, ws, f))
  {
    FrameKeepsInv(s, Send(s, ws, f));
  }

  lemma SendToUserKeepsInv(s: State, key: string, f: OutFrame)
    requires Inv(s)
    ensures Inv(SendToUser(s, key, f))
  {
    FrameKeepsInv(s, SendToUser(s, key, f));
  }

  /** Starting to close a socket keeps it in the registry until its close event. */
  lemma CloseKeepsInv(s: State, ws: SocketId, c: Closure)
    requires Inv(s) && ws in s.status
    ensures Inv(Close(s, ws, c))
  {
    var t := Close(s, ws, c);
    forall x ensures Live(t, x) <==> Live(s, x) {}
    forall x | Live(t, x) ensures t.status[x].userId == s.status[x].userId {}
    forall k, x ensures Filed(t, k, x) <==> Filed(s, k, x) {}
  }

  /** Stamping a message with the current time keeps the store well formed. */
  lemma StampKeepsWellFormed(store: seq<Message>, clock: nat, i: nat, p: Pass)
    requires WellFormed(store, clock) && i < |store|
    ensures WellFormed(store[i := Stamp(store[i], p, clock)], clock)
  {
  }

  lemma ReplayOneKeepsInv(s: State, p: Pass, i: nat)
    requires Inv(s) && i < |s.store|
    ensures Inv(ReplayOne(s, p, i))
  {
    StampKeepsWellFormed(s.store, s.clock, i, p);
    FrameKeepsInv(s, ReplayOne(s, p, i));
  }

  lemma {:induction false} ReplayKeepsInv(s: State, p: Pass, idx: seq<nat>)
    requires Inv(s) && InStore(s, idx)
    ensures Inv(Replay(s, p, idx))
    decreases |idx|
  {
    if idx != [] {
      var init := idx[..|idx| - 1];
      ReplayKeepsInv(s, p, init);
      ReplayOneKeepsInv(Replay(s, p, init), p, idx[|idx| - 1]);
    }
  }

  /** A socket with no user bound is in no entry of the registry. */
  lemma UnboundNotFiled(s: State, ws: SocketId)
    requires Inv(s) && ws in s.status && s.status[ws].userId.None?
    ensures forall k :: !Filed(s, k, ws)
  {
  }

  /** What filing an unbound socket needs: the registry is exclusive and the socket is in none of its entries. */
  lemma UnboundOutsideRegistry(s: State, ws: SocketId)
    requires Inv(s) && ws in s.status && s.status[ws].userId.None?
    ensures Exclusive(s.userSockets)
    ensures forall k :: k in s.userSockets ==> ws !in s.userSockets[k]
  {
    UnboundNotFiled(s, ws);
    InvExclusive(s);
    forall k | k in s.userSockets ensures ws !in s.userSockets[k] {
      assert !Filed(s, k, ws);
    }
  }

  /** Registering an authenticated socket under its user. */
  lemma RegisterKeepsInv(s: State, ws: SocketId, u: UserId, fault: Option<nat>)
    requires Inv(s) && ws in s.status && s.status[ws].userId.None? && s.status[ws].ready != Closed
    ensures Inv(Register(s, ws, u, fault))
  {
    var t := s.(status := s.status[ws := s.status[ws].(userId := Some(u))], userSockets := AddSocket(s.userSockets, u, ws));
    var r := Register(s, ws, u, fault);
    BindKeepsRegistryInv(s, ws, u);
    RegistryInvFrame(t, r);
    InvParts(s);
    InvParts(r);
  }

  /** The registry part of the invariant depends on the registry and the statuses only. */
  lemma RegistryInvFrame(s: State, t: State)
    requires RegistryInv(s) && t.userSockets == s.userSockets && t.status == s.status
    ensures RegistryInv(t)
  {
    forall k, x ensures Filed(t, k, x) <==> Filed(s, k, x) {}
    forall x ensures Live(t, x) <==> Live(s, x) {}
  }

  /** Binding an unbound live socket to `u` and filing it under `u` keeps the registry part of the invariant. */
  lemma BindKeepsRegistryInv(s: State, ws: SocketId, u: UserId)
    requires Inv(s) && ws in s.status && s.status[ws].userId.None? && s.status[ws].ready != Closed
    ensures RegistryInv(s.(status := s.status[ws := s.status[ws].(userId := Some(u))], userSockets := AddSocket(s.userSockets, u, ws)))
  {
    var t := s.(status := s.status[ws := s.status[ws].(userId := Some(u))], userSockets := AddSocket(s.userSockets, u, ws));
    AddSocketKeepsInvariant(s.userSockets, u, ws);
    UnboundNotFiled(s, ws);
    forall k | k != u ensures !Filed(t, k, ws) {
      assert !Filed(s, k, ws);
    }
    forall k, x | Filed(t, k, x) ensures Live(t, x) && t.status[x].userId.value == k {
      if x != ws {
        assert Filed(s, k, x);
      }
    }
    forall x | Live(t, x) ensures Filed(t, t.status[x].userId.value, x) {
      if x != ws {
        assert Live(s, x);
        assert Filed(s, s.status[x].userId.value, x);
      }
    }
  }

  lemma DisarmKeepsInv(s: State, ws: SocketId)
    requires Inv(s) && ws in s.status
    ensures Inv(s.(status := s.status[ws := s.status[ws].(timerArmed := false)]))
  {
    var t := s.(status := s.status[ws := s.status[ws].(timerArmed := false)]);
    forall x ensures Live(t, x) <==> Live(s, x) {}
    forall x | Live(t, x) ensures t.status[x].userId == s.status[x].userId {}
    forall k, x ensures Filed(t, k, x) <==> Filed(s, k, x) {}
  }

  /** The delivery loop keeps the invariant, whether it finishes or a save fails. */
  lemma FlushPendingKeepsInv(s: State, ws: SocketId, u: UserId, fault: Option<nat>)
    requires Inv(s) && ws in s.status
    ensures Inv(FlushPending(s, ws, u, fault))
  {
    var pending := PendingFor(s.store, u);
    var n := Completed(fault, 2, |pending|);
    var s5 := Replay(s, Deliver(ws), pending[..n]);
    ReplayKeepsInv(s, Deliver(ws), pending[..n]);
    if n < |pending| {
      var s6 := Send(s5, ws, MessageFrame(s5.store[pending[n]]));
      SendKeepsInv(s5, ws, MessageFrame(s5.store[pending[n]]));
      CloseKeepsInv(s6, ws, AuthFailed);
    } else {
      DisarmKeepsInv(s5, ws);
    }
  }

  /** `finalizeAuth` on a socket with no user bound yet keeps the invariant, whichever way it ends. */
  lemma AuthenticateKeepsInv(s: State, ws: SocketId, identity: Option<UserId>, fault: Option<nat>)
    requires Inv(s) && ws in s.status && s.status[ws].userId.None? && s.status[ws].ready != Closed
    ensures Inv(Authenticate(s, ws, identity, fault))
  {
    match identity
    case None => CloseKeepsInv(s, ws, AuthFailed);
    case Some(u) =>
      RegisterKeepsInv(s, ws, u, fault);
      var s4 := Register(s, ws, u, fault);
      if fault == Some(1) {
        CloseKeepsInv(s4, ws, AuthFailed);
      } else {
        FlushPendingKeepsInv(s4, ws, u, fault);
      }
  }

  /** A message created now may be appended: it is the newest and its position is its identity. */
  lemma AppendKeepsWellFormed(store: seq<Message>, clock: nat, m: Message)
    requires WellFormed(store, clock)
    requires m.id == |store| && m.createdAt == clock && Stamped(m, clock)
    ensures WellFormed(store + [m], clock)
  {
  }

  /** Storing a message and telling the users about it leaves the registry and the statuses alone. */
  lemma SendDirectKeepsInv(s: State, ws: SocketId, u: UserId, data: Json, fault: Option<nat>)
    requires Inv(s)
    ensures Inv(SendDirect(s, ws, u, data, fault))
  {
    var r := SendDirect(s, ws, u, data, fault);
    if r.store != s.store {
      var m := Create(DraftOf(data, u), |s.store|, s.clock).value;
      AppendKeepsWellFormed(s.store, s.clock, m);
      AppendKeepsWellFormed(s.store, s.clock, m.(deliveredAt := Some(s.clock)));
    }
    FrameKeepsInv(s, r);
  }

  lemma MarkAllReadKeepsInv(s: State, u: UserId, fault: Option<nat>)
    requires Inv(s)
    ensures Inv(MarkAllRead(s, u, fault))
  {
    if fault != Some(0) {
      var unread := UnreadFor(s.store, u);
      ReplayKeepsInv(s, Read, unread[..Completed(fault, 1, |unread|)]);
    }
  }

  /** The `message` handler keeps the invariant on a socket whose close has not been handled. */
  lemma HandleFrameKeepsInv(s: State, ws: SocketId, raw: Option<Json>, verify: Json -> Option<UserId>, now: nat, fault: Option<nat>)
    requires Inv(s) && ws in s.status && s.status[ws].ready != Closed && s.clock <= now
    ensures Inv(HandleFrame(s, ws, raw, verify, now, fault))
  {
    var bound := s.status[ws].userId;
    var action := Classify(bound.Some?, raw);
    if action.Identify? {
      IdentifyKeepsInv(s, ws, raw, verify, now, fault);
    } else if bound.Some? && (action.DirectMessage? || action.TypingForward? || action.MarkRead?) {
      BoundFrameKeepsInv(s, ws, bound.value, raw, verify, now, fault);
    } else {
      ReplyFrameKeepsInv(s, ws, raw, verify, now, fault);
    }
  }

  /** A frame that neither identifies nor acts for a bound user at most answers on `ws`, and keeps the invariant. */
  lemma ReplyFrameKeepsInv(s: State, ws: SocketId, raw: Option<Json>, verify: Json -> Option<UserId>, now: nat, fault: Option<nat>)
    requires Inv(s) && ws in s.status && s.clock <= now
    requires !Classify(s.status[ws].userId.Some?, raw).Identify?
    requires s.status[ws].userId.None? || !(Classify(true, raw).DirectMessage? || Classify(true, raw).TypingForward? || Classify(true, raw).MarkRead?)
    ensures Inv(HandleFrame(s, ws, raw, verify, now, fault))
  {
    var s0 := s.(clock := now);
    var action := Classify(s.status[ws].userId.Some?, raw);
    FrameKeepsInv(s, s0);
    if action.Ping? {
      assert HandleFrame(s, ws, raw, verify, now, fault) == Send(s0, ws, Pong);
      SendKeepsInv(s0, ws, Pong);
    } else if action.Unknown? {
      assert HandleFrame(s, ws, raw, verify, now, fault) == Send(s0, ws, Error(UnknownType));
      SendKeepsInv(s0, ws, Error(UnknownType));
    } else {
      assert HandleFrame(s, ws, raw, verify, now, fault) == s0;
    }
  }

  /** An `identify` frame keeps the invariant. */
  lemma IdentifyKeepsInv(s: State, ws: SocketId, raw: Option<Json>, verify: Json -> Option<UserId>, now: nat, fault: Option<nat>)
    requires Inv(s) && ws in s.status && s.status[ws].ready != Closed && s.clock <= now
    requires Classify(s.status[ws].userId.Some?, raw).Identify?
    ensures Inv(HandleFrame(s, ws, raw, verify, now, fault))
  {
    var s0 := s.(clock := now);
    FrameKeepsInv(s, s0);
    PreAuthOnlyIdentify(raw);
    PostAuthIdentifyIsUnknown(raw);
    AuthenticateKeepsInv(s0, ws, verify(Classify(s.status[ws].userId.Some?, raw).token), fault);
  }

  /** A frame acting for the user bound to `ws` keeps the invariant. */
  lemma BoundFrameKeepsInv(s: State, ws: SocketId, u: UserId, raw: Option<Json>, verify: Json -> Option<UserId>, now: nat, fault: Option<nat>)
    requires Inv(s) && ws in s.status && s.status[ws].ready != Closed && s.clock <= now
    requires s.status[ws].userId == Some(u)
    requires Classify(true, raw).DirectMessage? || Classify(true, raw).TypingForward? || Classify(true, raw).MarkRead?
    ensures Inv(HandleFrame(s, ws, raw, verify, now, fault))
  {
    var r := HandleFrame(s, ws, raw, verify, now, fault);
    match Classify(true, raw)
    case DirectMessage(data) =>
      assert r == SendDirect(s.(clock := now), ws, u, data, fault);
      LaterSendDirectKeepsInv(s, ws, u, data, now, fault);
    case TypingForward(to, state) =>
      assert r == SendToUser(s.(clock := now), ToJsString(to), Typing(u, state));
      LaterSendToUserKeepsInv(s, ToJsString(to), Typing(u, state), now);
    case MarkRead =>
      assert r == MarkAllRead(s.(clock := now), u, fault);
      LaterMarkAllReadKeepsInv(s, u, now, fault);
  }

  /** `SendDirect`, at a clock reading no earlier than the state's, keeps the invariant. */
  lemma LaterSendDirectKeepsInv(s: State, ws: SocketId, u: UserId, data: Json, now: nat, fault: Option<nat>)
    requires Inv(s) && s.clock <= now
    ensures Inv(SendDirect(s.(clock := now), ws, u, data, fault))
  {
    FrameKeepsInv(s, s.(clock := now));
    SendDirectKeepsInv(s.(clock := now), ws, u, data, fault);
  }

  /** `SendToUser`, at a clock reading no earlier than the state's, keeps the invariant. */
  lemma LaterSendToUserKeepsInv(s: State, key: string, f: OutFrame, now: nat)
    requires Inv(s) && s.clock <= now
    ensures Inv(SendToUser(s.(clock := now), key, f))
  {
    FrameKeepsInv(s, s.(clock := now));
    SendToUserKeepsInv(s.(clock := now), key, f);
  }

  /** `MarkAllRead`, at a clock reading no earlier than the state's, keeps the invariant. */
  lemma LaterMarkAllReadKeepsInv(s: State, u: UserId, now: nat, fault: Option<nat>)
    requires Inv(s) && s.clock <= now
    ensures Inv(MarkAllRead(s.(clock := now), u, fault))
  {
    FrameKeepsInv(s, s.(clock := now));
    MarkAllReadKeepsInv(s.(clock := now), u, fault);
  }

  /** Accepting a socket: open, unbound, its timer armed and its transcript empty. */
  lemma OpenKeepsInv(s: State, ws: SocketId, now: nat)
    requires Inv(s) && ws !in s.status && s.clock <= now
    ensures Inv(s.(clock := now, status := s.status[ws := Conn(Open, None, true, None)], outbox := s.outbox[ws := []]))
  {
    var s1 := s.(clock := now,
                 status := s.status[ws := Conn(Open, None, true, None)],
                 outbox := s.outbox[ws := []]);
    forall k, x | Filed(s1, k, x) ensures Live(s1, x) && s1.status[x].userId.value == k {
      assert Filed(s, k, x);
    }
    forall x | Live(s1, x) ensures Filed(s1, s1.status[x].userId.value, x) {
      assert Live(s, x);
    }
  }

  /** A new connection keeps the invariant. */
  lemma ConnectKeepsInv(s: State, ws: SocketId, urlToken: Option<string>, verify: Json -> Option<UserId>, now: nat, fault: Option<nat>)
    requires Inv(s) && ws !in s.status && s.clock <= now
    ensures Inv(Connect(s, ws, urlToken, verify, now, fault))
  {
    var s1 := s.(clock := now,
                 status := s.status[ws := Conn(Open, None, true, None)],
                 outbox := s.outbox[ws := []]);
    OpenKeepsInv(s, ws, now);
    if urlToken.Some? && urlToken.value != "" {
      AuthenticateKeepsInv(s1, ws, verify(JStr(urlToken.value)), fault);
    }
  }

  /** The auth timer keeps the invariant. */
  lemma AuthTimeoutKeepsInv(s: State, ws: SocketId)
    requires Inv(s) && ws in s.status
    ensures Inv(AuthTimeout(s, ws))
  {
    var c := s.status[ws];
    if c.timerArmed {
      DisarmKeepsInv(s, ws);
      var s1 := s.(status := s.status[ws := c.(timerArmed := false)]);
      CloseKeepsInv(s1, ws, AuthTimedOut);
    }
  }

  /** Closing a socket that was never bound leaves the registry as it was. */
  lemma CloseUnboundKeepsInv(s: State, ws: SocketId, now: nat)
    requires Inv(s) && ws in s.status && s.status[ws].userId.None? && s.clock <= now
    ensures Inv(s.(clock := now, status := s.status[ws := s.status[ws].(ready := Closed)]))
  {
    var s0 := s.(clock := now, status := s.status[ws := s.status[ws].(ready := Closed)]);
    forall k, x | Filed(s0, k, x) ensures Live(s0, x) && s0.status[x].userId.value == k {
      assert Filed(s, k, x);
    }
    forall x | Live(s0, x) ensures Filed(s0, s0.status[x].userId.value, x) {
      assert Live(s, x);
    }
  }

  /** Closing a bound socket and taking it out of its user's entry keeps the registry invariant. */
  lemma DeregisterKeepsInv(s: State, ws: SocketId, u: UserId, now: nat)
    requires Inv(s) && ws in s.status && s.status[ws].userId == Some(u) && s.status[ws].ready != Closed && s.clock <= now
    ensures u in s.userSockets
    ensures Inv(s.(clock := now, status := s.status[ws := s.status[ws].(ready := Closed)],
                   userSockets := RemoveSocket(s.userSockets, u, ws)))
  {
    assert Live(s, ws);
    assert Filed(s, u, ws);
    var t := s.(clock := now, status := s.status[ws := s.status[ws].(ready := Closed)],
                userSockets := RemoveSocket(s.userSockets, u, ws));
    RemoveSocketKeepsInvariant(s.userSockets, u, ws);
    forall k, x | Filed(t, k, x) ensures Live(t, x) && t.status[x].userId.value == k {
      if k == u {
        assert x in s.userSockets[u] - {ws};
        assert Filed(s, u, x);
      } else {
        assert Filed(s, k, x);
      }
    }
    forall x | Live(t, x) ensures Filed(t, t.status[x].userId.value, x) {
      assert x != ws && Live(s, x);
      var k := s.status[x].userId.value;
      assert Filed(s, k, x);
      if k == u { assert x in SocketsOf(t.userSockets, u); }
    }
    assert RegistryInv(t);
    InvParts(t);
  }

  /** The close handler takes the socket out of the registry and keeps the invariant. */
  lemma HandleCloseKeepsInv(s: State, ws: SocketId, now: nat, fault: Option<nat>)
    requires Inv(s) && ws in s.status && s.status[ws].ready != Closed && s.clock <= now
    ensures Inv(HandleClose(s, ws, now, fault))
  {
    var s0 := s.(clock := now, status := s.status[ws := s.status[ws].(ready := Closed)]);
    match s.status[ws].userId
    case None => CloseUnboundKeepsInv(s, ws, now);
    case Some(u) =>
      DeregisterKeepsInv(s, ws, u, now);
      var t := s0.(userSockets := RemoveSocket(s.userSockets, u, ws));
      var s1 := RemoveSocketForUser(s0, u, ws);
      FrameKeepsInv(t, s1);
      FrameKeepsInv(s1, s1.(users := TouchLastSeen(s1.users, u, now)));
  }
}
