/**
 * The WebSocket server as the source runs it: one object holding the
 * registry, the per-socket state and transcripts, the message store and the
 * user records, with one method per handler and per helper. Each method is
 * proved to leave the object in the state the pure model in `Delivery`
 * computes, and every event handler keeps the invariant `Delivery.Inv`.
 */
module Server {
  import opened Wrappers
  import opened Json
  import opened MessageModel
  import opened MessageStore
  import opened Registry
  import opened Protocol
  import opened Delivery
  import opened Invariants
  import Events

  /** The sockets filed under the keys `ks`. */
  ghost function SocketsUnder(reg: Registry, ks: set<string>): set<SocketId>
  {
    set k, x | k in ks && k in reg && x in reg[k] :: x
  }

  /** One more iteration of a pass. */
  lemma ReplayExtend(s: State, p: Pass, idx: seq<nat>, k: nat)
    requires InStore(s, idx) && k < |idx|
    ensures InStore(s, idx[..k]) && InStore(s, idx[..k + 1])
    ensures idx[k] < |Replay(s, p, idx[..k]).store|
    ensures Replay(s, p, idx[..k + 1]) == ReplayOne(Replay(s, p, idx[..k]), p, idx[k])
  {
    assert idx[..k + 1][..k] == idx[..k];
  }

  /** Setting the clock first changes nothing: the handler sets it itself. */
  lemma HandleFrameAtClock(s: State, ws: SocketId, raw: Option<Json>, verify: Json -> Option<UserId>, now: nat, fault: Option<nat>)
    requires ws in s.status
    ensures HandleFrame(s.(clock := now), ws, raw, verify, now, fault) == HandleFrame(s, ws, raw, verify, now, fault)
  {
    assert s.(clock := now).(clock := now) == s.(clock := now);
  }

  /** The flush that fails at the save of its `k`-th message. */
  lemma FlushPendingFails(s: State, ws: SocketId, u: UserId, k: nat)
    requires ws in s.status && k < |PendingFor(s.store, u)|
    ensures
      var pending := PendingFor(s.store, u);
      var s5 := Replay(s, Deliver(ws), pending[..k]);
      FlushPending(s, ws, u, Some(2 + k)) == Close(Send(s5, ws, MessageFrame(s5.store[pending[k]])), ws, AuthFailed)
  {
  }

  /** The flush in which no save fails. */
  lemma FlushPendingCompletes(s: State, ws: SocketId, u: UserId, fault: Option<nat>)
    requires ws in s.status
    requires fault.Some? && 2 <= fault.value ==> |PendingFor(s.store, u)| <= fault.value - 2
    ensures
      var s5 := Replay(s, Deliver(ws), PendingFor(s.store, u));
      FlushPending(s, ws, u, fault) == s5.(status := s5.status[ws := s5.status[ws].(timerArmed := false)])
  {
    var pending := PendingFor(s.store, u);
    assert pending[..|pending|] == pending;
  }

  /** The `read` pass that fails at the save of its `k`-th message. */
  lemma MarkAllReadFails(s: State, u: UserId, k: nat)
    requires k < |UnreadFor(s.store, u)|
    ensures Delivery.MarkAllRead(s, u, Some(1 + k)) == Replay(s, Read, UnreadFor(s.store, u)[..k])
  {
  }

  /** The `read` pass in which no save fails. */
  lemma MarkAllReadCompletes(s: State, u: UserId, fault: Option<nat>)
    requires fault != Some(0)
    requires fault.Some? && 1 <= fault.value ==> |UnreadFor(s.store, u)| <= fault.value - 1
    ensures Delivery.MarkAllRead(s, u, fault) == Replay(s, Read, UnreadFor(s.store, u))
  {
    var unread := UnreadFor(s.store, u);
    assert unread[..|unread|] == unread;
  }

  class ChatServer {
    var userSockets: Registry
    var status: map<SocketId, Conn>
    var outbox: Outbox
    var store: seq<Message>
    var users: map<UserId, UserRecord>
    var clock: nat
    /** The identity the next accepted connection gets. */
    var nextSocket: SocketId
    /** `jwt.verify` with the server's secret, reduced to the user id it yields. */
    const verify: Json -> Option<UserId>

    function Snapshot(): State
      reads this
    {
      State(userSockets, status, outbox, store, users, clock)
    }

    ghost predicate Valid()
      reads this
    {
      Inv(Snapshot()) && forall x :: x in status ==> x < nextSocket
    }

    constructor (verify: Json -> Option<UserId>, users: map<UserId, UserRecord>, store: seq<Message>, clock: nat)
      requires WellFormed(store, clock)
      ensures Valid() && this.verify == verify
      ensures Snapshot() == State(map[], map[], map[], store, users, clock)
    {
      this.verify := verify;
      this.userSockets := map[];
      this.status := map[];
      this.outbox := map[];
      this.store := store;
      this.users := users;
      this.clock := clock;
      this.nextSocket := 0;
    }

    /** `ws.send(f)`: written only while the socket is open. */
    method Send(ws: SocketId, f: OutFrame)
      requires status.Keys == outbox.Keys
      modifies this`outbox
      ensures Snapshot() == Delivery.Send(old(Snapshot()), ws, f)
    {
      EmitAppends(outbox, status, ws, f);
      if IsOpen(status, ws) {
        outbox := outbox[ws := outbox[ws] + [f]];
      }
    }

    /** `ws.close(code, reason)`. */
    method CloseSocket(ws: SocketId, c: Closure)
      requires ws in status
      modifies this`status
      ensures Snapshot() == Close(old(Snapshot()), ws, c)
      ensures status.Keys == old(status.Keys)
    {
      if status[ws].ready == Open {
        status := status[ws := status[ws].(ready := Closing, closure := Some(c))];
      }
    }

    /** The loop over a set of sockets: the frame to each of them that is open. */
    method FanoutTo(targets: set<SocketId>, f: OutFrame)
      requires status.Keys == outbox.Keys
      modifies this`outbox
      ensures outbox == Fanout(old(outbox), status, targets, f)
    {
      FanoutNone(outbox, status, f);
      var todo := targets;
      ghost var done: set<SocketId> := {};
      while todo != {}
        invariant todo + done == targets && todo !! done
        invariant outbox == Fanout(old(outbox), status, done, f)
        decreases todo
      {
        var x :| x in todo;
        FanoutStep(old(outbox), status, done, x, f);
        if IsOpen(status, x) {
          outbox := outbox[x := outbox[x] + [f]];
        }
        todo := todo - {x};
        done := done + {x};
      }
    }

    /** `sendToUser(key, f)`: the frame to every open socket filed under `key`; reports whether `key` has an entry. */
    method SendToUser(key: string, f: OutFrame) returns (found: bool)
      requires status.Keys == outbox.Keys
      modifies this`outbox
      ensures found == (key in userSockets)
      ensures Snapshot() == Delivery.SendToUser(old(Snapshot()), key, f)
    {
      if key !in userSockets {
        FanoutNone(outbox, status, f);
        return false;
      }
      FanoutTo(userSockets[key], f);
      return true;
    }

    /** `broadcastOnlineUsers()`: the list of keys to every open socket of every entry. */
    method BroadcastOnlineUsers()
      requires status.Keys == outbox.Keys && Exclusive(userSockets)
      modifies this`outbox
      ensures Snapshot() == Broadcast(old(Snapshot()))
    {
      var f := OnlineUsers(userSockets.Keys);
      FanoutNone(outbox, status, f);
      var todo := userSockets.Keys;
      ghost var done: set<SocketId> := {};
      while todo != {}
        invariant todo <= userSockets.Keys
        invariant done == SocketsUnder(userSockets, userSockets.Keys - todo)
        invariant outbox == Fanout(old(outbox), status, done, f)
        decreases todo
      {
        var k :| k in todo;
        assert done !! userSockets[k];
        FanoutCompose(old(outbox), status, done, userSockets[k], f);
        FanoutTo(userSockets[k], f);
        assert done + userSockets[k] == SocketsUnder(userSockets, userSockets.Keys - (todo - {k}));
        done := done + userSockets[k];
        todo := todo - {k};
      }
      assert done == OnlineSockets(userSockets);
    }

    /** `addSocketForUser(u, ws)`. */
    method AddSocketForUser(u: UserId, ws: SocketId)
      requires status.Keys == outbox.Keys && Exclusive(userSockets)
      requires forall k :: k in userSockets && k != u ==> ws !in userSockets[k]
      modifies this`userSockets, this`outbox
      ensures Snapshot() == Delivery.AddSocketForUser(old(Snapshot()), u, ws)
    {
      if u !in userSockets {
        userSockets := userSockets[u := {}];
      }
      userSockets := userSockets[u := userSockets[u] + {ws}];
      assert userSockets == AddSocket(old(userSockets), u, ws);
      BroadcastOnlineUsers();
    }

    /** `removeSocketForUser(u, ws)`: no broadcast when `u` has no entry. */
    method RemoveSocketForUser(u: UserId, ws: SocketId)
      requires status.Keys == outbox.Keys && Exclusive(userSockets)
      modifies this`userSockets, this`outbox
      ensures Snapshot() == Delivery.RemoveSocketForUser(old(Snapshot()), u, ws)
    {
      if u !in userSockets {
        return;
      }
      var rest := userSockets[u] - {ws};
      if rest == {} {
        userSockets := userSockets - {u};
      } else {
        userSockets := userSockets[u := rest];
      }
      assert userSockets == RemoveSocket(old(userSockets), u, ws);
      BroadcastOnlineUsers();
    }

    /**
     * The second half of an iteration of either loop: the timestamp set and
     * saved, then the receipt (`delivered` or `read`) to the message's sender.
     */
    method SaveAndNotify(i: nat, p: Pass)
      requires i < |store| && status.Keys == outbox.Keys
      modifies this`store, this`outbox
      ensures
        var s := old(Snapshot());
        var m := Stamp(s.store[i], p, s.clock);
        Snapshot() == Delivery.SendToUser(s.(store := s.store[i := m]), m.from, if p.Read? then ReadReceipt(m) else Delivered(m))
    {
      var m := Stamp(store[i], p, clock);
      store := store[i := m];
      var _ := SendToUser(m.from, if p.Read? then ReadReceipt(m) else Delivered(m));
    }

    /** One iteration of the loop of `finalizeAuth` whose save succeeds: the pass over `pending` advances by one message. */
    method DeliverOne(ghost s4: State, ws: SocketId, pending: seq<nat>, n: nat)
      requires InStore(s4, pending) && n < |pending|
      requires Snapshot() == Replay(s4, Deliver(ws), pending[..n]) && status.Keys == outbox.Keys
      modifies this`store, this`outbox
      ensures Snapshot() == Replay(s4, Deliver(ws), pending[..n + 1]) && status.Keys == outbox.Keys
    {
      ReplayExtend(s4, Deliver(ws), pending, n);
      Send(ws, MessageFrame(store[pending[n]]));
      SaveAndNotify(pending[n], Deliver(ws));
    }

    /** One iteration of the loop of `read` whose save succeeds: the pass over `unread` advances by one message. */
    method ReadOne(ghost s0: State, unread: seq<nat>, k: nat)
      requires InStore(s0, unread) && k < |unread|
      requires Snapshot() == Replay(s0, Read, unread[..k]) && status.Keys == outbox.Keys
      modifies this`store, this`outbox
      ensures Snapshot() == Replay(s0, Read, unread[..k + 1]) && status.Keys == outbox.Keys
    {
      ReplayExtend(s0, Read, unread, k);
      SaveAndNotify(unread[k], Read);
    }

    /**
     * The loop of `finalizeAuth` over the messages at `pending`: each is sent
     * to `ws`, then marked delivered, saved and acknowledged to its sender. It
     * stops after the send whose save fails and says how many iterations
     * completed.
     */
    method DeliverEach(ws: SocketId, pending: seq<nat>, fault: Option<nat>) returns (n: nat)
      requires InStore(Snapshot(), pending) && status.Keys == outbox.Keys
      modifies this`store, this`outbox
      ensures n <= |pending|
      ensures n < |pending| ==> fault == Some(2 + n)
      ensures n < |pending| ==>
        var s5 := Replay(old(Snapshot()), Deliver(ws), pending[..n]);
        Snapshot() == Delivery.Send(s5, ws, MessageFrame(s5.store[pending[n]]))
      ensures n == |pending| ==>
        && Snapshot() == Replay(old(Snapshot()), Deliver(ws), pending)
        && (fault.Some? && 2 <= fault.value ==> |pending| <= fault.value - 2)
    {
      ghost var s4 := Snapshot();
      n := 0;
      while n < |pending|
        invariant 0 <= n <= |pending|
        invariant Snapshot() == Replay(s4, Deliver(ws), pending[..n])
        invariant status.Keys == outbox.Keys && |store| == |s4.store|
        invariant fault.Some? && 2 <= fault.value ==> n <= fault.value - 2
      {
        if fault.Some? && fault.value == 2 + n {
          Send(ws, MessageFrame(store[pending[n]]));
          assert fault == Some(2 + n);
          return;
        }
        DeliverOne(s4, ws, pending, n);
        n := n + 1;
      }
      assert pending[..n] == pending;
    }

    /** The query for the messages waiting for `u`, the loop over them, and the cancelled timer once the loop is done. */
    method DeliverPending(ws: SocketId, u: UserId, fault: Option<nat>)
      requires ws in status && status.Keys == outbox.Keys
      modifies this`store, this`outbox, this`status
      ensures Snapshot() == FlushPending(old(Snapshot()), ws, u, fault)
      ensures status.Keys == old(status.Keys)
    {
      ghost var s4 := Snapshot();
      var pending := PendingFor(store, u);
      var n := DeliverEach(ws, pending, fault);
      if n < |pending| {
        FlushPendingFails(s4, ws, u, n);
        CloseSocket(ws, AuthFailed);
      } else {
        FlushPendingCompletes(s4, ws, u, fault);
        status := status[ws := status[ws].(timerArmed := false)];
      }
    }

    /**
     * The start of `finalizeAuth` for user `u`: bind the socket, register it,
     * record lastSeen (its failure is swallowed) and send the welcome frame.
     */
    method Bind(ws: SocketId, u: UserId, fault: Option<nat>)
      requires ws in status && status.Keys == outbox.Keys && Exclusive(userSockets)
      requires forall k :: k in userSockets && k != u ==> ws !in userSockets[k]
      modifies this`userSockets, this`status, this`outbox, this`users
      ensures Snapshot() == Register(old(Snapshot()), ws, u, fault)
      ensures status.Keys == old(status.Keys) && outbox.Keys == old(outbox.Keys)
    {
      status := status[ws := status[ws].(userId := Some(u))];
      AddSocketForUser(u, ws);
      if fault != Some(0) && u in users {
        users := users[u := users[u].(lastSeen := Some(clock))];
      }
      Send(ws, Welcome(WelcomeText));
    }

    /** `finalizeAuth(token)` on a socket with no user bound yet. */
    method FinalizeAuth(ws: SocketId, token: Json, fault: Option<nat>)
      requires Valid() && ws in status && status[ws].userId.None? && status[ws].ready != Closed
      modifies this`userSockets, this`status, this`outbox, this`store, this`users
      ensures Valid()
      ensures Snapshot() == Authenticate(old(Snapshot()), ws, verify(token), fault)
      ensures status.Keys == old(status.Keys)
    {
      AuthenticateKeepsInv(Snapshot(), ws, verify(token), fault);
      Authorize(ws, verify(token), fault);
    }

    /** `finalizeAuth` once the token is checked: close on a bad token, otherwise admit the user. */
    method Authorize(ws: SocketId, identity: Option<UserId>, fault: Option<nat>)
      requires Inv(Snapshot()) && ws in status && status[ws].userId.None?
      modifies this`userSockets, this`status, this`outbox, this`store, this`users
      ensures Snapshot() == Authenticate(old(Snapshot()), ws, identity, fault)
      ensures status.Keys == old(status.Keys)
    {
      if identity.None? {
        CloseSocket(ws, AuthFailed);
      } else {
        UnboundOutsideRegistry(Snapshot(), ws);
        Admit(ws, identity.value, fault);
      }
    }

    /** `finalizeAuth` once the token names the user `u`. */
    method Admit(ws: SocketId, u: UserId, fault: Option<nat>)
      requires ws in status && status.Keys == outbox.Keys && Exclusive(userSockets)
      requires forall k :: k in userSockets && k != u ==> ws !in userSockets[k]
      modifies this`userSockets, this`status, this`outbox, this`store, this`users
      ensures Snapshot() == Authenticate(old(Snapshot()), ws, Some(u), fault)
      ensures status.Keys == old(status.Keys)
    {
      ghost var s0 := Snapshot();
      Bind(ws, u, fault);
      if fault == Some(1) {
        CloseSocket(ws, AuthFailed);
      } else {
        DeliverPending(ws, u, fault);
      }
    }

    /** The `direct_message` branch for the user `u` bound to `ws`. */
    method DirectMessage(ws: SocketId, u: UserId, data: Json, fault: Option<nat>)
      requires status.Keys == outbox.Keys
      modifies this`store, this`users, this`outbox
      ensures Snapshot() == SendDirect(old(Snapshot()), ws, u, data, fault)
    {
      ghost var s := Snapshot();
      var created := Create(DraftOf(data, u), |store|, clock);
      assert created == Create(DraftOf(data, u), |s.store|, s.clock);
      if created.Err? || fault == Some(0) {
        SendDirectFailsEarly(s, ws, u, data, fault);
        Send(ws, Error(SendFailed));
        return;
      }
      var m := created.value;
      store := store + [m];
      if fault == Some(1) {
        FailDirect(s, ws, u, data, 1);
        return;
      }
      users := AddConnection(users, u, m.to);
      if fault == Some(2) {
        FailDirect(s, ws, u, data, 2);
        return;
      }
      users := AddConnection(users, m.to, u);
      ForwardDirect(s, ws, u, data, m, fault);
    }

    /** `direct_message` when saving the message (1) or linking the sender (2) throws. */
    method FailDirect(ghost s: State, ws: SocketId, u: UserId, data: Json, k: nat)
      requires status.Keys == outbox.Keys
      requires Create(DraftOf(data, u), |s.store|, s.clock).Ok? && (k == 1 || k == 2)
      requires
        var m := Create(DraftOf(data, u), |s.store|, s.clock).value;
        var s1 := s.(store := s.store + [m]);
        Snapshot() == if k == 1 then s1 else s1.(users := AddConnection(s1.users, u, m.to))
      modifies this`outbox
      ensures Snapshot() == SendDirect(s, ws, u, data, Some(k))
    {
      SendDirectStepsTo(s, ws, u, data, k);
      Send(ws, Error(SendFailed));
    }

    /** The rest of `direct_message` once the message is saved and both users are linked. */
    method ForwardDirect(ghost s: State, ws: SocketId, u: UserId, data: Json, m: Message, fault: Option<nat>)
      requires status.Keys == outbox.Keys
      requires Create(DraftOf(data, u), |s.store|, s.clock) == Ok(m)
      requires fault != Some(0) && fault != Some(1) && fault != Some(2)
      requires Snapshot() == s.(store := s.store + [m], users := AddConnection(AddConnection(s.users, u, m.to), m.to, u))
      modifies this`store, this`outbox
      ensures Snapshot() == SendDirect(s, ws, u, data, fault)
    {
      var delivered := SendToUser(ToJsString(Field(data, "to")), MessageFrame(m));
      if delivered && fault == Some(3) {
        SendDirectStepsTo(s, ws, u, data, 3);
        Send(ws, Error(SendFailed));
        return;
      }
      var acked := m;
      if delivered {
        acked := m.(deliveredAt := Some(clock));
        assert (s.store + [m])[|s.store| := acked] == s.store + [acked];
        store := store[|store| - 1 := acked];
      }
      SendDirectCompletes(s, ws, u, data, fault);
      Events.SendDirectSteps(s, ws, u, data);
      Send(ws, Sent(acked, Field(data, "msgKey"), delivered, m.createdAt));
    }

    /** The `read` branch: every unread message to `u` marked read and its sender told. */
    method MarkAllRead(u: UserId, fault: Option<nat>)
      requires status.Keys == outbox.Keys
      modifies this`store, this`outbox
      ensures Snapshot() == Delivery.MarkAllRead(old(Snapshot()), u, fault)
    {
      if fault == Some(0) {
        return;
      }
      ghost var s0 := Snapshot();
      var unread := UnreadFor(store, u);
      var k := ReadEach(unread, fault);
      if k < |unread| {
        MarkAllReadFails(s0, u, k);
      } else {
        MarkAllReadCompletes(s0, u, fault);
      }
    }

    /**
     * The loop of `read` over the messages at `unread`: each is marked read,
     * saved and acknowledged to its sender. It stops at the save that fails
     * and says how many iterations completed.
     */
    method ReadEach(unread: seq<nat>, fault: Option<nat>) returns (k: nat)
      requires InStore(Snapshot(), unread) && status.Keys == outbox.Keys
      modifies this`store, this`outbox
      ensures k <= |unread|
      ensures k < |unread| ==> fault == Some(1 + k)
      ensures Snapshot() == Replay(old(Snapshot()), Read, unread[..k])
      ensures k == |unread| && fault.Some? && 1 <= fault.value ==> |unread| <= fault.value - 1
    {
      ghost var s0 := Snapshot();
      k := 0;
      while k < |unread|
        invariant 0 <= k <= |unread|
        invariant Snapshot() == Replay(s0, Read, unread[..k])
        invariant status.Keys == outbox.Keys
        invariant fault.Some? && 1 <= fault.value ==> k <= fault.value - 1
      {
        if fault.Some? && fault.value == 1 + k {
          return;
        }
        ReadOne(s0, unread, k);
        k := k + 1;
      }
    }

    /** A new connection, with the `token` query parameter of its URL if there was one. */
    method OnConnection(urlToken: Option<string>, now: nat, fault: Option<nat>) returns (ws: SocketId)
      requires Valid() && clock <= now
      modifies this
      ensures Valid() && ws == old(nextSocket) && nextSocket == old(nextSocket) + 1
      ensures Snapshot() == Connect(old(Snapshot()), ws, urlToken, verify, now, fault)
    {
      ws := Accept(now);
      if urlToken.Some? && urlToken.value != "" {
        FinalizeAuth(ws, JStr(urlToken.value), fault);
      }
    }

    /** A new socket: numbered, open, unbound, its auth timer armed and its transcript empty. */
    method Accept(now: nat) returns (ws: SocketId)
      requires Valid() && clock <= now
      modifies this`nextSocket, this`clock, this`status, this`outbox
      ensures Valid() && ws == old(nextSocket) && nextSocket == old(nextSocket) + 1
      ensures ws !in old(status)
      ensures Snapshot() == old(Snapshot()).(clock := now,
                                             status := old(status)[ws := Conn(Open, None, true, None)],
                                             outbox := old(outbox)[ws := []])
    {
      ghost var s := Snapshot();
      ws := nextSocket;
      nextSocket := nextSocket + 1;
      clock := now;
      status := status[ws := Conn(Open, None, true, None)];
      outbox := outbox[ws := []];
      OpenKeepsInv(s, ws, now);
    }

    /** A frame from socket `ws`; `raw` is its text parsed as JSON, `None` when that throws. */
    method OnMessage(ws: SocketId, raw: Option<Json>, now: nat, fault: Option<nat>)
      requires Valid() && ws in status && status[ws].ready != Closed && clock <= now
      modifies this`userSockets, this`status, this`outbox, this`store, this`users, this`clock
      ensures Valid()
      ensures Snapshot() == HandleFrame(old(Snapshot()), ws, raw, verify, now, fault)
    {
      ghost var s := Snapshot();
      HandleFrameKeepsInv(s, ws, raw, verify, now, fault);
      clock := now;
      FrameKeepsInv(s, Snapshot());
      HandleFrameAtClock(s, ws, raw, verify, now, fault);
      Dispatch(ws, raw, fault);
    }

    /** The handler's branches, once the clock reads the frame's arrival time. */
    method Dispatch(ws: SocketId, raw: Option<Json>, fault: Option<nat>)
      requires Valid() && ws in status && status[ws].ready != Closed
      modifies this`userSockets, this`status, this`outbox, this`store, this`users
      ensures Snapshot() == HandleFrame(old(Snapshot()), ws, raw, verify, clock, fault)
      ensures status.Keys == old(status.Keys)
    {
      ghost var s := Snapshot();
      assert s.(clock := clock) == s;
      var bound := status[ws].userId;
      var action := Classify(bound.Some?, raw);
      if action.Identify? {
        PreAuthOnlyIdentify(raw);
        PostAuthIdentifyIsUnknown(raw);
        FinalizeAuth(ws, action.token, fault);
      } else {
        InvParts(s);
        React(ws, raw, fault);
      }
    }

    /** Every branch but `identify`: they touch the store, the users and the transcripts only. */
    method React(ws: SocketId, raw: Option<Json>, fault: Option<nat>)
      requires ws in status && status.Keys == outbox.Keys
      requires !Classify(status[ws].userId.Some?, raw).Identify?
      modifies this`outbox, this`store, this`users
      ensures Snapshot() == HandleFrame(old(Snapshot()), ws, raw, verify, clock, fault)
    {
      ghost var s := Snapshot();
      assert s.(clock := clock) == s;
      var bound := status[ws].userId;
      var action := Classify(bound.Some?, raw);
      if bound.Some? && (action.DirectMessage? || action.TypingForward? || action.MarkRead?) {
        ReactBound(ws, bound.value, raw, fault);
      } else if action.Ping? {
        Send(ws, Pong);
      } else if action.Unknown? {
        Send(ws, Error(UnknownType));
      }
    }

    /** The branches that act for the user bound to `ws`. */
    method ReactBound(ws: SocketId, u: UserId, raw: Option<Json>, fault: Option<nat>)
      requires ws in status && status.Keys == outbox.Keys && status[ws].userId == Some(u)
      requires Classify(true, raw).DirectMessage? || Classify(true, raw).TypingForward? || Classify(true, raw).MarkRead?
      modifies this`outbox, this`store, this`users
      ensures Snapshot() == HandleFrame(old(Snapshot()), ws, raw, verify, clock, fault)
    {
      ghost var s := Snapshot();
      assert s.(clock := clock) == s;
      match Classify(true, raw) {
        case DirectMessage(data) => DirectMessage(ws, u, data, fault);
        case TypingForward(to, state) =>
          var _ := SendToUser(ToJsString(to), Typing(u, state));
        case MarkRead => MarkAllRead(u, fault);
      }
    }

    /** The auth timer firing for socket `ws`. */
    method OnAuthTimeout(ws: SocketId)
      requires Valid() && ws in status
      modifies this`status
      ensures Valid()
      ensures Snapshot() == AuthTimeout(old(Snapshot()), ws)
    {
      AuthTimeoutKeepsInv(Snapshot(), ws);
      var c := status[ws];
      if !c.timerArmed {
        return;
      }
      status := status[ws := c.(timerArmed := false)];
      if c.userId.None? {
        CloseSocket(ws, AuthTimedOut);
      }
    }

    /** The `close` event of socket `ws`. */
    method OnClose(ws: SocketId, now: nat, fault: Option<nat>)
      requires Valid() && ws in status && status[ws].ready != Closed && clock <= now
      modifies this`clock, this`status, this`userSockets, this`outbox, this`users
      ensures Valid()
      ensures Snapshot() == HandleClose(old(Snapshot()), ws, now, fault)
    {
      HandleCloseKeepsInv(Snapshot(), ws, now, fault);
      InvExclusive(Snapshot());
      InvParts(Snapshot());
      Deregister(ws, now, fault);
    }

    /** Marks `ws` closed and, when it was bound, takes it out of the registry. */
    method Deregister(ws: SocketId, now: nat, fault: Option<nat>)
      requires ws in status && status.Keys == outbox.Keys && Exclusive(userSockets)
      modifies this`clock, this`status, this`userSockets, this`outbox, this`users
      ensures Snapshot() == HandleClose(old(Snapshot()), ws, now, fault)
      ensures status.Keys == old(status.Keys)
    {
      clock := now;
      status := status[ws := status[ws].(ready := Closed)];
      var bound := status[ws].userId;
      if bound.Some? {
        var u := bound.value;
        RemoveSocketForUser(u, ws);
        if u !in userSockets && fault != Some(0) && u in users {
          users := users[u := users[u].(lastSeen := Some(now))];
        }
      }
    }
  }
}
