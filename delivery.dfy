/**
 * The connection handler of src/index.js as a specification: the server's
 * state as one value, and each event (a connection, an inbound frame, the
 * auth timer, a close) as a function from the state before to the state
 * after. Every `await` is one atomic step; `fault` names the first store
 * operation of the event that fails (counting from 0), `None` when none does.
 */
module Delivery {
  import opened Wrappers
  import opened Json
  import opened MessageModel
  import opened MessageStore
  import opened Registry
  import opened Protocol

  /** The parts of a user's stored record the server touches. */
  datatype UserRecord = UserRecord(connections: seq<UserId>, lastSeen: Option<nat>)

  /**
   * The registry, every socket's status and transcript, the message
   * collection, the user collection, and the time of the latest event.
   */
  datatype State = State(
    userSockets: Registry,
    status: map<SocketId, Conn>,
    outbox: Outbox,
    store: seq<Message>,
    users: map<UserId, UserRecord>,
    clock: nat)

  /** Socket `x` is filed in the registry under `k`. */
  predicate Filed(s: State, k: string, x: SocketId)
  {
    k in s.userSockets && x in s.userSockets[k]
  }

  /** Socket `x` is bound to a user and its close event has not been handled. */
  predicate Live(s: State, x: SocketId)
  {
    x in s.status && s.status[x].userId.Some? && s.status[x].ready != Closed
  }

  /**
   * The server's invariant: the registry holds exactly the authenticated
   * sockets whose close has not been handled, each under its own user, and no
   * entry is empty; every socket has a transcript; the store is well formed.
   */
  ghost predicate Inv(s: State)
  {
    && NoEmptyEntries(s.userSockets)
    && (forall k, x :: Filed(s, k, x) ==> Live(s, x) && s.status[x].userId.value == k)
    && (forall x :: Live(s, x) ==> Filed(s, s.status[x].userId.value, x))
    && s.outbox.Keys == s.status.Keys
    && WellFormed(s.store, s.clock)
    && (forall x :: x in s.status && s.status[x].closure.Some? ==> s.status[x].ready != Open)
  }

  /** `broadcastOnlineUsers`: the registry's key set to every open registered socket. */
  function Broadcast(s: State): State
  {
    s.(outbox := Fanout(s.outbox, s.status, OnlineSockets(s.userSockets), OnlineUsers(s.userSockets.Keys)))
  }

  /** `addSocketForUser(u, ws)`. */
  function AddSocketForUser(s: State, u: UserId, ws: SocketId): State
  {
    Broadcast(s.(userSockets := AddSocket(s.userSockets, u, ws)))
  }

  /** `removeSocketForUser(u, ws)`: nothing at all when `u` has no entry. */
  function RemoveSocketForUser(s: State, u: UserId, ws: SocketId): State
  {
    if u !in s.userSockets then s
    else Broadcast(s.(userSockets := RemoveSocket(s.userSockets, u, ws)))
  }

  /** `sendToUser(key, f)`; what it returns is `key in s.userSockets`. */
  function SendToUser(s: State, key: string, f: OutFrame): State
  {
    s.(outbox := Fanout(s.outbox, s.status, SocketsOf(s.userSockets, key), f))
  }

  /** `ws.send(f)`. */
  function Send(s: State, ws: SocketId, f: OutFrame): State
  {
    s.(outbox := Emit(s.outbox, s.status, ws, f))
  }

  /** `ws.close(code, reason)`: an open socket starts closing; otherwise nothing happens. */
  function Close(s: State, ws: SocketId, c: Closure): State
    requires ws in s.status
  {
    if s.status[ws].ready == Open
    then s.(status := s.status[ws := s.status[ws].(ready := Closing, closure := Some(c))])
    else s
  }

  /** `User.findByIdAndUpdate(u, {lastSeen: now})`: no effect when the user does not exist. */
  function TouchLastSeen(users: map<UserId, UserRecord>, u: UserId, now: nat): map<UserId, UserRecord>
  {
    if u in users then users[u := users[u].(lastSeen := Some(now))] else users
  }

  /** `$addToSet` on a list. */
  function AddToSet(xs: seq<UserId>, x: UserId): (r: seq<UserId>)
    ensures x in r
    ensures forall y :: y in r <==> y in xs || y == x
  {
    if x in xs then xs else xs + [x]
  }

  /** `User.updateOne({_id: owner}, {$addToSet: {userConnecttion: other}})`. */
  function AddConnection(users: map<UserId, UserRecord>, owner: UserId, other: UserId): map<UserId, UserRecord>
  {
    if owner in users
    then users[owner := users[owner].(connections := AddToSet(users[owner].connections, other))]
    else users
  }

  /** The two loops that walk over stored messages: the flush to socket `ws`, and marking read. */
  datatype Pass = Deliver(ws: SocketId) | Read

  /** The message with the timestamp the pass sets. */
  function Stamp(m: Message, p: Pass, now: nat): Message
  {
    match p
    case Deliver(_) => m.(deliveredAt := Some(now))
    case Read => m.(readAt := Some(now))
  }

  /**
   * One iteration: for the flush, the message frame to `ws`; then the new
   * timestamp, saved; then the receipt to every socket of the sender.
   */
  function ReplayOne(s: State, p: Pass, i: nat): (r: State)
    requires i < |s.store|
    ensures r.userSockets == s.userSockets && r.status == s.status && r.users == s.users && r.clock == s.clock
    ensures r.store == s.store[i := Stamp(s.store[i], p, s.clock)]
  {
    var m := Stamp(s.store[i], p, s.clock);
    match p
    case Deliver(ws) =>
      var s1 := Send(s, ws, MessageFrame(s.store[i]));
      SendToUser(s1.(store := s.store[i := m]), m.from, Delivered(m))
    case Read =>
      SendToUser(s.(store := s.store[i := m]), m.from, ReadReceipt(m))
  }

  predicate InStore(s: State, idx: seq<nat>)
  {
    forall k :: 0 <= k < |idx| ==> idx[k] < |s.store|
  }

  /** The loop body run on the messages at `idx`, in order. */
  function Replay(s: State, p: Pass, idx: seq<nat>): (r: State)
    requires InStore(s, idx)
    ensures r.userSockets == s.userSockets && r.status == s.status && r.users == s.users && r.clock == s.clock
    ensures |r.store| == |s.store| && r.outbox.Keys == s.outbox.Keys
    decreases |idx|
  {
    if idx == [] then s
    else ReplayOne(Replay(s, p, idx[..|idx| - 1]), p, idx[|idx| - 1])
  }

  /** How many iterations of a loop over `n` items complete when its `k`-th save is store operation `first + k`. */
  function Completed(fault: Option<nat>, first: nat, n: nat): (r: nat)
    ensures r <= n
    ensures r < n <==> fault.Some? && first <= fault.value < first + n
  {
    if fault.Some? && first <= fault.value < first + n then fault.value - first else n
  }

  /**
   * `finalizeAuth`. Store operations: 0 refreshes `lastSeen` (its failure is
   * ignored), 1 finds the pending messages, 2 + k saves the k-th of them.
   */
  function Authenticate(s: State, ws: SocketId, identity: Option<UserId>, fault: Option<nat>): State
    requires ws in s.status
  {
    match identity
    case None => Close(s, ws, AuthFailed)
    case Some(u) =>
      var s4 := Register(s, ws, u, fault);
      if fault == Some(1) then Close(s4, ws, AuthFailed)
      else FlushPending(s4, ws, u, fault)
  }

  /**
   * The first steps of `finalizeAuth` for user `u`: bind the socket, file it
   * in the registry (announcing the online list), record lastSeen (a failure
   * there is ignored) and send the welcome frame.
   */
  function Register(s: State, ws: SocketId, u: UserId, fault: Option<nat>): (r: State)
    requires ws in s.status
    ensures r.store == s.store && r.clock == s.clock
    ensures r.userSockets == AddSocket(s.userSockets, u, ws)
    ensures r.status == s.status[ws := s.status[ws].(userId := Some(u))]
    ensures r.outbox.Keys == s.outbox.Keys
  {
    var s1 := s.(status := s.status[ws := s.status[ws].(userId := Some(u))]);
    var s2 := AddSocketForUser(s1, u, ws);
    var s3 := if fault == Some(0) then s2 else s2.(users := TouchLastSeen(s2.users, u, s2.clock));
    Send(s3, ws, Welcome(WelcomeText))
  }

  /**
   * The delivery loop of `finalizeAuth`: the messages waiting for `u`, oldest
   * first, each sent to `ws`, stamped and acknowledged to its sender; a failed
   * save ends the loop and closes the socket, a finished loop disarms the timer.
   */
  function FlushPending(s: State, ws: SocketId, u: UserId, fault: Option<nat>): State
    requires ws in s.status
  {
    var pending := PendingFor(s.store, u);
    var n := Completed(fault, 2, |pending|);
    var s5 := Replay(s, Deliver(ws), pending[..n]);
    if n < |pending| then
      Close(Send(s5, ws, MessageFrame(s5.store[pending[n]])), ws, AuthFailed)
    else
      s5.(status := s5.status[ws := s5.status[ws].(timerArmed := false)])
  }

  /** A new connection; `urlToken` is the `token` query parameter. */
  function Connect(s: State, ws: SocketId, urlToken: Option<string>, verify: Json -> Option<UserId>, now: nat, fault: Option<nat>): State
    requires ws !in s.status
  {
    var s1 := s.(clock := now,
                 status := s.status[ws := Conn(Open, None, true, None)],
                 outbox := s.outbox[ws := []]);
    if urlToken.Some? && urlToken.value != "" then Authenticate(s1, ws, verify(JStr(urlToken.value)), fault) else s1
  }

  /** The fields of a `direct_message` frame handed to `new Message(...)`. */
  function DraftOf(data: Json, u: UserId): Draft
  {
    var contentType := Field(data, "contentType");
    var meta := Field(data, "meta");
    Draft(
      Some(JStr(u)),
      Field(data, "to"),
      Field(data, "content"),
      Some(if Truthy(contentType) then contentType.value else JStr("text")),
      Some(if Truthy(meta) then meta.value else JObject(map[])),
      None)
  }

  /**
   * A `direct_message` from user `u` on socket `ws`. Store operations: 0
   * saves the message, 1 and 2 record the connection on each side, 3 saves
   * the delivery time.
   */
  function SendDirect(s: State, ws: SocketId, u: UserId, data: Json, fault: Option<nat>): (r: State)
    ensures r.userSockets == s.userSockets && r.status == s.status && r.clock == s.clock
    ensures r.outbox.Keys == s.outbox.Keys
    ensures r.store != s.store ==>
      && Create(DraftOf(data, u), |s.store|, s.clock).Ok?
      && var m := Create(DraftOf(data, u), |s.store|, s.clock).value;
         r.store in {s.store + [m], s.store + [m.(deliveredAt := Some(s.clock))]}
  {
    match Create(DraftOf(data, u), |s.store|, s.clock)
    case Err(_) => Send(s, ws, Error(SendFailed))
    case Ok(m) =>
      if fault == Some(0) then Send(s, ws, Error(SendFailed))
      else SavedDirect(s, ws, u, data, m, fault)
  }

  /** The rest of a `direct_message` once `m` is saved: whatever fails later, the message stays in the store. */
  function SavedDirect(s: State, ws: SocketId, u: UserId, data: Json, m: Message, fault: Option<nat>): (r: State)
    ensures r.userSockets == s.userSockets && r.status == s.status && r.clock == s.clock
    ensures r.outbox.Keys == s.outbox.Keys
    ensures r.store in {s.store + [m], s.store + [m.(deliveredAt := Some(s.clock))]}
  {
    var s1 := s.(store := s.store + [m]);
    if fault == Some(1) then Send(s1, ws, Error(SendFailed))
    else
      var s2 := s1.(users := AddConnection(s1.users, u, m.to));
      if fault == Some(2) then Send(s2, ws, Error(SendFailed))
      else
        var s3 := s2.(users := AddConnection(s2.users, m.to, u));
        var key := ToJsString(Field(data, "to"));
        var s4 := SendToUser(s3, key, MessageFrame(m));
        if key !in s3.userSockets then
          Send(s4, ws, Sent(m, Field(data, "msgKey"), false, m.createdAt))
        else if fault == Some(3) then
          Send(s4, ws, Error(SendFailed))
        else
          var delivered := m.(deliveredAt := Some(s.clock));
          Send(s4.(store := s.store + [delivered]), ws, Sent(delivered, Field(data, "msgKey"), true, m.createdAt))
  }

  /** A draft that fails validation, or a failing save, leaves only the error frame. */
  lemma SendDirectFailsEarly(s: State, ws: SocketId, u: UserId, data: Json, fault: Option<nat>)
    requires Create(DraftOf(data, u), |s.store|, s.clock).Err? || fault == Some(0)
    ensures SendDirect(s, ws, u, data, fault) == Send(s, ws, Error(SendFailed))
  {
  }

  /** A fault past the last store operation the message reaches changes nothing. */
  lemma SendDirectCompletes(s: State, ws: SocketId, u: UserId, data: Json, fault: Option<nat>)
    requires Create(DraftOf(data, u), |s.store|, s.clock).Ok?
    requires fault != Some(0) && fault != Some(1) && fault != Some(2)
    requires fault == Some(3) ==> ToJsString(Field(data, "to")) !in s.userSockets
    ensures SendDirect(s, ws, u, data, fault) == SendDirect(s, ws, u, data, None)
  {
  }

  /** The state a direct message has reached when store operation `k` (1, 2 or 3) fails. */
  lemma SendDirectStepsTo(s: State, ws: SocketId, u: UserId, data: Json, k: nat)
    requires Create(DraftOf(data, u), |s.store|, s.clock).Ok?
    requires k == 1 || k == 2 || (k == 3 && ToJsString(Field(data, "to")) in s.userSockets)
    ensures
      var m := Create(DraftOf(data, u), |s.store|, s.clock).value;
      var s1 := s.(store := s.store + [m]);
      var s2 := s1.(users := AddConnection(s1.users, u, m.to));
      var s3 := s2.(users := AddConnection(s2.users, m.to, u));
      var before := if k == 1 then s1 else if k == 2 then s2 else SendToUser(s3, ToJsString(Field(data, "to")), MessageFrame(m));
      SendDirect(s, ws, u, data, Some(k)) == Send(before, ws, Error(SendFailed))
  {
  }

  /** A `read` frame from user `u`. Store operations: 0 finds the unread messages, 1 + k saves the k-th. */
  function MarkAllRead(s: State, u: UserId, fault: Option<nat>): State
  {
    if fault == Some(0) then s
    else
      var unread := UnreadFor(s.store, u);
      Replay(s, Read, unread[..Completed(fault, 1, |unread|)])
  }

  /** The `message` handler of socket `ws`. */
  function HandleFrame(s: State, ws: SocketId, raw: Option<Json>, verify: Json -> Option<UserId>, now: nat, fault: Option<nat>): State
    requires ws in s.status
  {
    var s0 := s.(clock := now);
    var bound := s.status[ws].userId;
    match Classify(bound.Some?, raw)
    case Drop => s0
    case Identify(token) => Authenticate(s0, ws, verify(token), fault)
    case DirectMessage(data) =>
      if bound.Some? then SendDirect(s0, ws, bound.value, data, fault) else s0
    case TypingForward(to, state) =>
      if bound.Some? then SendToUser(s0, ToJsString(to), Typing(bound.value, state)) else s0
    case MarkRead =>
      if bound.Some? then MarkAllRead(s0, bound.value, fault) else s0
    case Ping => Send(s0, ws, Pong)
    case Unknown => Send(s0, ws, Error(UnknownType))
    case Throw => s0
  }

  /** The auth timer firing: it closes the socket with 4003 only if no user is bound. */
  function AuthTimeout(s: State, ws: SocketId): State
    requires ws in s.status
  {
    var c := s.status[ws];
    if !c.timerArmed then s
    else
      var s1 := s.(status := s.status[ws := c.(timerArmed := false)]);
      if c.userId.None? then Close(s1, ws, AuthTimedOut) else s1
  }

  /**
   * The `close` handler. Store operation 0 refreshes `lastSeen` when the
   * user's last socket went away; its failure is ignored.
   */
  function HandleClose(s: State, ws: SocketId, now: nat, fault: Option<nat>): State
    requires ws in s.status
  {
    var s0 := s.(clock := now, status := s.status[ws := s.status[ws].(ready := Closed)]);
    match s.status[ws].userId
    case None => s0
    case Some(u) =>
      var s1 := RemoveSocketForUser(s0, u, ws);
      if u !in s1.userSockets && fault != Some(0) then s1.(users := TouchLastSeen(s1.users, u, now)) else s1
  }
}
