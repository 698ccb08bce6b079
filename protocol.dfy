/**
 * The channel protocol of src/index.js: socket status, outbound frames, how a
 * frame reaches the sockets that are open, and how an inbound frame is
 * dispatched before and after authentication.
 */
module Protocol {
  import opened Wrappers
  import opened Json
  import opened MessageModel
  import opened Registry

  /** `ws.readyState`, as far as the server distinguishes it. */
  datatype ReadyState = Open | Closing | Closed

  /** A close the server initiated: the code and reason given to `ws.close`. */
  datatype Closure = Closure(code: int, reason: string)

  const AuthFailed := Closure(4002, "Auth failed")
  const AuthTimedOut := Closure(4003, "Auth timeout")

  /**
   * What the connection handler knows about one socket: its ready state, the
   * user bound to it (`userId`, null until authentication), whether the auth
   * timer is still armed, and the close the server asked for, if any.
   */
  datatype Conn = Conn(ready: ReadyState, userId: Option<UserId>, timerArmed: bool, closure: Option<Closure>)

  /** Frames the server writes. `Sent.frontendKey` is `None` when the client gave no `msgKey`. */
  datatype OutFrame =
    | Welcome(content: string)
    | MessageFrame(message: Message)
    | Sent(message: Message, frontendKey: Option<Json>, delivered: bool, createdAt: nat)
    | Delivered(message: Message)
    | ReadReceipt(message: Message)
    | Typing(from: UserId, state: bool)
    | OnlineUsers(userIds: set<string>)
    | Pong
    | Error(reason: string)

  const WelcomeText := "Welcome to the chat server"
  const SendFailed := "Failed to send message"
  const UnknownType := "Unknown message type"

  /** Per socket, the frames it has been sent, in the order they were written. */
  type Outbox = map<SocketId, seq<OutFrame>>

  predicate IsOpen(status: map<SocketId, Conn>, s: SocketId)
  {
    s in status && status[s].ready == Open
  }

  /** `ws.send(f)` on every socket of `targets` whose ready state is OPEN. */
  function Fanout(out: Outbox, status: map<SocketId, Conn>, targets: set<SocketId>, f: OutFrame): (r: Outbox)
    ensures r.Keys == out.Keys
  {
    map s | s in out :: if s in targets && IsOpen(status, s) then out[s] + [f] else out[s]
  }

  /** `ws.send(f)` on one socket: a frame written to a socket that is not open is dropped. */
  function Emit(out: Outbox, status: map<SocketId, Conn>, s: SocketId, f: OutFrame): Outbox
  {
    Fanout(out, status, {s}, f)
  }

  /** A fan-out reaches each open target once, appends `f` after what it had, and touches nothing else. */
  lemma FanoutDelivers(out: Outbox, status: map<SocketId, Conn>, targets: set<SocketId>, f: OutFrame, s: SocketId)
    requires s in out
    ensures s in targets && IsOpen(status, s) ==> Fanout(out, status, targets, f)[s] == out[s] + [f]
    ensures !(s in targets && IsOpen(status, s)) ==> Fanout(out, status, targets, f)[s] == out[s]
  {
  }

  /** Handling one more target of a fan-out, as the server's loops do. */
  lemma FanoutStep(out: Outbox, status: map<SocketId, Conn>, done: set<SocketId>, s: SocketId, f: OutFrame)
    requires s !in done
    ensures Fanout(out, status, done + {s}, f) ==
      var prev := Fanout(out, status, done, f);
      if s in out && IsOpen(status, s) then prev[s := prev[s] + [f]] else prev
  {
  }

  /** `ws.send(f)` appends `f` to the transcript of `s` when it is open and changes nothing else. */
  lemma EmitAppends(out: Outbox, status: map<SocketId, Conn>, s: SocketId, f: OutFrame)
    ensures Emit(out, status, s, f) == if s in out && IsOpen(status, s) then out[s := out[s] + [f]] else out
  {
    FanoutStep(out, status, {}, s, f);
    assert {} + {s} == {s};
    assert Fanout(out, status, {}, f) == out;
  }

  /** Writing to two disjoint groups one after the other is writing to their union. */
  lemma FanoutCompose(out: Outbox, status: map<SocketId, Conn>, a: set<SocketId>, b: set<SocketId>, f: OutFrame)
    requires a !! b
    ensures Fanout(Fanout(out, status, a, f), status, b, f) == Fanout(out, status, a + b, f)
  {
  }

  /** Writing to nobody changes nothing. */
  lemma FanoutNone(out: Outbox, status: map<SocketId, Conn>, f: OutFrame)
    ensures Fanout(out, status, {}, f) == out
  {
  }

  /** What an inbound frame asks the server to do. */
  datatype Action =
    | Drop
    | Identify(token: Json)
    | DirectMessage(data: Json)
    | TypingForward(to: Option<Json>, state: bool)
    | MarkRead
    | Ping
    | Unknown
    | Throw

  /**
   * The dispatch of the `message` handler as written. `raw` is the result of
   * `JSON.parse`, `None` when it throws. After authentication a frame that
   * parses to `null` makes `data.type` throw outside any `try`.
   */
  function ClassifyAsWritten(authenticated: bool, raw: Option<Json>): Action
  {
    if raw.None? then Drop
    else
      var v := raw.value;
      if !authenticated then
        if Truthy(raw) && Field(v, "type") == Some(JStr("identify")) && Truthy(Field(v, "token"))
        then Identify(Field(v, "token").value)
        else Drop
      else if v.JNull? then Throw
      else
        var t := Field(v, "type");
        if t == Some(JStr("direct_message")) then DirectMessage(v)
        else if t == Some(JStr("typing")) then TypingForward(Field(v, "to"), Truthy(Field(v, "state")))
        else if t == Some(JStr("read")) then MarkRead
        else if t == Some(JStr("ping")) then Ping
        else Unknown
  }

  /** The dispatch the model uses: a frame that parses to `null` is an unknown frame. */
  function Classify(authenticated: bool, raw: Option<Json>): Action
  {
    var a := ClassifyAsWritten(authenticated, raw);
    if a.Throw? then Unknown else a
  }

  /** As written, an authenticated client that sends the text `null` makes the handler throw. */
  lemma NullFrameThrows()
    ensures ClassifyAsWritten(true, Some(JNull)) == Throw
  {
  }

  /** The corrected dispatch never throws, and differs from the written one only where that one throws. */
  lemma ClassifyNeverThrows(authenticated: bool, raw: Option<Json>)
    ensures Classify(authenticated, raw) != Throw
    ensures ClassifyAsWritten(authenticated, raw) != Throw ==> Classify(authenticated, raw) == ClassifyAsWritten(authenticated, raw)
    ensures Classify(true, Some(JNull)) == Unknown
  {
  }

  /**
   * Before authentication only a parseable, truthy frame of type `identify`
   * with a truthy token starts authentication; every other frame is dropped.
   */
  lemma PreAuthOnlyIdentify(raw: Option<Json>)
    ensures Classify(false, raw).Drop? || Classify(false, raw).Identify?
    ensures Classify(false, raw).Identify? <==>
      raw.Some? && raw.value.JObject? && Field(raw.value, "type") == Some(JStr("identify")) && Truthy(Field(raw.value, "token"))
    ensures Classify(false, raw).Identify? ==> Some(Classify(false, raw).token) == Field(raw.value, "token")
  {
  }

  /** After authentication no frame authenticates again: an `identify` frame is an unknown type. */
  lemma PostAuthIdentifyIsUnknown(raw: Option<Json>)
    ensures !Classify(true, raw).Identify?
    ensures raw.Some? && raw.value.JObject? && Field(raw.value, "type") == Some(JStr("identify")) ==> Classify(true, raw) == Unknown
    ensures raw.None? ==> Classify(true, raw) == Drop
  {
  }
}
