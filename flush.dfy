/**
 * What the two loops over stored messages achieve: the flush of pending
 * messages when a user connects, and marking everything read. Both are
 * modelled by `Delivery.Replay`; the lemmas here say which messages change,
 * in which order the recipient sees them, and what is left for later.
 */
module Flush {
  import opened Wrappers
  import opened MessageModel
  import opened MessageStore
  import opened Registry
  import opened Protocol
  import opened Delivery

  /** Store positions in strictly increasing order, as every `find` returns them. */
  predicate Increasing(idx: seq<nat>)
  {
    forall a, b :: 0 <= a < b < |idx| ==> idx[a] < idx[b]
  }

  /** The messages at positions `idx`, in that order. */
  function Pick(store: seq<Message>, idx: seq<nat>): (r: seq<Message>)
    requires forall k :: 0 <= k < |idx| ==> idx[k] < |store|
    ensures |r| == |idx| && forall k :: 0 <= k < |idx| ==> r[k] == store[idx[k]]
  {
    seq(|idx|, k requires 0 <= k < |idx| => store[idx[k]])
  }

  /** The `message` frames of a transcript, in the order they were sent. */
  function MessageFrames(t: seq<OutFrame>): (r: seq<Message>)
    ensures |r| <= |t|
    decreases |t|
  {
    if t == [] then []
    else
      var last := t[|t| - 1];
      MessageFrames(t[..|t| - 1]) + if last.MessageFrame? then [last.message] else []
  }

  lemma MessageFramesSnoc(t: seq<OutFrame>, f: OutFrame)
    ensures MessageFrames(t + [f]) == MessageFrames(t) + if f.MessageFrame? then [f.message] else []
  {
    assert (t + [f])[..|t|] == t;
  }

  /** A frame other than `message`, fanned out, leaves every transcript's message frames alone. */
  lemma FanoutKeepsMessageFrames(out: Outbox, status: map<SocketId, Conn>, targets: set<SocketId>, f: OutFrame, x: SocketId)
    requires x in out && !f.MessageFrame?
    ensures MessageFrames(Fanout(out, status, targets, f)[x]) == MessageFrames(out[x])
  {
    FanoutDelivers(out, status, targets, f, x);
    MessageFramesSnoc(out[x], f);
  }

  /** The indices from `PendingFor` and `UnreadFor` are increasing. */
  lemma IndicesIncreasing(store: seq<Message>, u: UserId)
    ensures Increasing(PendingFor(store, u)) && Increasing(UnreadFor(store, u))
  {
  }

  /** In an increasing sequence the last position is not among the earlier ones. */
  lemma LastIsNew(idx: seq<nat>)
    requires idx != [] && Increasing(idx)
    ensures Increasing(idx[..|idx| - 1]) && idx[|idx| - 1] !in idx[..|idx| - 1]
  {
    var init := idx[..|idx| - 1];
    forall k | 0 <= k < |init| ensures init[k] != idx[|idx| - 1] {
      assert idx[k] < idx[|idx| - 1];
    }
  }

  /**
   * After a pass over the increasing positions `idx`, a message at one of
   * them carries the pass's timestamp and every other message is untouched.
   */
  lemma {:induction false} ReplayStore(s: State, p: Pass, idx: seq<nat>, j: nat)
    requires InStore(s, idx) && Increasing(idx) && j < |s.store|
    ensures Replay(s, p, idx).store[j] == if j in idx then Stamp(s.store[j], p, s.clock) else s.store[j]
    decreases |idx|
  {
    if idx != [] {
      var init := idx[..|idx| - 1];
      var last := idx[|idx| - 1];
      LastIsNew(idx);
      assert InStore(s, init);
      ReplayStore(s, p, init, j);
      ReplayStore(s, p, init, last);
      assert j in idx <==> j in init || j == last by {
        assert idx == init + [last];
      }
    }
  }

  /** The timestamp a pass fills in was null before. */
  predicate Unstamped(m: Message, p: Pass)
  {
    match p
    case Deliver(_) => m.deliveredAt.None?
    case Read => m.readAt.None?
  }

  /** A prefix of the unread list can be replayed by the read pass. */
  lemma UnreadPrefixReplayable(s: State, u: UserId, n: nat)
    requires n <= |UnreadFor(s.store, u)|
    ensures
      var idx := UnreadFor(s.store, u)[..n];
      && InStore(s, idx) && Increasing(idx)
      && forall k :: 0 <= k < |idx| ==> Unstamped(s.store[idx[k]], Read)
  {
    var all := UnreadFor(s.store, u);
    var idx := all[..n];
    forall k | 0 <= k < |idx| ensures idx[k] < |s.store| && Unstamped(s.store[idx[k]], Read) {
      assert idx[k] == all[k];
      assert IsUnread(s.store[all[k]], u);
    }
  }

  /** A prefix of the pending list can be replayed by the delivery pass. */
  lemma PendingPrefixReplayable(s: State, u: UserId, ws: SocketId, n: nat)
    requires n <= |PendingFor(s.store, u)|
    ensures
      var idx := PendingFor(s.store, u)[..n];
      && InStore(s, idx) && Increasing(idx)
      && forall k :: 0 <= k < |idx| ==> Unstamped(s.store[idx[k]], Deliver(ws))
  {
    var all := PendingFor(s.store, u);
    var idx := all[..n];
    forall k | 0 <= k < |idx| ensures idx[k] < |s.store| && Unstamped(s.store[idx[k]], Deliver(ws)) {
      assert idx[k] == all[k];
      assert IsPending(s.store[all[k]], u);
    }
  }

  /** A pass over messages whose timestamp was null only fills that timestamp in. */
  lemma ReplayEvolves(s: State, p: Pass, idx: seq<nat>)
    requires InStore(s, idx) && Increasing(idx)
    requires forall k :: 0 <= k < |idx| ==> Unstamped(s.store[idx[k]], p)
    ensures Evolves(s.store, Replay(s, p, idx).store)
  {
    var r := Replay(s, p, idx);
    forall j | 0 <= j < |s.store| ensures Grows(s.store[j], r.store[j]) {
      ReplayStore(s, p, idx, j);
    }
  }

  /** In an increasing sequence, the members after the first `n` are those not among the first `n`. */
  lemma SplitAt(found: seq<nat>, n: nat, i: nat)
    requires Increasing(found) && n <= |found|
    ensures i in found[n..] <==> i in found && i !in found[..n]
  {
    assert found == found[..n] + found[n..];
    if i in found[n..] {
      var k :| n <= k < |found| && found[k] == i;
      forall a | 0 <= a < n ensures found[a] != i {
        assert found[a] < found[k];
      }
    }
  }

  /**
   * A flush that saved the first `n` pending messages leaves exactly the
   * others pending: a message whose save failed is sent again on the next
   * connection.
   */
  lemma FlushLeavesRest(s: State, ws: SocketId, u: UserId, n: nat)
    requires n <= |PendingFor(s.store, u)|
    ensures
      var pending := PendingFor(s.store, u);
      forall i: nat :: i in PendingFor(Replay(s, Deliver(ws), pending[..n]).store, u) <==> i in pending[n..]
  {
    var pending := PendingFor(s.store, u);
    IndicesIncreasing(s.store, u);
    var done := pending[..n];
    var r := Replay(s, Deliver(ws), done);
    forall i: nat ensures i in PendingFor(r.store, u) <==> i in pending[n..] {
      SplitAt(pending, n, i);
      if i < |s.store| {
        ReplayStore(s, Deliver(ws), done, i);
        assert IsPending(r.store[i], u) <==> i in pending[n..];
      }
    }
  }

  /** Marking the first `n` unread messages read leaves exactly the others unread. */
  lemma ReadLeavesRest(s: State, u: UserId, n: nat)
    requires n <= |UnreadFor(s.store, u)|
    ensures
      var unread := UnreadFor(s.store, u);
      forall i: nat :: i in UnreadFor(Replay(s, Read, unread[..n]).store, u) <==> i in unread[n..]
  {
    var unread := UnreadFor(s.store, u);
    IndicesIncreasing(s.store, u);
    var done := unread[..n];
    var r := Replay(s, Read, done);
    forall i: nat ensures i in UnreadFor(r.store, u) <==> i in unread[n..] {
      SplitAt(unread, n, i);
      if i < |s.store| {
        ReplayStore(s, Read, done, i);
        assert IsUnread(r.store[i], u) <==> i in unread[n..];
      }
    }
  }

  /** One iteration of the flush adds exactly one message frame to the socket's transcript: the message as stored. */
  lemma ReplayOneTranscript(s: State, ws: SocketId, i: nat)
    requires i < |s.store| && ws in s.outbox && IsOpen(s.status, ws)
    ensures ws in ReplayOne(s, Deliver(ws), i).outbox
    ensures MessageFrames(ReplayOne(s, Deliver(ws), i).outbox[ws]) == MessageFrames(s.outbox[ws]) + [s.store[i]]
  {
    var s1 := Send(s, ws, MessageFrame(s.store[i]));
    FanoutDelivers(s.outbox, s.status, {ws}, MessageFrame(s.store[i]), ws);
    MessageFramesSnoc(s.outbox[ws], MessageFrame(s.store[i]));
    var m := Stamp(s.store[i], Deliver(ws), s.clock);
    var s2 := s1.(store := s.store[i := m]);
    FanoutKeepsMessageFrames(s2.outbox, s2.status, SocketsOf(s2.userSockets, m.from), Delivered(m), ws);
  }

  lemma AppendAssoc<T>(a: seq<T>, b: seq<T>, c: seq<T>)
    ensures (a + b) + c == a + (b + c)
  {
  }

  lemma PickSnoc(store: seq<Message>, idx: seq<nat>)
    requires idx != [] && forall k :: 0 <= k < |idx| ==> idx[k] < |store|
    ensures Pick(store, idx) == Pick(store, idx[..|idx| - 1]) + [store[idx[|idx| - 1]]]
  {
  }

  /**
   * The flush sends the messages at `idx` to `ws` in the order of `idx`, each
   * as it was before it was marked delivered.
   */
  lemma {:induction false} FlushTranscript(s: State, ws: SocketId, idx: seq<nat>)
    requires InStore(s, idx) && Increasing(idx) && ws in s.outbox && IsOpen(s.status, ws)
    ensures ws in Replay(s, Deliver(ws), idx).outbox
    ensures MessageFrames(Replay(s, Deliver(ws), idx).outbox[ws]) == MessageFrames(s.outbox[ws]) + Pick(s.store, idx)
    decreases |idx|
  {
    if idx == [] {
      assert Pick(s.store, idx) == [];
    } else {
      var init := idx[..|idx| - 1];
      var last := idx[|idx| - 1];
      LastIsNew(idx);
      assert InStore(s, init);
      FlushTranscript(s, ws, init);
      var prev := Replay(s, Deliver(ws), init);
      ReplayStore(s, Deliver(ws), init, last);
      var r := ReplayOne(prev, Deliver(ws), last);
      assert Replay(s, Deliver(ws), idx) == r;
      ReplayOneTranscript(prev, ws, last);
      var before := MessageFrames(s.outbox[ws]);
      var head := Pick(s.store, init);
      var m := s.store[last];
      assert prev.store[last] == m;
      assert MessageFrames(r.outbox[ws]) == (before + head) + [m];
      PickSnoc(s.store, idx);
      assert Pick(s.store, idx) == head + [m];
      AppendAssoc(before, head, [m]);
    }
  }

  // ----- receipts to the senders -----

  /** The receipt a pass sends the sender of the message `m` it has just stamped. */
  function Receipt(p: Pass, m: Message): OutFrame
  {
    if p.Read? then ReadReceipt(m) else Delivered(m)
  }

  /** The `delivered` and `read` receipts of a transcript, in the order they were sent. */
  function ReceiptFrames(t: seq<OutFrame>): (r: seq<OutFrame>)
    ensures |r| <= |t|
    decreases |t|
  {
    if t == [] then []
    else
      var last := t[|t| - 1];
      ReceiptFrames(t[..|t| - 1]) + if last.Delivered? || last.ReadReceipt? then [last] else []
  }

  lemma ReceiptFramesSnoc(t: seq<OutFrame>, f: OutFrame)
    ensures ReceiptFrames(t + [f]) == ReceiptFrames(t) + if f.Delivered? || f.ReadReceipt? then [f] else []
  {
    assert (t + [f])[..|t|] == t;
  }

  /** Every receipt counted in a transcript was written to it. */
  lemma {:induction false} ReceiptFramesWritten(t: seq<OutFrame>, f: OutFrame)
    requires f in ReceiptFrames(t)
    ensures f in t
    decreases |t|
  {
    var init := t[..|t| - 1];
    if f in ReceiptFrames(init) {
      ReceiptFramesWritten(init, f);
      assert init[..] <= t;
    }
  }

  /**
   * The receipts a pass over the positions `idx` owes socket `x`, in the
   * order of `idx`: one for each message whose sender has `x` filed in `reg`,
   * carrying the message as the pass stamps it.
   */
  function ReceiptsTo(reg: Registry, store: seq<Message>, now: nat, p: Pass, idx: seq<nat>, x: SocketId): seq<OutFrame>
    requires forall k :: 0 <= k < |idx| ==> idx[k] < |store|
    decreases |idx|
  {
    if idx == [] then []
    else
      var last := idx[|idx| - 1];
      ReceiptsTo(reg, store, now, p, idx[..|idx| - 1], x)
        + if x in SocketsOf(reg, store[last].from) then [Receipt(p, Stamp(store[last], p, now))] else []
  }

  /** Each message of the pass whose sender has `x` filed owes `x` its receipt. */
  lemma {:induction false} ReceiptsToCovers(reg: Registry, store: seq<Message>, now: nat, p: Pass, idx: seq<nat>, x: SocketId, k: nat)
    requires (forall j :: 0 <= j < |idx| ==> idx[j] < |store|) && k < |idx|
    requires x in SocketsOf(reg, store[idx[k]].from)
    ensures Receipt(p, Stamp(store[idx[k]], p, now)) in ReceiptsTo(reg, store, now, p, idx, x)
    decreases |idx|
  {
    if k < |idx| - 1 {
      var init := idx[..|idx| - 1];
      assert init[k] == idx[k];
      ReceiptsToCovers(reg, store, now, p, init, x, k);
    }
  }

  /** One more step of the receipts owed. */
  lemma ReceiptsToSnoc(reg: Registry, store: seq<Message>, now: nat, p: Pass, idx: seq<nat>, x: SocketId)
    requires (forall k :: 0 <= k < |idx| ==> idx[k] < |store|) && idx != []
    ensures ReceiptsTo(reg, store, now, p, idx, x) == ReceiptsTo(reg, store, now, p, idx[..|idx| - 1], x)
      + if x in SocketsOf(reg, store[idx[|idx| - 1]].from) then [Receipt(p, Stamp(store[idx[|idx| - 1]], p, now))] else []
  {
  }

  /** A pass over a non-empty list is the pass over all but its last position, then one iteration. */
  lemma ReplaySnoc(s: State, p: Pass, idx: seq<nat>)
    requires InStore(s, idx) && idx != []
    ensures InStore(s, idx[..|idx| - 1]) && idx[|idx| - 1] < |Replay(s, p, idx[..|idx| - 1]).store|
    ensures Replay(s, p, idx) == ReplayOne(Replay(s, p, idx[..|idx| - 1]), p, idx[|idx| - 1])
  {
  }

  /** A frame other than a receipt, fanned out, leaves every transcript's receipts alone. */
  lemma FanoutKeepsReceiptFrames(out: Outbox, status: map<SocketId, Conn>, targets: set<SocketId>, f: OutFrame, x: SocketId)
    requires x in out && !f.Delivered? && !f.ReadReceipt?
    ensures x in Fanout(out, status, targets, f)
    ensures ReceiptFrames(Fanout(out, status, targets, f)[x]) == ReceiptFrames(out[x])
  {
    FanoutDelivers(out, status, targets, f, x);
    ReceiptFramesSnoc(out[x], f);
  }

  /** A fan-out adds to an open target's receipts exactly the frame, when the frame is a receipt. */
  lemma FanoutReceipts(out: Outbox, status: map<SocketId, Conn>, targets: set<SocketId>, f: OutFrame, x: SocketId)
    requires x in out && IsOpen(status, x)
    ensures x in Fanout(out, status, targets, f)
    ensures ReceiptFrames(Fanout(out, status, targets, f)[x]) == ReceiptFrames(out[x])
      + if x in targets && (f.Delivered? || f.ReadReceipt?) then [f] else []
  {
    FanoutDelivers(out, status, targets, f, x);
    ReceiptFramesSnoc(out[x], f);
  }

  /** One iteration appends to an open socket's receipts exactly the receipt it owes that socket. */
  lemma ReplayOneReceipts(s: State, p: Pass, i: nat, x: SocketId)
    requires i < |s.store| && x in s.outbox && IsOpen(s.status, x)
    ensures x in ReplayOne(s, p, i).outbox
    ensures ReceiptFrames(ReplayOne(s, p, i).outbox[x]) == ReceiptFrames(s.outbox[x])
      + if x in SocketsOf(s.userSockets, s.store[i].from) then [Receipt(p, Stamp(s.store[i], p, s.clock))] else []
  {
    var m := Stamp(s.store[i], p, s.clock);
    var s1 := if p.Deliver? then Send(s, p.ws, MessageFrame(s.store[i])) else s;
    if p.Deliver? {
      FanoutReceipts(s.outbox, s.status, {p.ws}, MessageFrame(s.store[i]), x);
    }
    assert x in s1.outbox && ReceiptFrames(s1.outbox[x]) == ReceiptFrames(s.outbox[x]);
    var s2 := s1.(store := s.store[i := m]);
    assert ReplayOne(s, p, i) == SendToUser(s2, m.from, Receipt(p, m));
    FanoutReceipts(s2.outbox, s2.status, SocketsOf(s2.userSockets, m.from), Receipt(p, m), x);
  }


  /**
   * A pass over the increasing positions `idx` sends every open socket the
   * receipts it owes it, in the order of `idx`, and no other receipt.
   */
  lemma {:induction false} ReplayReceipts(s: State, p: Pass, idx: seq<nat>, x: SocketId)
    requires InStore(s, idx) && Increasing(idx) && x in s.outbox && IsOpen(s.status, x)
    ensures x in Replay(s, p, idx).outbox
    ensures ReceiptFrames(Replay(s, p, idx).outbox[x]) == ReceiptFrames(s.outbox[x]) + ReceiptsTo(s.userSockets, s.store, s.clock, p, idx, x)
    decreases |idx|
  {
    if idx != [] {
      var init := idx[..|idx| - 1];
      var last := idx[|idx| - 1];
      LastIsNew(idx);
      assert InStore(s, init);
      ReplayReceipts(s, p, init, x);
      var prev := Replay(s, p, init);
      ReplayStore(s, p, init, last);
      ReplaySnoc(s, p, idx);
      var before := ReceiptFrames(s.outbox[x]);
      var head := ReceiptsTo(s.userSockets, s.store, s.clock, p, init, x);
      var tail := if x in SocketsOf(s.userSockets, s.store[last].from) then [Receipt(p, Stamp(s.store[last], p, s.clock))] else [];
      ReplayOneReceipts(prev, p, last, x);
      assert ReceiptFrames(ReplayOne(prev, p, last).outbox[x]) == (before + head) + tail;
      ReceiptsToSnoc(s.userSockets, s.store, s.clock, p, idx, x);
      AppendAssoc(before, head, tail);
    }
  }

  /** A pass only appends: every transcript it leaves starts with the transcript it found. */
  lemma {:induction false} ReplayExtendsTranscript(s: State, p: Pass, idx: seq<nat>, x: SocketId)
    requires InStore(s, idx) && x in s.outbox
    ensures x in Replay(s, p, idx).outbox && s.outbox[x] <= Replay(s, p, idx).outbox[x]
    decreases |idx|
  {
    if idx != [] {
      var init := idx[..|idx| - 1];
      var last := idx[|idx| - 1];
      assert InStore(s, init);
      ReplayExtendsTranscript(s, p, init, x);
      var prev := Replay(s, p, init);
      var m := Stamp(prev.store[last], p, prev.clock);
      match p
      case Deliver(ws) =>
        var s1 := Send(prev, ws, MessageFrame(prev.store[last]));
        FanoutDelivers(prev.outbox, prev.status, {ws}, MessageFrame(prev.store[last]), x);
        var s2 := s1.(store := prev.store[last := m]);
        FanoutDelivers(s2.outbox, s2.status, SocketsOf(s2.userSockets, m.from), Delivered(m), x);
      case Read =>
        var s2 := prev.(store := prev.store[last := m]);
        FanoutDelivers(s2.outbox, s2.status, SocketsOf(s2.userSockets, m.from), ReadReceipt(m), x);
    }
  }

  /** Under a well-formed store the flush goes oldest first: the `sort({createdAt: 1})` of the query. */
  lemma PendingOldestFirst(store: seq<Message>, clock: nat, u: UserId)
    requires WellFormed(store, clock)
    ensures var ms := Pick(store, PendingFor(store, u));
      forall a, b :: 0 <= a < b < |ms| ==> ms[a].createdAt <= ms[b].createdAt
  {
    IndicesIncreasing(store, u);
  }
}
