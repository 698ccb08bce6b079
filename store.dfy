/**
 * The message collection as the server queries and updates it: a sequence in
 * insertion order whose position is the message's identity.
 */
module MessageStore {
  import opened Wrappers
  import opened MessageModel

  /** A message's timestamps are no later than `clock`, and delivery and reading come after creation. */
  predicate Stamped(m: Message, clock: nat)
  {
    && m.createdAt <= clock
    && (m.deliveredAt.Some? ==> m.createdAt <= m.deliveredAt.value <= clock)
    && (m.readAt.Some? ==> m.createdAt <= m.readAt.value <= clock)
  }

  /** Positions are identities and creation times never decrease along the store. */
  predicate WellFormed(store: seq<Message>, clock: nat)
  {
    && (forall i :: 0 <= i < |store| ==> store[i].id == i && Stamped(store[i], clock))
    && (forall i, j :: 0 <= i < j < |store| ==> store[i].createdAt <= store[j].createdAt)
  }

  /**
   * The positions of the messages satisfying `p`, in store order: what a
   * `find` with that filter returns, oldest first.
   */
  function Indices(store: seq<Message>, p: Message -> bool): (r: seq<nat>)
    ensures forall k :: 0 <= k < |r| ==> r[k] < |store| && p(store[r[k]])
    ensures forall i :: 0 <= i < |store| && p(store[i]) ==> i in r
    ensures forall a, b :: 0 <= a < b < |r| ==> r[a] < r[b]
    decreases |store|
  {
    if store == [] then []
    else
      var n := |store| - 1;
      var r := Indices(store[..n], p);
      if p(store[n]) then r + [n] else r
  }

  /** The filter `{to: u, deliveredAt: null}`. */
  predicate IsPending(m: Message, u: UserId) { m.to == u && m.deliveredAt.None? }

  /** The filter `{to: u, readAt: null}`. */
  predicate IsUnread(m: Message, u: UserId) { m.to == u && m.readAt.None? }

  /** The messages still to be delivered to `u`, sorted by creation time ascending. */
  function PendingFor(store: seq<Message>, u: UserId): seq<nat>
  {
    Indices(store, m => IsPending(m, u))
  }

  /** The messages to `u` not yet read, in the store's natural order. */
  function UnreadFor(store: seq<Message>, u: UserId): seq<nat>
  {
    Indices(store, m => IsUnread(m, u))
  }

  /** `m1` is `m0` with at most its null timestamps filled in. */
  predicate Grows(m0: Message, m1: Message)
  {
    && m1.(deliveredAt := m0.deliveredAt, readAt := m0.readAt) == m0
    && (m0.deliveredAt.Some? ==> m1.deliveredAt == m0.deliveredAt)
    && (m0.readAt.Some? ==> m1.readAt == m0.readAt)
  }

  /**
   * `s1` is a later state of the store `s0`: nothing is deleted, and the only
   * change to an existing message is a delivered or read time going from null
   * to non-null.
   */
  predicate Evolves(s0: seq<Message>, s1: seq<Message>)
  {
    |s0| <= |s1| && forall i :: 0 <= i < |s0| ==> Grows(s0[i], s1[i])
  }
}
