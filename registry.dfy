/**
 * The `userSockets` map of src/index.js as a value: `String(userId)` to the
 * set of that user's sockets, and the two updates the server makes to it.
 */
module Registry {

  type SocketId = nat

  type Registry = map<string, set<SocketId>>

  /** No user is filed with an empty set of sockets: an absent key means offline. */
  predicate NoEmptyEntries(reg: Registry)
  {
    forall k :: k in reg ==> reg[k] != {}
  }

  /** Every socket is filed under at most one user. */
  predicate Exclusive(reg: Registry)
  {
    forall k1, k2, s :: k1 in reg && k2 in reg && s in reg[k1] && s in reg[k2] ==> k1 == k2
  }

  /** The sockets filed under `k`; empty when `k` is offline. */
  function SocketsOf(reg: Registry, k: string): set<SocketId>
  {
    if k in reg then reg[k] else {}
  }

  /** Every socket filed under some user. */
  function OnlineSockets(reg: Registry): set<SocketId>
  {
    set k, s | k in reg && s in reg[k] :: s
  }

  /** `addSocketForUser` without its broadcast. */
  function AddSocket(reg: Registry, k: string, s: SocketId): (r: Registry)
    ensures r.Keys == reg.Keys + {k}
    ensures r[k] == SocketsOf(reg, k) + {s}
    ensures forall k' :: k' in reg && k' != k ==> r[k'] == reg[k']
  {
    reg[k := SocketsOf(reg, k) + {s}]
  }

  /** `removeSocketForUser` without its broadcast. */
  function RemoveSocket(reg: Registry, k: string, s: SocketId): (r: Registry)
    ensures k !in reg ==> r == reg
    ensures k in reg ==> SocketsOf(r, k) == reg[k] - {s}
    ensures r.Keys == if k in reg && reg[k] <= {s} then reg.Keys - {k} else reg.Keys
    ensures forall k' :: k' in reg && k' != k ==> r[k'] == reg[k']
  {
    if k !in reg then reg
    else
      var rest := reg[k] - {s};
      if rest == {} then reg - {k} else reg[k := rest]
  }

  /** Adding keeps the registry free of empty entries and keeps other users' entries. */
  lemma AddSocketKeepsInvariant(reg: Registry, k: string, s: SocketId)
    requires NoEmptyEntries(reg)
    ensures NoEmptyEntries(AddSocket(reg, k, s))
    ensures s in SocketsOf(AddSocket(reg, k, s), k)
  {
  }

  /** Adding a socket that is already filed under the user changes nothing. */
  lemma AddSocketIdempotent(reg: Registry, k: string, s: SocketId)
    requires s in SocketsOf(reg, k)
    ensures AddSocket(reg, k, s) == reg
  {
    assert SocketsOf(reg, k) + {s} == reg[k];
  }

  /** Removing deletes a key whose set becomes empty, so no key ever maps to an empty set. */
  lemma RemoveSocketKeepsInvariant(reg: Registry, k: string, s: SocketId)
    requires NoEmptyEntries(reg)
    ensures NoEmptyEntries(RemoveSocket(reg, k, s))
    ensures s !in SocketsOf(RemoveSocket(reg, k, s), k)
    ensures k in RemoveSocket(reg, k, s) <==> SocketsOf(reg, k) - {s} != {}
  {
  }

  /** Removing a socket just added by a fresh registration gives back the registry before it. */
  lemma {:induction false} RemoveUndoesAdd(reg: Registry, k: string, s: SocketId)
    requires NoEmptyEntries(reg)
    requires s !in SocketsOf(reg, k)
    ensures RemoveSocket(AddSocket(reg, k, s), k, s) == reg
  {
    var added := AddSocket(reg, k, s);
    assert added[k] - {s} == SocketsOf(reg, k);
    if k in reg {
      assert added[k] - {s} != {};
      assert RemoveSocket(added, k, s) == added[k := reg[k]];
    } else {
      assert RemoveSocket(added, k, s) == added - {k};
    }
  }

  /** Adding files exactly one more socket online. */
  lemma OnlineAfterAdd(reg: Registry, k: string, s: SocketId)
    ensures OnlineSockets(AddSocket(reg, k, s)) == OnlineSockets(reg) + {s}
  {
    var r := AddSocket(reg, k, s);
    forall x | x in OnlineSockets(r) ensures x in OnlineSockets(reg) + {s} {
      var k' :| k' in r && x in r[k'];
      if k' != k { assert x in reg[k']; } else if x != s { assert x in reg[k]; }
    }
    forall x | x in OnlineSockets(reg) + {s} ensures x in OnlineSockets(r) {
      if x == s { assert x in r[k]; }
      else {
        var k' :| k' in reg && x in reg[k'];
        assert x in r[k'];
      }
    }
  }

  /** When each socket has one owner, removing a socket takes exactly that socket offline. */
  lemma OnlineAfterRemove(reg: Registry, k: string, s: SocketId)
    requires Exclusive(reg)
    requires s in SocketsOf(reg, k)
    ensures OnlineSockets(RemoveSocket(reg, k, s)) == OnlineSockets(reg) - {s}
  {
    var r := RemoveSocket(reg, k, s);
    forall x | x in OnlineSockets(r) ensures x in OnlineSockets(reg) - {s} {
      var k' :| k' in r && x in r[k'];
      if k' == k { assert x in reg[k] - {s}; } else { assert x in reg[k']; }
    }
    forall x | x in OnlineSockets(reg) - {s} ensures x in OnlineSockets(r) {
      var k' :| k' in reg && x in reg[k'];
      if k' == k { assert x in SocketsOf(r, k); } else { assert x in r[k']; }
    }
  }
}
