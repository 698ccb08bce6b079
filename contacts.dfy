/**
 * `GET /messages/recent-contacts` (src/routes/messages.js:13-60): the newest
 * message exchanged with each of the user's connections, newest first.
 */
module Contacts {
  import opened Wrappers
  import opened MessageModel
  import opened MessageStore
  import History

  /** `findOne(filter).sort({createdAt: -1})`: the newest message between `a` and `b`, if any. */
  function Latest(store: seq<Message>, a: UserId, b: UserId): (r: Option<Message>)
    ensures r.Some? ==> r.value in store && History.Between(r.value, a, b)
    ensures r.None? ==> forall m :: m in store ==> !History.Between(m, a, b)
  {
    var c := History.Conversation(store, a, b);
    if c == [] then None else Some(c[0])
  }

  /** In a well-formed store, no message between the two is newer than the one found. */
  lemma LatestIsNewest(store: seq<Message>, clock: nat, a: UserId, b: UserId)
    requires WellFormed(store, clock) && Latest(store, a, b).Some?
    ensures forall m :: m in store && History.Between(m, a, b) ==>
      m.createdAt <= Latest(store, a, b).value.createdAt && m.id <= Latest(store, a, b).value.id
  {
    var c := History.Conversation(store, a, b);
    History.ConversationNewestFirst(store, clock, a, b);
    forall m | m in store && History.Between(m, a, b)
      ensures m.createdAt <= c[0].createdAt && m.id <= c[0].id
    {
      var i :| 0 <= i < |c| && c[i] == m;
    }
  }

  /** The `contacts` array after the loop: one entry per connection that has a message with `u`, in connection order. */
  function Collected(store: seq<Message>, u: UserId, connections: seq<UserId>): seq<Message>
  {
    if connections == [] then []
    else
      var n := |connections| - 1;
      var found := Latest(store, u, connections[n]);
      Collected(store, u, connections[..n]) + (if found.Some? then [found.value] else [])
  }

  /** The last connection's entry comes last. */
  lemma CollectedSnoc(store: seq<Message>, u: UserId, connections: seq<UserId>, c: UserId)
    ensures var found := Latest(store, u, c);
      Collected(store, u, connections + [c]) == Collected(store, u, connections) + (if found.Some? then [found.value] else [])
  {
    assert (connections + [c])[..|connections|] == connections;
  }

  /** At most one entry per connection. */
  lemma {:induction false} CollectedLength(store: seq<Message>, u: UserId, connections: seq<UserId>)
    ensures |Collected(store, u, connections)| <= |connections|
  {
    if connections != [] {
      CollectedLength(store, u, connections[..|connections| - 1]);
    }
  }

  /** Each entry is the newest message with one of the connections. */
  lemma {:induction false} CollectedSound(store: seq<Message>, u: UserId, connections: seq<UserId>)
    ensures forall m :: m in Collected(store, u, connections) ==>
      exists c :: c in connections && Latest(store, u, c) == Some(m)
  {
    if connections != [] {
      var n := |connections| - 1;
      var prefix := connections[..n];
      CollectedSound(store, u, prefix);
      assert connections == prefix + [connections[n]];
      CollectedSnoc(store, u, prefix, connections[n]);
      forall m | m in Collected(store, u, connections)
        ensures exists c :: c in connections && Latest(store, u, c) == Some(m)
      {
        if m in Collected(store, u, prefix) {
          var c :| c in prefix && Latest(store, u, c) == Some(m);
          assert c in connections;
        } else {
          assert Latest(store, u, connections[n]) == Some(m);
        }
      }
    }
  }

  /** Every connection that has a message with the user contributes its newest one. */
  lemma {:induction false} CollectedComplete(store: seq<Message>, u: UserId, connections: seq<UserId>)
    ensures forall c :: c in connections && Latest(store, u, c).Some? ==>
      Latest(store, u, c).value in Collected(store, u, connections)
  {
    if connections != [] {
      var n := |connections| - 1;
      var prefix := connections[..n];
      CollectedComplete(store, u, prefix);
      assert connections == prefix + [connections[n]];
      CollectedSnoc(store, u, prefix, connections[n]);
      forall c | c in connections && Latest(store, u, c).Some?
        ensures Latest(store, u, c).value in Collected(store, u, connections)
      {
        if c in prefix {
          assert Latest(store, u, c).value in Collected(store, u, prefix);
        }
      }
    }
  }

  /** Every connection with a message yields exactly one entry, so none is dropped or doubled. */
  lemma {:induction false} CollectedCount(store: seq<Message>, u: UserId, connections: seq<UserId>)
    requires forall j :: 0 <= j < |connections| ==> Latest(store, u, connections[j]).Some?
    ensures |Collected(store, u, connections)| == |connections|
  {
    if connections != [] {
      CollectedCount(store, u, connections[..|connections| - 1]);
    }
  }

  /** `createdAt` never increases along `r`. */
  predicate Descending(r: seq<Message>)
  {
    forall i, j :: 0 <= i < j < |r| ==> r[i].createdAt >= r[j].createdAt
  }

  /** The messages of `s` created at time `t`, in their order in `s`. */
  function CreatedAt(s: seq<Message>, t: nat): seq<Message>
  {
    if s == [] then [] else (if s[0].createdAt == t then [s[0]] else []) + CreatedAt(s[1..], t)
  }

  /** Places `m` before the first element that is not newer than it. */
  function Insert(m: Message, sorted: seq<Message>): seq<Message>
  {
    if sorted == [] || sorted[0].createdAt <= m.createdAt then [m] + sorted
    else [sorted[0]] + Insert(m, sorted[1..])
  }

  /**
   * `contacts.sort((a, b) => b.createdAt - a.createdAt)`: the stable sort of
   * `Array.prototype.sort`, newest first.
   */
  function SortNewestFirst(s: seq<Message>): seq<Message>
  {
    if s == [] then [] else Insert(s[0], SortNewestFirst(s[1..]))
  }

  /** Inserting adds `m` and nothing else. */
  lemma {:induction false} InsertPermutes(m: Message, sorted: seq<Message>)
    ensures multiset(Insert(m, sorted)) == multiset(sorted) + multiset{m}
  {
    if sorted != [] && sorted[0].createdAt > m.createdAt {
      var tail := sorted[1..];
      InsertPermutes(m, tail);
      assert Insert(m, sorted) == [sorted[0]] + Insert(m, tail);
      assert multiset([sorted[0]] + Insert(m, tail)) == multiset{sorted[0]} + multiset(Insert(m, tail));
      assert sorted == [sorted[0]] + tail;
      assert multiset(sorted) == multiset{sorted[0]} + multiset(tail);
    } else {
      assert multiset([m] + sorted) == multiset{m} + multiset(sorted);
    }
  }

  /** A message no older than the head of a newest-first sequence can go in front of it. */
  lemma DescendingCons(x: Message, s: seq<Message>)
    requires Descending(s) && (s == [] || s[0].createdAt <= x.createdAt)
    ensures Descending([x] + s)
  {
    var r := [x] + s;
    forall i, j | 0 <= i < j < |r|
      ensures r[i].createdAt >= r[j].createdAt
    {
      assert r[j] == s[j - 1];
      if i == 0 {
        assert s[0].createdAt >= s[j - 1].createdAt;
      } else {
        assert r[i] == s[i - 1];
      }
    }
  }

  /** The head after inserting is `m` or the old head. */
  lemma InsertHead(m: Message, sorted: seq<Message>)
    ensures Insert(m, sorted) != []
    ensures Insert(m, sorted)[0] == m || (sorted != [] && Insert(m, sorted)[0] == sorted[0])
  {
  }

  /** Inserting into a newest-first sequence keeps it newest first. */
  lemma {:induction false} InsertDescending(m: Message, sorted: seq<Message>)
    requires Descending(sorted)
    ensures Descending(Insert(m, sorted))
  {
    if sorted == [] || sorted[0].createdAt <= m.createdAt {
      DescendingCons(m, sorted);
    } else {
      var tail := sorted[1..];
      assert Descending(tail) by {
        forall i, j | 0 <= i < j < |tail|
          ensures tail[i].createdAt >= tail[j].createdAt
        {
          assert tail[i] == sorted[i + 1] && tail[j] == sorted[j + 1];
        }
      }
      InsertDescending(m, tail);
      InsertHead(m, tail);
      assert tail != [] ==> sorted[0].createdAt >= tail[0].createdAt by {
        if tail != [] {
          assert tail[0] == sorted[1];
        }
      }
      DescendingCons(sorted[0], Insert(m, tail));
    }
  }

  /** The group of time `t` in a sequence with `x` in front. */
  lemma CreatedAtCons(x: Message, s: seq<Message>, t: nat)
    ensures CreatedAt([x] + s, t) == (if x.createdAt == t then [x] else []) + CreatedAt(s, t)
  {
    assert ([x] + s)[1..] == s;
  }

  /** Inserting `m` changes the group of its own creation time only, by putting `m` first. */
  lemma {:induction false} InsertStable(m: Message, sorted: seq<Message>, t: nat)
    ensures CreatedAt(Insert(m, sorted), t) == (if m.createdAt == t then [m] else []) + CreatedAt(sorted, t)
  {
    if sorted == [] || sorted[0].createdAt <= m.createdAt {
      CreatedAtCons(m, sorted, t);
    } else {
      var x, tail := sorted[0], sorted[1..];
      InsertStable(m, tail, t);
      CreatedAtCons(x, Insert(m, tail), t);
      assert sorted == [x] + tail;
      CreatedAtCons(x, tail, t);
      assert x.createdAt != t || m.createdAt != t;
    }
  }

  /** The sort returns the same messages, newest first. */
  lemma {:induction false} SortSortsAndPermutes(s: seq<Message>)
    ensures Descending(SortNewestFirst(s))
    ensures multiset(SortNewestFirst(s)) == multiset(s)
  {
    if s != [] {
      SortSortsAndPermutes(s[1..]);
      InsertDescending(s[0], SortNewestFirst(s[1..]));
      InsertPermutes(s[0], SortNewestFirst(s[1..]));
      assert s == [s[0]] + s[1..];
    }
  }

  /** The sort is stable: messages created at the same time keep their order. */
  lemma {:induction false} SortStable(s: seq<Message>, t: nat)
    ensures CreatedAt(SortNewestFirst(s), t) == CreatedAt(s, t)
  {
    if s != [] {
      SortStable(s[1..], t);
      InsertStable(s[0], SortNewestFirst(s[1..]), t);
    }
  }

  /** The route's answer. */
  datatype Reply = Contacts(contacts: seq<Message>) | BadRequest | ServerError

  /**
   * The route for the authenticated user `user` (`None` when the request
   * carries no user id) with connection list `connections`. `fault`, when
   * present, is the index of the `findOne` that fails.
   */
  method RecentContacts(store: seq<Message>, user: Option<UserId>, connections: seq<UserId>, fault: Option<nat>)
    returns (r: Reply)
    ensures user.None? <==> r == BadRequest
    ensures user.Some? && fault.Some? && fault.value < |connections| <==> r == ServerError
    ensures user.Some? && connections == [] ==> r == Contacts([])
    ensures r.Contacts? ==> r.contacts == SortNewestFirst(Collected(store, user.value, connections))
  {
    if user.None? {
      return BadRequest;
    }
    var u := user.value;
    if |connections| == 0 {
      return Contacts([]);
    }
    var contacts: seq<Message> := [];
    var i := 0;
    while i < |connections|
      invariant 0 <= i <= |connections|
      invariant contacts == Collected(store, u, connections[..i])
      invariant fault.None? || fault.value >= i
    {
      if fault.Some? && fault.value == i {
        return ServerError;
      }
      var message := Latest(store, u, connections[i]);
      assert connections[..i + 1][..i] == connections[..i];
      if message.Some? {
        contacts := contacts + [message.value];
      }
      i := i + 1;
    }
    assert connections[..i] == connections;
    contacts := SortNewestFirst(contacts);
    return Contacts(contacts);
  }

  /**
   * The reply in full: sorted newest first, holding, for each connection with
   * a message, its newest message with the user, and nothing else.
   */
  lemma RecentContactsReply(store: seq<Message>, u: UserId, connections: seq<UserId>)
    ensures var r := SortNewestFirst(Collected(store, u, connections));
      && Descending(r)
      && |r| <= |connections|
      && (forall m :: m in r ==> exists c :: c in connections && Latest(store, u, c) == Some(m))
      && (forall c :: c in connections && Latest(store, u, c).Some? ==> Latest(store, u, c).value in r)
  {
    var c := Collected(store, u, connections);
    var r := SortNewestFirst(c);
    CollectedLength(store, u, connections);
    CollectedSound(store, u, connections);
    CollectedComplete(store, u, connections);
    SortSortsAndPermutes(c);
    assert |r| == |multiset(r)| == |multiset(c)| == |c|;
    forall m | m in r
      ensures m in c
    {
      assert m in multiset(r);
    }
    forall x | x in c
      ensures x in r
    {
      assert x in multiset(c);
    }
  }
}
