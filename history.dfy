/**
 * `GET /messages/:otherUserId` (src/routes/messages.js:66-82): one page of the
 * conversation between the authenticated user and another user, newest first.
 */
module History {
  import opened Wrappers
  import opened Json
  import opened MessageModel
  import opened MessageStore
  import opened Query

  /** The filter `{$or: [{from: a, to: b}, {from: b, to: a}]}`. */
  predicate Between(m: Message, a: UserId, b: UserId)
  {
    (m.from == a && m.to == b) || (m.from == b && m.to == a)
  }

  /**
   * `find(filter).sort({createdAt: -1})`: the messages between `a` and `b`,
   * the most recently stored first.
   */
  function Conversation(store: seq<Message>, a: UserId, b: UserId): (r: seq<Message>)
    ensures |r| <= |store|
    ensures forall i :: 0 <= i < |r| ==> r[i] in store && Between(r[i], a, b)
    ensures forall m :: m in store && Between(m, a, b) ==> m in r
  {
    if store == [] then []
    else
      var n := |store| - 1;
      var rest := Conversation(store[..n], a, b);
      assert forall m :: m in store ==> m in store[..n] || m == store[n];
      if Between(store[n], a, b) then [store[n]] + rest else rest
  }

  /** `skip(skip).limit(limit)` on a cursor: a limit of 0 means no limit, a negative one its absolute value. */
  function Window(ms: seq<Message>, skip: nat, limit: int): (r: seq<Message>)
    ensures skip >= |ms| ==> r == []
    ensures forall i :: 0 <= i < |r| ==> skip + i < |ms| && r[i] == ms[skip + i]
    ensures skip < |ms| && limit == 0 ==> |r| == |ms| - skip
    ensures skip < |ms| && limit != 0 ==> |r| == Min(|ms| - skip, if limit < 0 then -limit else limit)
  {
    var rest := if skip < |ms| then ms[skip..] else [];
    var n := if limit < 0 then -limit else limit;
    if limit == 0 || n >= |rest| then rest else rest[..n]
  }

  /** The route's answer: the page of messages, or status 500. */
  datatype Reply = Messages(messages: seq<Message>) | ServerError

  /**
   * The query once its parameters are read: `peer` is the cast path parameter,
   * `limit` and `page` the clamped query parameters; `None` is a failed cast or `NaN`.
   */
  function Paged(store: seq<Message>, user: UserId, peer: Option<UserId>, limit: Option<int>, page: Option<int>): Reply
  {
    if limit.None? || page.None? || peer.None? then ServerError
    else
      var skip := (page.value - 1) * limit.value;
      if skip < 0 then ServerError
      else Messages(Window(Conversation(store, user, peer.value), skip, limit.value))
  }

  /**
   * The route for user `user`, path parameter `other` and query parameters
   * `limitQ` and `pageQ`. A `NaN` limit or page, a negative skip and a
   * parameter that does not cast to an ObjectId all make the query fail.
   */
  function History(store: seq<Message>, user: UserId, other: string, limitQ: Option<string>, pageQ: Option<string>): Reply
  {
    Paged(store, user, CastObjectId(Some(JStr(other))), LimitOf(limitQ), PageOf(pageQ))
  }

  /** The skip is negative exactly when a negative limit is asked for beyond the first page. */
  lemma NegativeSkip(page: int, limit: int)
    requires page >= 1
    ensures (page - 1) * limit < 0 <==> limit < 0 && page > 1
  {
    if limit < 0 && page > 1 {
      assert (page - 1) * limit <= limit;
    } else if limit >= 0 {
      assert (page - 1) * limit >= 0;
    }
  }

  /** The route fails exactly for a `NaN` parameter, a malformed user id, or a negative limit past page 1. */
  lemma HistoryFails(store: seq<Message>, user: UserId, other: string, limitQ: Option<string>, pageQ: Option<string>)
    ensures History(store, user, other, limitQ, pageQ).ServerError? <==>
      || ParseInt(OrDefault(limitQ, "50")).None?
      || ParseInt(OrDefault(pageQ, "1")).None?
      || !IsObjectIdText(other)
      || (LimitOf(limitQ).value < 0 && PageOf(pageQ).value > 1)
  {
    var limit, page := LimitOf(limitQ), PageOf(pageQ);
    if limit.Some? && page.Some? {
      NegativeSkip(page.value, limit.value);
    }
  }

  /** A reply of messages is a window of the conversation with the peer. */
  lemma PagedWindow(store: seq<Message>, user: UserId, peer: Option<UserId>, limit: Option<int>, page: Option<int>)
    requires Paged(store, user, peer, limit, page).Messages?
    ensures peer.Some? && limit.Some? && page.Some? && (page.value - 1) * limit.value >= 0
    ensures Paged(store, user, peer, limit, page).messages
      == Window(Conversation(store, user, peer.value), (page.value - 1) * limit.value, limit.value)
  {
  }

  /** The first page starts at the newest message, whatever the limit. */
  lemma FirstPage(store: seq<Message>, user: UserId, peer: UserId, limit: int)
    ensures Paged(store, user, Some(peer), Some(limit), Some(1)) == Messages(Window(Conversation(store, user, peer), 0, limit))
  {
  }

  /** Every message returned is one between the user and the other party. */
  lemma HistoryOnlyConversation(store: seq<Message>, user: UserId, other: string, limitQ: Option<string>, pageQ: Option<string>)
    requires History(store, user, other, limitQ, pageQ).Messages?
    ensures IsObjectIdText(other)
    ensures forall m :: m in History(store, user, other, limitQ, pageQ).messages ==>
      m in store && Between(m, user, Canonical(other))
  {
    PagedWindow(store, user, CastObjectId(Some(JStr(other))), LimitOf(limitQ), PageOf(pageQ));
    var c := Conversation(store, user, Canonical(other));
    var r := History(store, user, other, limitQ, pageQ).messages;
    forall m | m in r
      ensures m in store && Between(m, user, Canonical(other))
    {
      var i :| 0 <= i < |r| && r[i] == m;
      assert m in c;
    }
  }

  /** `r` is a contiguous run of `c` starting at position `skip`. */
  predicate SliceAt(r: seq<Message>, c: seq<Message>, skip: int)
  {
    && skip >= 0
    && (forall i :: 0 <= i < |r| ==> skip + i < |c| && r[i] == c[skip + i])
  }

  lemma SliceAtIndex(r: seq<Message>, c: seq<Message>, skip: int, i: int)
    requires SliceAt(r, c, skip) && 0 <= i < |r|
    ensures skip + i < |c| && r[i] == c[skip + i]
  {
  }

  /** `r` is the `page`-th slice of `c`, counting slices of `limit` from the start. */
  predicate IsPage(r: seq<Message>, c: seq<Message>, limit: int, page: int)
  {
    var skip := (page - 1) * limit;
    && SliceAt(r, c, skip)
    && (skip < |c| && limit > 0 ==> |r| == Min(|c| - skip, limit))
  }

  /** A reply of messages is the requested page of the conversation. */
  lemma PagedIsPage(store: seq<Message>, user: UserId, peer: UserId, limit: int, page: int)
    requires Paged(store, user, Some(peer), Some(limit), Some(page)).Messages?
    ensures IsPage(Paged(store, user, Some(peer), Some(limit), Some(page)).messages, Conversation(store, user, peer), limit, page)
  {
  }

  /**
   * The reply is the `page`-th slice of the conversation, counting slices of
   * `limit` messages from the newest.
   */
  lemma HistoryIsPage(store: seq<Message>, user: UserId, other: string, limitQ: Option<string>, pageQ: Option<string>)
    requires History(store, user, other, limitQ, pageQ).Messages?
    ensures IsObjectIdText(other) && LimitOf(limitQ).Some? && PageOf(pageQ).Some?
    ensures IsPage(History(store, user, other, limitQ, pageQ).messages, Conversation(store, user, Canonical(other)),
      LimitOf(limitQ).value, PageOf(pageQ).value)
  {
    var limit, page, peer := LimitOf(limitQ), PageOf(pageQ), CastObjectId(Some(JStr(other)));
    PagedWindow(store, user, peer, limit, page);
    PagedIsPage(store, user, peer.value, limit.value, page.value);
  }

  /** Without query parameters the reply is the 50 newest messages of the conversation. */
  lemma HistoryDefaultPage(store: seq<Message>, user: UserId, other: string)
    requires IsObjectIdText(other)
    ensures var c := Conversation(store, user, Canonical(other));
      History(store, user, other, None, None) == Messages(c[..Min(|c|, 50)])
  {
    assert LimitOf(None) == Some(50) by { Defaults(); }
    HistoryFirstPage(store, user, other, None, 50);
    WindowPrefix(Conversation(store, user, Canonical(other)), 50);
  }

  /** Without a page parameter the reply is the first window of the conversation. */
  lemma HistoryFirstPage(store: seq<Message>, user: UserId, other: string, limitQ: Option<string>, limit: int)
    requires IsObjectIdText(other) && LimitOf(limitQ) == Some(limit)
    ensures History(store, user, other, limitQ, None) == Messages(Window(Conversation(store, user, Canonical(other)), 0, limit))
  {
    assert PageOf(None) == Some(1) by { Defaults(); }
    var peer := Canonical(other);
    assert CastObjectId(Some(JStr(other))) == Some(peer);
    FirstPage(store, user, peer, limit);
  }

  /** Any positive limit is capped: a reply never holds more than 200 messages then. */
  lemma HistoryCapped(store: seq<Message>, user: UserId, other: string, limitQ: Option<string>, pageQ: Option<string>)
    requires History(store, user, other, limitQ, pageQ).Messages? && LimitOf(limitQ).value > 0
    ensures |History(store, user, other, limitQ, pageQ).messages| <= 200
  {
    var peer, limit, page := CastObjectId(Some(JStr(other))), LimitOf(limitQ), PageOf(pageQ);
    PagedWindow(store, user, peer, limit, page);
    var c := Conversation(store, user, peer.value);
    var skip := (page.value - 1) * limit.value;
    assert |Window(c, skip, limit.value)| <= limit.value;
  }

  /** Creation times never increase along `r`, and among equal times the later-stored message comes first. */
  predicate NewestFirst(r: seq<Message>)
  {
    forall i, j :: 0 <= i < j < |r| ==> r[i].createdAt >= r[j].createdAt && r[i].id > r[j].id
  }

  lemma PrependNewest(m: Message, rest: seq<Message>)
    requires NewestFirst(rest)
    requires forall k :: 0 <= k < |rest| ==> rest[k].createdAt <= m.createdAt && rest[k].id < m.id
    ensures NewestFirst([m] + rest)
  {
    var r := [m] + rest;
    forall i, j | 0 <= i < j < |r|
      ensures r[i].createdAt >= r[j].createdAt && r[i].id > r[j].id
    {
      assert r[j] == rest[j - 1];
      if i > 0 {
        assert r[i] == rest[i - 1];
      }
    }
  }

  /** The messages of a well-formed store are all older than its last one. */
  lemma OlderThanLast(store: seq<Message>, clock: nat, rest: seq<Message>)
    requires WellFormed(store, clock) && store != []
    requires forall k :: 0 <= k < |rest| ==> rest[k] in store[..|store| - 1]
    ensures forall k :: 0 <= k < |rest| ==>
      rest[k].createdAt <= store[|store| - 1].createdAt && rest[k].id < store[|store| - 1].id
  {
    var n := |store| - 1;
    forall k | 0 <= k < |rest|
      ensures rest[k].createdAt <= store[n].createdAt && rest[k].id < store[n].id
    {
      var x :| 0 <= x < n && store[..n][x] == rest[k];
      assert store[x] == rest[k];
    }
  }

  /** The conversation of a well-formed store is newest first, later-stored first among equal times. */
  lemma {:induction false} ConversationNewestFirst(store: seq<Message>, clock: nat, a: UserId, b: UserId)
    requires WellFormed(store, clock)
    ensures NewestFirst(Conversation(store, a, b))
  {
    if store != [] {
      var n := |store| - 1;
      var prefix := store[..n];
      assert WellFormed(prefix, clock);
      ConversationNewestFirst(prefix, clock, a, b);
      var rest := Conversation(prefix, a, b);
      if Between(store[n], a, b) {
        OlderThanLast(store, clock, rest);
        PrependNewest(store[n], rest);
      }
    }
  }

  /** Every page of a well-formed store is newest first. */
  lemma HistoryNewestFirst(store: seq<Message>, clock: nat, user: UserId, other: string, limitQ: Option<string>, pageQ: Option<string>)
    requires WellFormed(store, clock) && History(store, user, other, limitQ, pageQ).Messages?
    ensures NewestFirst(History(store, user, other, limitQ, pageQ).messages)
  {
    HistoryIsPage(store, user, other, limitQ, pageQ);
    ConversationNewestFirst(store, clock, user, Canonical(other));
    PageKeepsOrder(History(store, user, other, limitQ, pageQ).messages, Conversation(store, user, Canonical(other)),
      LimitOf(limitQ).value, PageOf(pageQ).value);
  }

  /** A page of a newest-first sequence is newest first. */
  lemma PageKeepsOrder(r: seq<Message>, c: seq<Message>, limit: int, page: int)
    requires IsPage(r, c, limit, page) && NewestFirst(c)
    ensures NewestFirst(r)
  {
    var skip := (page - 1) * limit;
    assert SliceAt(r, c, skip);
    SliceKeepsOrder(r, c, skip);
  }

  lemma SliceKeepsOrder(r: seq<Message>, c: seq<Message>, skip: int)
    requires SliceAt(r, c, skip) && NewestFirst(c)
    ensures NewestFirst(r)
  {
    forall i, j | 0 <= i < j < |r|
      ensures r[i].createdAt >= r[j].createdAt && r[i].id > r[j].id
    {
      SliceAtIndex(r, c, skip, i);
      SliceAtIndex(r, c, skip, j);
    }
  }

  /** `parseInt("0")` is 0, so `limit=0` clamps to 0, which the cursor reads as "no limit". */
  lemma ZeroLimit()
    ensures LimitOf(Some("0")) == Some(0)
  {
    assert DigitsValue("0") == 0;
    ParseDigits("0");
  }

  /** As written, `limit=0` returns the whole conversation, however long it is. */
  lemma ZeroLimitUncapped(store: seq<Message>, user: UserId, other: string)
    requires IsObjectIdText(other)
    ensures History(store, user, other, Some("0"), None) == Messages(Conversation(store, user, Canonical(other)))
  {
    ZeroLimit();
    HistoryFirstPage(store, user, other, Some("0"), 0);
    var c := Conversation(store, user, Canonical(other));
    assert Window(c, 0, 0) == c;
  }

  /** As written, a limit that reads as `-k` returns up to `k` messages, whatever `k` is. */
  lemma NegativeLimitUncapped(store: seq<Message>, user: UserId, other: string, limitQ: Option<string>, limit: int)
    requires IsObjectIdText(other) && limit < 0 && LimitOf(limitQ) == Some(limit)
    ensures var c := Conversation(store, user, Canonical(other));
      History(store, user, other, limitQ, None) == Messages(c[..Min(|c|, -limit)])
  {
    HistoryFirstPage(store, user, other, limitQ, limit);
    WindowPrefix(Conversation(store, user, Canonical(other)), limit);
  }

  /** Such limits exist: `limit=-d`, for a run of digits `d`, reads as minus the number `d` denotes. */
  lemma NegativeLimitQuery(d: string)
    requires d != [] && AllDigits(d)
    ensures LimitOf(Some("-" + d)) == Some(-(DigitsValue(d) as int))
  {
    assert OrDefault(Some("-" + d), "50") == "-" + d;
    ParseNegative(d);
  }

  /** A nonzero limit on the first page keeps that many of the newest messages. */
  lemma WindowPrefix(ms: seq<Message>, limit: int)
    requires limit != 0
    ensures Window(ms, 0, limit) == ms[..Min(|ms|, if limit < 0 then -limit else limit)]
  {
  }

  /** The cap of 200 is exceeded as soon as the conversation is longer. */
  lemma CapExceeded(store: seq<Message>, user: UserId, other: string)
    requires IsObjectIdText(other) && |Conversation(store, user, Canonical(other))| > 200
    ensures History(store, user, other, Some("0"), None).Messages?
    ensures |History(store, user, other, Some("0"), None).messages| > 200
  {
    ZeroLimitUncapped(store, user, other);
  }

  /** The limit clamped into 1..200, as the comment "cap limit" intends. */
  function CappedLimitOf(q: Option<string>): (r: Option<int>)
    ensures r.None? <==> ParseInt(OrDefault(q, "50")).None?
    ensures r.Some? ==> 1 <= r.value <= 200
    ensures r.Some? && 1 <= ParseInt(OrDefault(q, "50")).value <= 200 ==> r.value == ParseInt(OrDefault(q, "50")).value
  {
    match ParseInt(OrDefault(q, "50"))
    case None => None
    case Some(v) => Some(Max(Min(v, 200), 1))
  }

  /** The route with the limit clamped into 1..200. */
  function CappedHistory(store: seq<Message>, user: UserId, other: string, limitQ: Option<string>, pageQ: Option<string>): Reply
  {
    Paged(store, user, CastObjectId(Some(JStr(other))), CappedLimitOf(limitQ), PageOf(pageQ))
  }

  /** With a limit in 1..200 the page is never negative and never longer than 200. */
  lemma PagedBounded(store: seq<Message>, user: UserId, peer: UserId, limit: int, page: int)
    requires 1 <= limit <= 200 && page >= 1
    ensures Paged(store, user, Some(peer), Some(limit), Some(page)).Messages?
    ensures |Paged(store, user, Some(peer), Some(limit), Some(page)).messages| <= 200
  {
    NegativeSkip(page, limit);
  }

  /** With the clamp, a reply never holds more than 200 messages, and only `NaN` or a malformed id fail. */
  lemma CappedHistoryBounded(store: seq<Message>, user: UserId, other: string, limitQ: Option<string>, pageQ: Option<string>)
    ensures CappedHistory(store, user, other, limitQ, pageQ).ServerError? <==>
      ParseInt(OrDefault(limitQ, "50")).None? || ParseInt(OrDefault(pageQ, "1")).None? || !IsObjectIdText(other)
    ensures CappedHistory(store, user, other, limitQ, pageQ).Messages? ==>
      |CappedHistory(store, user, other, limitQ, pageQ).messages| <= 200
  {
    var limit, page, peer := CappedLimitOf(limitQ), PageOf(pageQ), CastObjectId(Some(JStr(other)));
    if limit.Some? && page.Some? && peer.Some? {
      PagedBounded(store, user, peer.value, limit.value, page.value);
    }
  }

  /** The clamp changes nothing for a limit the route already accepts as meant: 1 to 200. */
  lemma CappedAgrees(store: seq<Message>, user: UserId, other: string, limitQ: Option<string>, pageQ: Option<string>)
    requires ParseInt(OrDefault(limitQ, "50")).Some? && ParseInt(OrDefault(limitQ, "50")).value >= 1
    ensures CappedHistory(store, user, other, limitQ, pageQ) == History(store, user, other, limitQ, pageQ)
  {
    assert CappedLimitOf(limitQ) == LimitOf(limitQ);
  }
}
