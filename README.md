# ChatHive real-time core in Dafny

This project models the message path of the ChatHive chat backend and proves properties of that model:

- the WebSocket server in `src/index.js`:
  - the in-memory connection registry `userSockets`;
  - the fan-out helpers `sendToUser` and `broadcastOnlineUsers`;
  - the per-connection authentication handshake (`finalizeAuth`, the auth timer, `identify` frames);
  - the frame handlers for `direct_message`, `typing`, `read`, `ping` and unknown types;
  - the `close` handler;
- the two REST routes of `src/routes/messages.js`: the paged conversation history and the recent-contacts list;
- the `Message` schema of `src/models/Message.js`: its fields, required paths, casts and defaults.

The model has two layers.

**State functions.** The server's state is one value, `Delivery.State`. It holds:

- the registry;
- each socket's status: ready state, bound user, armed auth timer, close code;
- each socket's transcript of frames written to it;
- the message collection, a sequence whose positions are the message identities;
- the users' `userConnecttion` lists and `lastSeen` times;
- a clock.

Every event is a function from state to state: `Connect`, `HandleFrame`, `AuthTimeout` and `HandleClose`. The lemmas in `Invariants`, `Flush` and `Events` are proved about these functions.

`HandleFrame` dispatches through the corrected `Protocol.Classify` (see "## Findings"). So on an authenticated socket a frame that parses to `null` gets an `error` frame for an unknown type; the code as written throws there. Every other frame is dispatched as written.

**The server class.** `Server.ChatServer` holds the same data in fields and updates them in place, as the source does. Each of its methods is proved to produce exactly the state the matching function describes. The loops over a user's sockets, over the registry, over the pending messages and over the unread messages are `while` loops, with their invariants.

Time is an explicit clock, and each event carries the time it happens at. A failing database call is an explicit parameter `fault`: the index of the first store operation of the event that fails. JWT verification is the parameter `verify`.

### Code and comments that disagree

The model follows the code in each of these cases.

- `sendToUser` returns `true` whenever the user has a registry entry, even if none of the user's sockets is open. The comment at `src/index.js:85` says otherwise. A message sent then is stamped as delivered although no socket received it (`Events.DeliveredWithoutOpenSocket`).
- `direct_message` sends the sender a `sent` acknowledgement whose `delivered` flag is the only delivery signal. No separate `delivered` receipt goes to the sender.
- `removeSocketForUser` broadcasts the online list only when the user had a registry entry.
- The `read` handler marks every unread message to the caller and ignores the `messageIds` the comment at `src/index.js:305` mentions.
- The history route returns messages newest first. The comments at `src/routes/messages.js:65` and `:76` say ascending.

## Model

| member | source | states |
|---|---|---|
| MessageModel.CastObjectId | src/models/Message.js:4-5 | a value casts to a user id exactly when it is a string of 24 hex digits; the id is its lower-case form |
| MessageModel.Canonical | src/models/Message.js:4-5 | the canonical id keeps every hex digit and only lowers its case; canonical text is unchanged |
| MessageModel.CastString | src/models/Message.js:6-7 | a String path rejects arrays and objects and keeps strings as they are |
| MessageModel.FailingPaths | src/models/Message.js:4-7 | `from`, `to` and `content` fail validation exactly when missing or uncastable (empty content fails `required`); `contentType` fails only when uncastable |
| MessageModel.Create | src/models/Message.js:3-12 | saving fails exactly on the failing paths. Otherwise the message has `contentType` `'text'`, `meta` `{}` and `createdAt` now by default, `deliveredAt` and `readAt` null, and the given values as cast |
| MessageStore.Indices | src/index.js:193 | a `find` returns the positions of exactly the matching messages, in increasing store order |
| Registry.AddSocket | src/index.js:64-70 | after adding, the user's key exists and its set gains the socket; other entries are unchanged |
| Registry.RemoveSocket | src/index.js:73-82 | a user without an entry is left unchanged; otherwise the socket leaves the set and the key goes when the set empties; other entries are unchanged |
| Registry.AddSocketKeepsInvariant | src/index.js:64-70 | adding keeps "no key maps to an empty set" and files the socket |
| Registry.AddSocketIdempotent | src/index.js:66-67 | adding a socket that is already filed changes nothing |
| Registry.RemoveSocketKeepsInvariant | src/index.js:78-80 | removing keeps "no key maps to an empty set"; the key stays iff other sockets remain |
| Registry.RemoveUndoesAdd | src/index.js:64-82 | removing a socket just added restores the registry |
| Registry.OnlineAfterAdd | src/index.js:64-70 | the set of registered sockets gains exactly the new socket |
| Registry.OnlineAfterRemove | src/index.js:73-82 | the set of registered sockets loses exactly the removed socket |
| Protocol.FanoutDelivers | src/index.js:93-99 | a fan-out appends the frame to each targeted OPEN socket and leaves every other transcript unchanged |
| Protocol.FanoutStep | src/index.js:93-99 | one more loop step writes the frame to that socket only if it is OPEN |
| Protocol.FanoutCompose | src/index.js:113-119 | fanning out to disjoint socket sets one after the other equals one fan-out to their union |
| Protocol.PreAuthOnlyIdentify | src/index.js:216-230 | before auth, only a parseable object frame of type `identify` with a truthy token starts authentication; everything else is dropped |
| Protocol.PostAuthIdentifyIsUnknown | src/index.js:232-237 | after auth an `identify` frame is an unknown type, and unparseable frames are ignored |
| Protocol.NullFrameThrows | src/index.js:233-245 | as written, an authenticated `null` frame makes `data.type` throw |
| Protocol.ClassifyNeverThrows | src/index.js:245-330 | the corrected dispatch never throws and agrees with the written one wherever that one does not throw |
| Delivery.AddToSet | src/index.js:259-268 | `$addToSet` leaves exactly the old elements plus the new one |
| Delivery.ReplayOne | src/index.js:196-200 | one step of the flush or read loop stamps one message and leaves registry, status, users and clock unchanged |
| Delivery.Replay | src/index.js:194-202 | the flush or read loop keeps registry, status, users, clock and the store's size |
| Delivery.Completed | src/index.js:194-202 | the number of saves done before the first failing one: all of them exactly when none fails |
| Delivery.Register | src/index.js:179-190 | binding files the socket under the user and sets its user, without touching the store |
| Delivery.SendDirect | src/index.js:245-292 | a `direct_message` changes the store only by appending the new message, perhaps stamped delivered; sockets and clock are unchanged |
| Invariants.FrameKeepsInv | src/index.js:61-120 | writing frames or changing stored messages keeps the server invariant |
| Invariants.SendToUserKeepsInv | src/index.js:86-101 | `sendToUser` keeps the server invariant |
| Invariants.CloseKeepsInv | src/index.js:171 | closing a socket keeps the server invariant |
| Invariants.StampKeepsWellFormed | src/index.js:198 | stamping a message keeps the store well formed: timestamps within the clock, delivery and reading after creation |
| Invariants.ReplayKeepsInv | src/index.js:194-202 | the flush and read loops keep the server invariant |
| Invariants.RegisterKeepsInv | src/index.js:179-190 | binding an unbound socket keeps the invariant: each registered socket is live, bound to its own key, and filed under one key only |
| Invariants.AuthenticateKeepsInv | src/index.js:176-208 | `finalizeAuth` keeps the server invariant, on success and on every failure |
| Invariants.SendDirectKeepsInv | src/index.js:245-292 | `direct_message` keeps the server invariant, including a well-formed store |
| Invariants.MarkAllReadKeepsInv | src/index.js:304-320 | `read` keeps the server invariant |
| Invariants.HandleFrameKeepsInv | src/index.js:214-331 | every inbound frame keeps the server invariant |
| Invariants.ConnectKeepsInv | src/index.js:154-211 | a new connection keeps the server invariant |
| Invariants.AuthTimeoutKeepsInv | src/index.js:169-173 | the auth timer keeps the server invariant |
| Invariants.HandleCloseKeepsInv | src/index.js:333-356 | the `close` event keeps the server invariant: the closed socket leaves the registry and no key is left empty |
| Flush.IndicesIncreasing | src/index.js:193 | the pending and unread lists have no repeats and follow store order |
| Flush.ReplayStore | src/index.js:194-202 | after the loop, exactly the listed messages are stamped and every other message is unchanged |
| Flush.ReplayEvolves | src/index.js:198-310 | the loops only fill null timestamps: `deliveredAt` and `readAt` go from null to a value, never back |
| Flush.FlushLeavesRest | src/index.js:193-202 | after delivering the first n pending messages, exactly the rest remain pending |
| Flush.ReadLeavesRest | src/index.js:308-313 | after marking the first n unread messages, exactly the rest remain unread |
| Flush.FlushTranscript | src/index.js:194-196 | the socket receives the listed messages, in list order, as `message` frames |
| Flush.ReplayReceipts | src/index.js:194-200 | a pass sends each open socket, in list order, one `delivered` or `read` receipt per message whose sender has that socket registered, carrying the message as stamped, and no other receipt |
| Flush.ReceiptsToCovers | src/index.js:196-200 | each message of a pass owes every registered socket of its sender its receipt |
| Flush.ReplayExtendsTranscript | src/index.js:194-202 | the loops only append: every transcript after a pass starts with the transcript before it |
| Flush.PendingOldestFirst | src/index.js:193 | in a well-formed store, pending messages come in ascending `createdAt` order |
| Events.AuthenticateDeliversPending | src/index.js:176-203 | successful auth binds and files the socket and disarms the timer. Every pending message is stamped delivered and none stays pending. The socket's transcript gains them oldest first |
| Events.AuthenticateRegisters | src/index.js:179-203 | successful auth files the socket under the user, binds it and disarms its timer |
| Events.AuthenticateMarksDelivered | src/index.js:193-200 | successful auth stamps exactly the messages pending for the user as delivered now and leaves none pending |
| Events.AuthenticateSendsPending | src/index.js:193-196 | an open socket receives every pending message, oldest first, after what it already had |
| Events.AuthenticateSendsReceipts | src/index.js:193-200 | successful auth sends every open socket the `delivered` receipts it owes, in the order the pending messages were found, and no other receipt |
| Events.AuthenticateNotifiesSenders | src/index.js:196-200 | the sender of every pending message gets, on each open socket it has registered, a `delivered` receipt with the message stamped now |
| Events.FlushAllReceipts | src/index.js:194-202 | a flush with every save succeeding sends each open socket the receipts it owes, in pending order |
| Events.RegisterKeepsReceipts | src/index.js:179-190 | binding, the online broadcast, `lastSeen` and `welcome` send no receipt |
| Events.RegisterWelcomes | src/index.js:188-190 | after registering, the open socket's last frame is `welcome` with the fixed greeting |
| Events.FlushExtendsTranscript | src/index.js:193-207 | the flush only appends to transcripts, whether it finishes or a save fails |
| Events.AuthenticateWelcomes | src/index.js:188-200 | a verified token always gets the open socket `welcome`, and everything the flush sends comes after it |
| Events.AuthenticateRecordsLastSeen | src/index.js:187-188 | a verified token sets the user's `lastSeen` to now unless that update fails, whose failure is ignored; no other user record changes |
| Events.FlushAllStore | src/index.js:193-202 | a flush with every save succeeding stamps exactly the pending messages and changes nothing else in the store |
| Events.FlushPendingStore | src/index.js:193-207 | the flush stores exactly the completed deliveries; a failed save closes the socket with 4002 |
| Events.AuthenticateFailureKeepsRest | src/index.js:193-207 | when a store call fails, exactly the not-yet-delivered pending messages remain pending |
| Events.AuthenticateFailureCloses | src/index.js:204-207 | a failure after binding closes the socket with 4002 and leaves it registered until its close event |
| Events.AuthenticateRejected | src/index.js:178-207 | a token that does not verify closes an open socket with 4002 and changes nothing else |
| Events.SendDirectSteps | src/index.js:249-284 | a successful `direct_message` saves, links both users, fans out, stamps delivery iff `sendToUser` returned true, then acks `sent` |
| Events.SendDirectStores | src/index.js:249-281 | the new message is appended with sender, recipient, id and time. Each user joins the other's connections. It is stamped delivered iff the recipient has a registry entry |
| Events.SendDirectFrames | src/index.js:275-284 | each open socket of the recipient gets the message; the sender gets `sent`, echoing `msgKey` as `frontendKey`, with the delivered flag |
| Events.SendDirectReachesRecipients | src/index.js:275 | every other open socket filed under the `to` key ends with the `message` frame |
| Events.SendDirectAcksSender | src/index.js:284 | the sender's open socket ends with `sent`, carrying the stored message and the delivered flag |
| Events.SendDirectRejected | src/index.js:256-290 | an invalid message or a failed first save stores nothing and sends the sender an `error` frame |
| Events.SendDirectLateFailure | src/index.js:259-291 | a later failure keeps the saved message but still sends the `error` frame instead of `sent` |
| Events.DeliveredWithoutOpenSocket | src/index.js:275-281 | a recipient with a registry entry but no open socket still gets the message stamped delivered, and no socket receives it |
| Events.MarkAllReadMarksAll | src/index.js:304-313 | `read` stamps every message to the caller with null `readAt`, whatever its sender, and leaves no unread one |
| Events.MarkAllReadFailureKeepsRest | src/index.js:308-319 | after a failed save, exactly the unread messages not yet saved stay unread |
| Events.MarkAllReadReplaysAll | src/index.js:308-313 | with every save succeeding, `read` stamps the whole unread list in store order |
| Events.MarkAllReadSendsReceipts | src/index.js:308-313 | with every save succeeding, `read` sends each open socket the `read` receipts it owes, in store order, and no other receipt |
| Events.MarkAllReadNotifiesSenders | src/index.js:308-313 | the sender of every message `read` marks gets, on each open socket it has registered, a `read` receipt with the message stamped now |
| Events.ReceiptToSender | src/index.js:198-312 | one iteration of either loop ends each open socket of the sender with the `delivered` or `read` receipt; `Flush.ReplayReceipts` states it for the whole loop |
| Events.TypingOnlyForwards | src/index.js:294-302 | `typing` only forwards `Boolean(state)` from the bound user to the recipient's open sockets |
| Events.ReplyOnlyFrames | src/index.js:322-330 | `ping` gets `pong`, an unknown type gets `error`, and nothing else changes |
| Events.TimeoutClosesOnlyUnbound | src/index.js:169-203 | the auth timer closes with 4003 exactly when it is armed and no user is bound |
| Events.CloseLastSocketGoesOffline | src/index.js:333-352 | closing removes the socket from the registry; the user goes offline iff it was their last socket, and only then is `lastSeen` set |
| Events.CloseUnbound | src/index.js:353-355 | closing an unauthenticated socket touches nothing else |
| Events.RegisterAnnounces | src/index.js:64-120 | registering broadcasts the registry's key set to every open registered socket |
| Events.DeregisterAnnounces | src/index.js:73-82 | a user without an entry changes nothing and nothing is broadcast; otherwise the socket leaves the set and the key set goes to every open registered socket |
| Events.CloseAnnounces | src/index.js:333-336 | closing an authenticated socket broadcasts the online list to the other open registered sockets only when its user had an entry |
| Events.AuthenticateEvolves | src/index.js:176-208 | authentication only fills null timestamps in the store |
| Events.HandleFrameEvolves | src/index.js:214-331 | no frame erases or rewrites a stored message; timestamps only go from null to a value |
| Events.ConnectWithoutToken | src/index.js:161-211 | a connection without a URL token starts unbound, open, with the timer armed and nothing sent |
| Server.ChatServer.SendToUser | src/index.js:86-101 | the method returns `true` iff the user has an entry and writes what the fan-out function says |
| Server.ChatServer.constructor | src/index.js:61 | the server starts with an empty registry, no sockets and the given store and users |
| Server.ChatServer.Accept | src/index.js:154-173 | a connection adds one fresh socket, open, unbound, with its timer armed and an empty transcript; nothing else changes but the clock |
| Server.ChatServer.FanoutTo | src/index.js:93-99 | the loop writes the frame to exactly the targeted OPEN sockets |
| Server.ChatServer.BroadcastOnlineUsers | src/index.js:104-120 | the nested loops produce the broadcast the state function describes |
| Server.ChatServer.AddSocketForUser | src/index.js:64-70 | the in-place update produces the registry and broadcast of the state function |
| Server.ChatServer.RemoveSocketForUser | src/index.js:73-82 | the in-place update produces the registry and broadcast of the state function |
| Server.ChatServer.DeliverEach | src/index.js:194-202 | the flush loop delivers until the first failing save and reports how many it completed |
| Server.ChatServer.DeliverPending | src/index.js:193-207 | the flush reaches the state `FlushPending` describes, closing the socket with 4002 after a failed save |
| Server.ChatServer.FinalizeAuth | src/index.js:176-208 | `finalizeAuth` keeps the server invariant and reaches the state `Authenticate` describes |
| Server.ChatServer.DirectMessage | src/index.js:245-292 | the handler reaches the state `SendDirect` describes |
| Server.ChatServer.MarkAllRead | src/index.js:304-320 | the loop reaches the state `MarkAllRead` describes |
| Server.ChatServer.ReadEach | src/index.js:308-313 | the `read` loop stamps and acknowledges until the first failing save and reports how many it completed |
| Server.ChatServer.OnConnection | src/index.js:154-211 | a connection gets a fresh socket and keeps the server invariant |
| Server.ChatServer.Dispatch | src/index.js:214-331 | the `message` listener reaches the state `HandleFrame` describes and keeps the set of sockets |
| Server.ChatServer.OnMessage | src/index.js:214-331 | every frame keeps the server invariant and reaches the state `HandleFrame` describes |
| Server.ChatServer.OnAuthTimeout | src/index.js:169-173 | the timer keeps the server invariant and reaches the state `AuthTimeout` describes |
| Server.ChatServer.OnClose | src/index.js:333-356 | the close event keeps the server invariant and reaches the state `HandleClose` describes |
| Query.TrimStart | src/routes/messages.js:70-71 | `parseInt` skips exactly the leading JavaScript white space and line terminators |
| Query.DigitPrefix | src/routes/messages.js:70-71 | `parseInt` reads the longest run of decimal digits |
| Query.ParseDecimal | src/routes/messages.js:70-71 | `parseInt(String(n), 10)` is `n` for every integer |
| Query.ParseSkipsSpace | src/routes/messages.js:70-71 | leading white space never changes the parsed value |
| Query.ParseStopsAtNonDigit | src/routes/messages.js:70-71 | reading stops at the first non-digit, so `"12abc"` parses as 12 |
| Query.OrDefault | src/routes/messages.js:70-71 | `q \|\| d`: an absent or empty parameter takes the default |
| Query.LimitOf | src/routes/messages.js:70 | the limit is `NaN` iff the parameter does not parse; it is never above 200 and keeps values up to 200 |
| Query.PageOf | src/routes/messages.js:71 | the page is `NaN` iff the parameter does not parse; it is never below 1 and keeps values from 1 up |
| Query.Defaults | src/routes/messages.js:70-71 | without parameters the limit is 50 and the page 1 |
| History.Conversation | src/routes/messages.js:73-75 | the query yields exactly the messages between the two users |
| History.Window | src/routes/messages.js:75 | `skip(n).limit(l)` is the contiguous slice from n: 0 means no limit, a negative limit its absolute value |
| History.HistoryFails | src/routes/messages.js:66-81 | the route answers 500 exactly for a `NaN` parameter, a malformed user id, or a negative limit past page 1 |
| History.HistoryOnlyConversation | src/routes/messages.js:73-77 | every message returned is one between the user and the other party |
| History.HistoryIsPage | src/routes/messages.js:75 | the reply is the page-th slice of `limit` messages of the conversation |
| History.HistoryDefaultPage | src/routes/messages.js:70-75 | without parameters the reply is the 50 newest messages |
| History.HistoryFirstPage | src/routes/messages.js:71-75 | without a page parameter the reply is the first `limit` messages of the conversation |
| History.HistoryCapped | src/routes/messages.js:70-75 | a positive limit never returns more than 200 messages |
| History.ConversationNewestFirst | src/routes/messages.js:75 | in a well-formed store the conversation is newest first, later-stored first among equal times |
| History.HistoryNewestFirst | src/routes/messages.js:75-77 | every page is newest first, not ascending |
| History.ZeroLimitUncapped | src/routes/messages.js:70-75 | as written, `limit=0` returns the whole conversation |
| History.NegativeLimitQuery | src/routes/messages.js:70 | a limit parameter `-d` parses to the negative number, which `Math.min` keeps |
| History.NegativeLimitUncapped | src/routes/messages.js:70-75 | as written, a limit that reads as `-k` returns up to k messages |
| History.CapExceeded | src/routes/messages.js:70-75 | as written, the reply exceeds 200 messages once the conversation does |
| History.CappedLimitOf | src/routes/messages.js:70 | the corrected limit is always in 1..200 and keeps values already in range |
| History.CappedHistoryBounded | src/routes/messages.js:66-81 | with the corrected limit a reply never exceeds 200 messages, and only `NaN` or a malformed id fail |
| History.CappedAgrees | src/routes/messages.js:70 | the correction changes nothing for limits of at least 1 |
| Contacts.Latest | src/routes/messages.js:34-44 | `findOne` finds a message between the two users, or there is none |
| Contacts.LatestIsNewest | src/routes/messages.js:34-40 | in a well-formed store no message between the two is newer than the one found |
| Contacts.CollectedLength | src/routes/messages.js:28-48 | the loop collects at most one entry per connection |
| Contacts.CollectedSound | src/routes/messages.js:28-48 | each collected entry is the newest message with one of the connections |
| Contacts.CollectedComplete | src/routes/messages.js:28-48 | every connection with a message contributes its newest one |
| Contacts.CollectedCount | src/routes/messages.js:45-47 | when every connection has a message, none is dropped or doubled |
| Contacts.InsertDescending | src/routes/messages.js:51 | inserting into a newest-first list keeps it newest first |
| Contacts.InsertPermutes | src/routes/messages.js:51 | inserting adds exactly one element |
| Contacts.SortSortsAndPermutes | src/routes/messages.js:51 | the sort returns the same messages ordered by `createdAt` descending |
| Contacts.SortStable | src/routes/messages.js:51 | messages with equal `createdAt` keep their relative order, as `Array.prototype.sort` does |
| Contacts.RecentContacts | src/routes/messages.js:13-60 | answers 400 iff the user id is missing, 500 iff a lookup fails, `[]` when there are no connections, and otherwise the sorted collected list |
| Contacts.RecentContactsReply | src/routes/messages.js:28-55 | the reply is newest first and holds, for each connection with a message, its newest message with the user, and nothing else |

## Left out

- HTTP, Express and WebSocket server setup, CORS, helmet, `mongoose.connect` and `server.listen` in `src/index.js` are not modelled. They are I/O plumbing.
- `jwt.verify` is the parameter `verify`. A verified token is assumed to carry a `userId` that is the canonical text of an ObjectId. A token whose payload lacks `userId` is not modelled.
- `getTokenFromReq` (URL parsing) is not modelled: the URL token is a parameter.
- `JSON.parse` and `JSON.stringify` are not modelled:
  - inbound frames are parsed `Json` values, and `None` means the parse failed;
  - outbound frames are the `OutFrame` datatype;
  - JSON numbers are integers.
- `setTimeout` and `new Date()`: the 10-second timer is an explicit `AuthTimeout` event, and every timestamp in one event is that event's clock reading.
- Interleaving between `await`s of different sockets is not modelled: each handler runs as one atomic step.
- Store failures are reduced to the index of the first failing operation. `console` logging is left out.
- Delivery.Authenticate: the `lastSeen` update is store operation 0 and its failure is swallowed. One failure index per event cannot express that failure followed by a failing `find` or save. With `fault` 0 everything after it succeeds, and with any later `fault` the `lastSeen` update has succeeded.
- Delivery.HandleFrame, Server.ChatServer.OnMessage: the state machine runs the corrected dispatch. An authenticated `null` frame gets an `error` frame where the code as written throws and writes nothing (`Protocol.NullFrameThrows`). This carries over to `Server.ChatServer.Dispatch`, `Invariants.HandleFrameKeepsInv` and `Events.HandleFrameEvolves`.
- An exception from `ws.send` or `ws.close` is not modelled. A frame written to a socket that is not OPEN is dropped.
- The online-user list is a set. The insertion order of the `Map` keys is not modelled.
- Ties in `createdAt` are broken by store position. MongoDB leaves that order unspecified.
- `populate` in recent contacts is not modelled: the entries carry user ids, not user documents.
- MessageModel.CastObjectId, MessageModel.CastString: no cast other than 24-hex-digit text to an ObjectId, and primitives to a String path, is modelled. Mongoose also casts 12-character strings, and values with an `_id` or a `toString` such as `["<24 hex>"]` or `{"_id": "<24 hex>"}`, whose exact set depends on the Mongoose version; such a message saves in the source but fails `Create` in the model.
- `parseInt`'s loss of precision beyond 2^53 is not modelled, nor repeated query keys, which give an array.
- For the history route, a `NaN` limit or page and a negative skip are modelled as a failed query (status 500). This assumes the MongoDB driver rejects them. A limit of 0 is modelled as no limit and a negative limit as its absolute value, as the Node driver does.
- Contacts.RecentContacts: `req.user._id` is an ObjectId, so it is always valid. The model takes the user as `Option<UserId>`, and the 400 answer covers only a missing id.
- The Mongo index at `src/models/Message.js:14` is a storage detail.
- `src/routes/auth.js`, `src/routes/upload.js`, `src/middleware/auth.js` and `src/models/User.js` are not part of this model. A user record keeps only `userConnecttion` and `lastSeen`.

## Findings

| source | as written | input that shows it | evidently intended | confidence | as-written member | corrected member |
|---|---|---|---|---|---|---|
| src/index.js:233-245 | after authentication, a frame that parses to `null` reaches `data.type` outside any `try`; the async listener rejects unhandled, which ends a Node process by default | an authenticated client sends the text `null` | treat it as an unknown message type and reply with an `error` frame | not executed | Protocol.NullFrameThrows | Protocol.ClassifyNeverThrows |
| src/routes/messages.js:70-75 | `Math.min(parseInt(limit), 200)` caps only from above; the cursor reads 0 as "no limit" and a negative limit as its absolute value | `GET /messages/<id>?limit=0` returns the whole conversation; `?limit=-1000` returns up to 1000 messages | a page of 1 to 200 messages | not executed | History.CapExceeded | History.CappedHistoryBounded |
