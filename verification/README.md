# t2u: a verified model

t2u forwards TCP connections through one UDP socket. This project models the parts of its C
code that carry hard promises and proves them in Dafny 4.11. `dafny verify dfyconfig.toml`
checks all of it.

* **The red-black tree** behind every index of the program (`RbShape`, `RbOrder`, `RbWalk`,
  `RbTree`). `RbTree.Tree` is the code itself on heap nodes with parent pointers: the insert
  loop, the six delete cases, lookup and the in-order walk. Its contracts speak of a finite
  map. The reasoning about shapes is in the other three modules, without a heap. Deletion keeps
  the source's order of events: the doomed black node takes its child's colour first, is
  repaired while still linked, and is spliced out last.
* **The windowed transport** (`Wire`, `EndSpec`, `SessionModule`, `Transport*`).
  `SessionModule.Session` holds the session's fields and updates them in place; each callback
  is proved to do what the function of the same name in `EndSpec` says. `Transport` puts two
  such ends and a lossy, duplicating, reordering network into one step system.
  32-bit numbers stay 32-bit in both ends; the true number behind each datagram is carried
  beside it and no callback looks at it. Each end has its own window, 1 to 64.
  `TransportRuns` states what holds in every run. `TransportLimits` states where those promises
  end: order survives exactly if no local write is short. `TransportBudget` bounds the resends,
  and `TransportEnds` says how a session ends and what is lost then. `SendQueue` is about one end
  under any events at all. `TransportEffects` says what each event does, on the fields and the
  datagrams alone, so that a step that does too little is refused as well.
* **The header** (`Header`): the 20 bytes in front of every datagram; encoding, decoding in place and both branches of the 64-bit
  byte-order macro, on a little-endian host, and the datagrams of a session as bytes.
* **Session lifecycle and teardown** (`Lifecycle`, `LifecycleHandles`, `LifecycleLimits`,
  `LifecycleEffects`, `ContextModule`, `Teardown`): naming, binding and moving sessions between the
  two trees of their rule, and the loops that free a whole context. `ContextModule.Context` is the
  lifecycle in place; `LifecycleEffects` says for every event which session comes, goes or moves.
* **The splay tree** of the vendored `tree.h` (`SplayTree`), in place with its stack node.

The code disagrees with its own documentation or evident intent in these places; the model
follows the code:

* `delete old session` in the connect request handler never finds one while peers ask under
  plain counter values, because a server's own handles always have an upper half
  (`Lifecycle.RequestReplacesNothing`). A connect request that arrives twice therefore leaves
  two live server sessions for one client session (`LifecycleLimits.RepeatedRequestDoubles`).
* One context with rules of both modes can give two live sessions the same handle, and a
  datagram then reaches only one of them (`LifecycleHandles.UniqueExactlyForOneMode`).
* A short local write breaks order: the rest is trimmed wrongly
  (`TransportLimits.TrimIsRestForAll`), and even when it is not, the untrimmed datagram is
  written again from its beginning (`TransportLimits.ShortWriteBreaksOrder`).
* The data timer counts against the window, not against `uretries_`: a message can be resent
  more than `uretries_` times exactly if `uretries_` is at most the window
  (`TransportBudget.ResendsExceedRetries`).
* A message whose retries have run out stays queued, so that if its acknowledgement is lost, the
  session it puts into closing waits until the idle time-out, the peer, its local stream or a
  negative answer ends it (`TransportEnds.LostAckWaits`).
* A closing session looks for the end inside the delivery loop, between taking the next payload
  out of the queue and writing it: if that was the last thing it waited for, it is freed, the
  source goes on with freed memory, and the payload never reaches the local socket (`TransportEnds.LastQueuedIsDropped`, `TransportEnds.QueuedPayloadIsDropped`).
* At the end of the local stream the comment promises to close after the queue is sent; the code
  deletes the session at once, and every undelivered payload is lost
  (`TransportEnds.EofLosesUndelivered`).
* The x86_64 branch of the byte-order macro keeps 32 bits (`Header.NarrowRoundTrip`).
* `SPLAY_REMOVE` returns the element it was given, which is the node it took out exactly if that
  element was itself in the tree (`SplayTree.Head.Remove`).

## Model

| member | source | states |
|---|---|---|
| RbShape.InOrderPlug | c/src/t2u_rbtree.c:209-257 | a tree's entries in order are those before, under and after any of its nodes, so a local rotation can be judged locally |
| RbShape.PlugIsRedBlack | c/src/t2u_rbtree.c:277-353 | a whole tree is red-black if and only if the subtree and the way up to the root each are, with matching black heights |
| RbShape.GrandparentExists | c/src/t2u_rbtree.c:297-304 | a red parent in the insert loop always has a black parent of its own, and the uncle's black height agrees |
| RbShape.RotatedKeepsOrder | c/src/t2u_rbtree.c:305-347 | every rotation case of insert keeps the entries and their order |
| RbShape.RotatedIsSound | c/src/t2u_rbtree.c:305-347 | every rotation case of insert leaves a red-black tree |
| RbShape.RecoloredIsUnsettled | c/src/t2u_rbtree.c:305-347 | the recolour case moves the only possible red-red edge two levels up and nothing else |
| RbShape.Settle | c/src/t2u_rbtree.c:297-352 | the insert loop, for every tree with one red-red edge at most: it ends, the result is red-black, the entries are the same in the same order |
| RbShape.RaisingKeepsEntries | c/src/t2u_rbtree.c:209-257 | a rotation at the parent of a node that is one black short keeps all entries in order |
| RbShape.Case1 | c/src/t2u_rbtree.c:388-394 | a subtree one black short below its node is repaired all the way up: same entries, red-black again, and the parent ends up black |
| RbShape.Case2 | c/src/t2u_rbtree.c:396-412 | with a red sibling: repaired, same entries |
| RbShape.Case3 | c/src/t2u_rbtree.c:414-429 | with an all-black neighbourhood the shortage moves to the parent: repaired, same entries |
| RbShape.Case4 | c/src/t2u_rbtree.c:431-443 | with a red parent: repaired, same entries |
| RbShape.Case5 | c/src/t2u_rbtree.c:445-466 | with a red near nephew: repaired, same entries |
| RbShape.Case6 | c/src/t2u_rbtree.c:468-483 | with a red far nephew: repaired, same entries; the asserts of the source hold |
| RbOrder.Inserted | c/src/t2u_rbtree.c:277-352 | hanging a new node where the search ended and settling gives a sorted red-black tree whose map has exactly the new key added |
| RbOrder.SplicePath | c/src/t2u_rbtree.c:500-507 | after the doomed node has taken its child's colour and been repaired in place, the way up fits its child again, with the same entries and nodes as before |
| RbOrder.Spliced | c/src/t2u_rbtree.c:500-508 | what is left after the splice is red-black and has all the other entries in order |
| RbOrder.Removed | c/src/t2u_rbtree.c:485-509 | removing the found node, or with two children its successor after moving key and data, gives a sorted red-black tree whose map has exactly that key less |
| RbOrder.HeightBound | c/src/t2u_rbtree.c:277-353 | 2 to the height is at most the square of the number of entries plus one, in every red-black tree |
| RbOrder.StepsBound | c/src/t2u_rbtree.c:159-184 | the number of nodes a lookup may visit is bounded by twice the logarithm of the number of keys plus one |
| RbWalk.PrevUndoesNext | c/src/t2u_rbtree.c:100-133 | the predecessor of a successor is the node itself |
| RbWalk.WalkVisitsAll | c/src/t2u_rbtree.c:80-133 | k steps from the minimum lead to the k-th entry in order, and past the last to NULL |
| RbWalk.NoNodeTwice | c/src/t2u_rbtree.c:80-133 | the walk meets no node twice |
| RbWalk.Neighbours | c/src/t2u_rbtree.c:100-133 | the in-order neighbours of a node, from its subtrees and its way up to the root |
| RbTree.Tree.constructor | c/src/t2u_rbtree.c:259-275 | a new tree is valid and empty |
| RbTree.Tree.RotateLeft | c/src/t2u_rbtree.c:209-233 | the relinking in place is the turn of the shape, with every parent pointer right |
| RbTree.Tree.RotateRight | c/src/t2u_rbtree.c:235-257 | the same on the other side |
| RbTree.Tree.DoLookup | c/src/t2u_rbtree.c:159-184 | finds the node of the key, or NULL and the parent a new node must hang from; visits at most as many nodes as the tree is high |
| RbTree.Tree.FoundOrAbsent | c/src/t2u_rbtree.c:159-184 | where the search stops decides whether the map has the key, and with which data |
| RbTree.Tree.Lookup | c/src/t2u_rbtree.c:186-193 | returns the mapped data if and only if the key is in the map, in logarithmically many steps |
| RbTree.Tree.Fixup | c/src/t2u_rbtree.c:297-352 | the loop in place reaches exactly the settled shape of the same nodes |
| RbTree.Tree.InsertNode | c/src/t2u_rbtree.c:277-353 | links the node, or returns the one already there and changes nothing |
| RbTree.Tree.Insert | c/src/t2u_rbtree.c:355-366 | 0 and one more key, or -2 and the very same tree if the key is present |
| RbTree.Tree.SiblingOnPath | c/src/t2u_rbtree.c:51-58 | the sibling is never NULL where the cases ask for it, and is the other child of the parent |
| RbTree.Tree.DeleteCase1 | c/src/t2u_rbtree.c:388-394 | in place: the heap becomes the repaired shape, node still linked |
| RbTree.Tree.DeleteCase2 | c/src/t2u_rbtree.c:396-412 | in place: the heap becomes the repaired shape |
| RbTree.Tree.DeleteCase3 | c/src/t2u_rbtree.c:414-429 | in place: the heap becomes the repaired shape |
| RbTree.Tree.DeleteCase4 | c/src/t2u_rbtree.c:431-443 | in place: the heap becomes the repaired shape |
| RbTree.Tree.DeleteCase5 | c/src/t2u_rbtree.c:445-466 | in place: the heap becomes the repaired shape |
| RbTree.Tree.DeleteCase6 | c/src/t2u_rbtree.c:468-483 | in place: the heap becomes the repaired shape |
| RbTree.Tree.ReplaceNode | c/src/t2u_rbtree.c:369-386 | puts a child, or nothing, in the place of its parent |
| RbTree.Tree.Unlink | c/src/t2u_rbtree.c:485-509 | the two-child move of key and data, the colour trick, the repair and the splice, in this order; says which node is freed |
| RbTree.Tree.RemoveNode | c/src/t2u_rbtree.c:485-509 | one node leaves the tree, one key leaves the map, the tree is valid again |
| RbTree.Tree.Remove | c/src/t2u_rbtree.c:511-519 | 0 and one key less, or -1 and the very same tree if the key is absent |
| RbTree.Tree.Min | c/src/t2u_rbtree.c:80-88 | the first node in key order, or NULL for an empty tree |
| RbTree.Tree.Max | c/src/t2u_rbtree.c:90-98 | the last node in key order, or NULL for an empty tree |
| RbTree.Tree.Next | c/src/t2u_rbtree.c:118-133 | the next node in key order, or NULL after the last |
| RbTree.Tree.Prev | c/src/t2u_rbtree.c:100-116 | the previous node in key order, or NULL before the first |
| SessionModule.Session.DeleteRequestMessage | c/src/t2u_message.c:81-115 | removes the message, counts down, and makes the read event again only while the session has its event |
| SessionModule.Session.DeleteConnected | c/src/t2u_session.c:608-664 | both queues emptied; a close request is sent unless the peer asked |
| SessionModule.Session.TryDelete | c/src/t2u_session.c:666-673 | a closing session goes once both queues are empty |
| SessionModule.Session.DeleteLater | c/src/t2u_session.c:675-679 | marks the session closing and tries |
| SessionModule.Session.AddRequest | c/src/t2u_message.c:34-79 | the next number, the message kept with its timer, the datagram sent; a number still in use is counted but not kept |
| SessionModule.Session.ProcessTcp | c/src/t2u_session.c:69-148 | disarms the read event at a full window, else reads, closes or waits |
| SessionModule.Session.RequestTimeout | c/src/t2u_message.c:7-32 | resends and re-arms while retries are within the window, else begins to close |
| SessionModule.Session.HandleDataResponse | c/src/t2u_message.c:117-150 | full length acknowledges and removes, less trims, more makes the length wrap as size_t does, negative deletes the session, as `TransportEffects.AnswerEffect` spells out |
| SessionModule.Session.HandleRetrans | c/src/t2u_message.c:152-156 | sends the kept message again, if there is one, and changes nothing, as `TransportEffects.RequestEffect` spells out |
| SessionModule.Session.DeliverInOrder | c/src/t2u_session.c:220-296 | the delivery loop writes and acknowledges what the recursive specification says, and stops where the session goes; `TransportEffects.NextEffect` spells out each outcome of a write |
| SessionModule.Session.RequestMissing | c/src/t2u_session.c:326-349 | the retransmit loop asks for what the recursive specification says |
| SessionModule.Session.HandleDataRequest | c/src/t2u_session.c:196-351 | window test, delivery or reorder queue, as specified |
| SessionModule.Session.ProcessUdp | c/src/t2u_context.c:100-163 | every datagram for an established session is dispatched as specified |
| Transport.Pigeonhole | c/src/t2u_message.c:73-74 | consecutive true numbers need as many different 32-bit keys |
| TransportSend.RequestAdded | c/src/t2u_message.c:34-79 | reading a payload keeps the sender's invariant: kept under its number, counted, within the window |
| TransportSend.AckIsForKept | c/src/t2u_message.c:117-127 | a positive acknowledgement that finds a message has exactly that message's length |
| TransportSend.ResponseKeepsTx | c/src/t2u_message.c:117-150 | no response makes the sender forget an undelivered payload |
| TransportSend.TimeoutKeepsTx | c/src/t2u_message.c:7-32 | nor does a timer |
| TransportReceive.WindowTest | c/src/t2u_session.c:204-218 | the wrapping tests against 1 and the window agree with true distances for every datagram younger than 2^32 minus 64 messages |
| TransportReceive.StaleMisread | c/src/t2u_session.c:204-218 | an old datagram is taken for a new one if and only if its age is within a window of 2^32 |
| TransportReceive.FewKeys | c/src/t2u_session.c:305-324 | the reorder queue can never hold a window of packets |
| TransportReceive.BufferTakes | c/src/t2u_session.c:305-324 | the count check never refuses a new packet inside the window, and the queue stays right |
| TransportReceive.DrainDelivers | c/src/t2u_session.c:220-296 | the delivery loop writes the next payloads in order, acknowledges each with its length, and keeps the queue right |
| TransportRetry.MustAskMeans | c/src/t2u_session.c:334-341 | the two span tests ask for a number if and only if it is missing, before the packet received and after the last one asked for, but for a window of lags near each multiple of 2^32 |
| TransportRetry.AskRequests | c/src/t2u_session.c:326-349 | every number asked for is missing, strictly between the last delivered and the received packet, and above all asked before |
| TransportRetry.AskMissesNothing | c/src/t2u_session.c:326-349 | while the last request lags by less than 2^32 minus two windows, every gap not asked for before is asked for |
| TransportStep.AnyStep | c/src/t2u_session.c:69-351 | every event at one end keeps its own half of the invariant and sends only true datagrams |
| TransportRuns.AckIsWholeOrNone | c/src/t2u_message.c:117-136 | in no run does an acknowledgement of a kept message exceed it or cover part of it: it is for all of it, or not positive |
| TransportRuns.StepKeepsInv | c/src/t2u_context.c:100-163 | every step of either end keeps the invariant of the pair and the network |
| TransportRuns.RunKeepsInv | c/src/t2u_context.c:100-163 | so does every run |
| TransportRuns.DeliveredInOrder | c/src/t2u_session.c:196-351 | at every moment of every run the bytes written to either TCP socket are a prefix of the bytes the other end has read |
| TransportRuns.UndeliveredIsKept | c/src/t2u_message.c:34-127 | at both ends of every run: every payload read and not yet delivered is still queued while the sender lives; at most a window of them; the count is the queue's size; reading is off only while the window is full |
| TransportRuns.NoGapAskedTwice | c/src/t2u_session.c:326-349 | at both ends of every run the retransmit requests strictly increase, and the reorder queue stays below the window |
| TransportRuns.GapsAreAskedFor | c/src/t2u_session.c:326-349 | at both ends of every run a packet ahead of its turn has every gap before it asked for that was not, while the last request lags by less than 2^32 minus two windows |
| TransportRuns.WindowTestIsTrue | c/src/t2u_session.c:204-218 | at both ends of every run, each packet that may arrive is classified next, inside, or stale or beyond the window as its true number is |
| TransportLimits.TrimIsRest | c/src/t2u_message.c:128-136 | the trimmed message is the rest of the payload if and only if the bytes past the fourth repeat at that distance |
| TransportLimits.TrimIsRestForAll | c/src/t2u_message.c:128-136 | it is so for all payloads of a length if and only if at most four bytes are left |
| TransportLimits.ShortWriteBreaksOrder | c/src/t2u_session.c:256-271 | for every payload and every number of bytes short of it, a run of three events (the read, the short write, a copy of the datagram) after which what is written is no prefix of what was read |
| TransportLimits.OrderExactlyForWholeWrites | c/src/t2u_session.c:236-271 | bytes are in order in all runs if and only if no local write that can happen is short |
| TransportLimits.TrimmedRun | c/src/t2u_message.c:128-136 | another run after a short write, of five events: the cut payload and then its trimmed copy are written |
| TransportLimits.TrimmedRunOrder | c/src/t2u_message.c:128-136 | in that one run order survives if and only if the trimming happens to be right |
| TransportLimits.ReuseMiscounts | c/src/t2u_message.c:73-74 | the count stays the queue's size if and only if the next number is not in use |
| TransportLimits.LateCopyIsAnsweredZero | c/src/t2u_session.c:216-301 | a copy of a delivered payload is answered with 0 and changes nothing, and a 0 removes no message: a lost acknowledgement stays lost |
| TransportBudget.FiringUsesShot | c/src/t2u_message.c:7-32 | every firing of a data timer uses up one of a message's window plus two |
| TransportBudget.TimersStop | c/src/t2u_message.c:7-32 | with nothing read and nothing received, the data timers of a pair fire at most as often as their shots add up to |
| TransportBudget.TimerBound | c/src/t2u_message.c:7-32 | after any run that is at most 2 * 64 * 66 times |
| TransportBudget.StepUsesResends | c/src/t2u_message.c:7-32 | a resend uses up one of its message's resends, and no other event gives any back |
| TransportBudget.ResendsAreBounded | c/src/t2u_message.c:7-32 | in every run, with reads and datagrams at will, the timer resends each message at most window plus one times, at either end |
| TransportBudget.BoundIsReached | c/src/t2u_message.c:7-32 | for every window, a run in which it does so that often |
| TransportBudget.ResendsExceedRetries | c/src/t2u_message.c:15-19 | some run resends a message more than uretries_ times if and only if uretries_ is at most the window |
| TransportEnds.ExhaustedStays | c/src/t2u_message.c:15-19 | when a message's retries run out the session is only marked closing; the message stays queued |
| TransportEnds.KeptUntilEnding | c/src/t2u_context.c:90-163 | while a message is kept and not acknowledged, a session ends exactly by the idle time-out, a close from the peer, the end of its local stream or a negative answer |
| TransportEnds.LostAckWaits | c/src/t2u_message.c:117-127 | in every run that never brings the acknowledgement of a message, and has no such event, the session stays alive and keeps the message |
| TransportEnds.EofLosesUndelivered | c/src/t2u_session.c:111-131 | when the local stream ends the queue is dropped: whatever happens until the peer is gone too, everything read has arrived in all continuations if and only if nothing was outstanding |
| TransportEnds.LastQueuedIsDropped | c/src/t2u_session.c:277-296 | the delivery loop goes on to write the queued payload it has just taken, unless the session is closing and that was all it waited for |
| TransportEnds.DroppedForGood | c/src/t2u_session.c:277-296 | in that case only the packet that arrived is written and acknowledged, and the session ends with nothing queued |
| TransportEnds.QueuedPayloadIsDropped | c/src/t2u_session.c:277-296 | for any two payloads and windows of two or more, a run within all hypotheses in which both arrive and the second is dropped that way |
| TransportEffects.SenderEffects | c/src/t2u_message.c:117-156 | at both ends of every run: an acknowledgement of a kept message takes exactly that message out of the queue, lowers the count and makes the read event again, or ends a closing session with nothing else left, with one close sent; a 0, or an answer to a message no longer kept, changes nothing; a negative one ends the session; a request for a kept message sends exactly the payload that was read and changes nothing, and one for a message no longer kept sends nothing |
| TransportEffects.AnswerEffect | c/src/t2u_message.c:117-150 | at an end in any state: which of the four things a response does, and what is left, message by message |
| TransportEffects.RequestEffect | c/src/t2u_message.c:152-156 | at an end in any state: a request sends the kept message and changes nothing, or sends nothing |
| TransportEffects.ReadableEffect | c/src/t2u_session.c:69-148 | a full window reads nothing and disarms the event; else a payload is the next message, kept and sent, the end of the stream ends the session with a close, and an empty socket changes nothing |
| TransportEffects.FiresEffect | c/src/t2u_message.c:7-32 | a timer counts the try and resends just its message while the tries do not exceed the window, and after that only marks the session closing |
| TransportEffects.EndingEffect | c/src/t2u_session.c:608-664 | the idle time-out frees the session and tells the peer; a close from the peer frees it and sends nothing |
| TransportEffects.OutOfTurnEffect | c/src/t2u_session.c:204-324 | a packet neither next nor in the window is answered with 0 and changes nothing; one in the window is queued exactly if it is new and there is room, is not answered, and is not written |
| TransportEffects.NextEffect | c/src/t2u_session.c:236-271 | the next packet in line, by what the local write takes: refused is answered with -1 and starts the closing, blocked is answered with -1 and changes nothing, short is answered with its length and changes nothing, whole is answered with its length and moves on |
| TransportEffects.RepliesInOrder | c/src/t2u_session.c:220-296 | each piece the delivery loop writes is answered with its own length, in order of the numbers, and nothing follows but one -1 or closes |
| TransportEffects.AdvancesByWrites | c/src/t2u_session.c:256-271 | the number last delivered moves by exactly the whole writes: all of them, or all but a short last one |
| TransportEffects.NextWritesWholeRun | c/src/t2u_session.c:220-296 | while the local socket takes everything, one packet brings out the whole unbroken run queued behind it, up to the first gap, and takes exactly that run out of the queue |
| Header.Hton64IsSwap | c/src/t2u_internal.h:235-238 | the #else branch is all eight bytes in the other order |
| Header.HandleRoundTrip | c/src/t2u_internal.h:235-238 | every 64-bit handle survives the trip and travels in network order |
| Header.NarrowRoundTrip | c/src/t2u_internal.h:232-234 | the x86_64 branch gives back a handle if and only if it fits in 32 bits |
| Header.DecodeEncode | c/src/t2u_message.c:44-51 | decoding recovers exactly the operation, handle, number and payload encoded |
| Header.EncodeDecode | c/src/t2u_context.c:35-44 | nothing but an encoding is accepted: a known datagram is the encoding of what it decodes to |
| Header.DecodeInPlace | c/src/t2u_context.c:34-57 | the five swaps in the receive buffer leave the decoder's fields in host order, and refuse what the decoder refuses |
| Header.WireRoundTrip | c/src/t2u_context.c:100-163 | the bytes of every datagram a session sends are dispatched as that datagram, with the signed value of a response |
| Lifecycle.NewHandle | c/src/t2u_session.c:527-543 | before the counter wraps, a new session's handle is in none of the keys of the tree it enters |
| Lifecycle.NoCollision | c/src/t2u_session.c:162-171 | the move into the tree of established sessions never meets its own key |
| Lifecycle.RequestReplacesNothing | c/src/t2u_rule.c:43-55 | no plain counter value is ever a key of a server rule, so no old session is replaced |
| LifecycleLimits.RequestAdds | c/src/t2u_rule.c:37-71 | a connect request always adds one session under a new handle and changes no other |
| LifecycleLimits.RepeatedRequestDoubles | c/src/t2u_rule.c:37-71 | in every run a connect request that arrives twice leaves two live sessions for one client handle |
| LifecycleLimits.RetriesAreBounded | c/src/t2u_session.c:479-512 | in every run a connecting session of either mode has fewer retries than uretries_ |
| LifecycleLimits.TimeoutUsesTry | c/src/t2u_session.c:479-512 | every firing of a connect timer uses up one of its session's tries |
| LifecycleLimits.ConnectTimersStop | c/src/t2u_session.c:479-512 | with nothing else happening, the connect timers fire at most uretries_ times for each live session |
| Lifecycle.ResponseFindsClient | c/src/t2u_context.c:74-83 | a connect response only ever finds sessions of client rules |
| Lifecycle.ResponseBinds | c/src/t2u_session.c:151-192 | it moves one session, changes only the upper half of its handle and overwrites nothing |
| Lifecycle.StepKeepsInv | c/src/t2u_session.c:151-606 | every callback keeps each live session filed in exactly one place under its own handle |
| Lifecycle.OnePlaceEach | c/src/t2u_session.c:427-477 | in every run before the counter wraps, each live session is in exactly one tree of one rule, the one that matches its status |
| Lifecycle.RequestsAreBounded | c/src/t2u_session.c:479-512 | in every run a client session sends at most uretries_ connect requests |
| Lifecycle.BoundOnce | c/src/t2u_context.c:74-83 | once a client session is bound, every further connect response for it changes nothing |
| LifecycleEffects.CloseEffect | c/src/t2u_context.c:150-160 | a close request takes exactly one session out of exactly one tree, that of the first rule with the handle, and frees it |
| LifecycleEffects.CloseOfNone | c/src/t2u_context.c:150-160 | one for a handle that no rule has changes nothing |
| LifecycleEffects.EndEffect | c/src/t2u_session.c:655-663 | the end of a session here takes out and frees just that session |
| LifecycleEffects.DoneEffect | c/src/t2u_session.c:441-476 | a connect that succeeded moves the session, under its handle, to the established ones; one that failed takes it out and frees it; nothing else changes either way |
| LifecycleEffects.ResponseEffect | c/src/t2u_session.c:151-193 | a good response moves the session it is for to the whole handle, a bad one takes it out and frees it; nothing else changes either way |
| LifecycleEffects.ResponseToNone | c/src/t2u_context.c:74-89 | a response that is for no session changes nothing |
| LifecycleEffects.TimeoutEffect | c/src/t2u_session.c:489-511 | a connect timer frees its session exactly at the last try; before it counts the try, and a client asks again |
| LifecycleEffects.AcceptEffect | c/src/t2u_session.c:515-585 | an accepted connection is one more session, under a counter value no tree has, asked for once |
| LifecycleEffects.RefusedEffect | c/src/t2u_rule.c:57-71 | a connect request refused at once, or without a socket, leaves every session as it was |
| LifecycleEffects.RequestFreesOld | c/src/t2u_rule.c:43-55 | whatever handles peers make up: sessions filed under the very handle of a request are taken out and freed, and no others |
| LifecycleEffects.CounterSkipsZero | c/src/t2u_session.c:525-531 | the handle counter goes up by one and skips 0 where it wraps |
| LifecycleHandles.OneModeIsUnique | c/src/t2u_session.c:698-721 | with rules of one mode no two established sessions of a context share a handle |
| LifecycleHandles.TwoModesClash | c/src/t2u_session.c:698-721 | with a client and a server rule, a run of four events (an accepted connection, a connect request, its connect, a connect response) after which two sessions do |
| LifecycleHandles.UniqueExactlyForOneMode | c/src/t2u_session.c:698-721 | in all runs a handle names one session of its context if and only if all rules have one mode |
| ContextModule.Context.FindSession | c/src/t2u_session.c:682-721 | the recursive walk over the rule tree finds the first rule, by name, that has the handle among its connecting or its established sessions |
| ContextModule.Context.AddConnecting | c/src/t2u_session.c:515-585 | in place: counter, handle, entry, and the immediate failure of a server's connect |
| ContextModule.Context.DeleteConnecting | c/src/t2u_session.c:587-606 | in place: one entry and one live session less |
| ContextModule.Context.DeleteConnected | c/src/t2u_session.c:655-663 | in place: one entry and one live session less |
| ContextModule.Context.ConnectRequest | c/src/t2u_rule.c:37-71 | in place: old sessions under the handle go, a new one comes |
| ContextModule.Context.Establish | c/src/t2u_session.c:162-171 | in place: out under the old handle, in under the new |
| ContextModule.Context.ConnectResponse | c/src/t2u_session.c:151-193 | in place: the found session is bound or deleted, no other rule changes |
| ContextModule.Context.CloseRequest | c/src/t2u_context.c:150-160 | in place: the found established session is deleted, no other rule changes, as `LifecycleEffects.CloseEffect` spells out |
| ContextModule.Context.ConnectDone | c/src/t2u_session.c:427-477 | in place: a server's session is established, or deleted on an error, as `LifecycleEffects.DoneEffect` spells out |
| ContextModule.Context.ConnectTimeout | c/src/t2u_session.c:479-512 | in place: one retry more, and one request more from a client, or deleted |
| Teardown.TurnRemoves | c/src/t2u_session.c:655-656 | a turn of a teardown loop removes the node it frees if and only if that is filed under its own handle, and removes nothing, so that the loop goes on for ever, if and only if its handle is no key of the tree |
| Teardown.FreeReceived | c/src/t2u_session.c:632-639 | every queued message is freed exactly once |
| Teardown.FreeSent | c/src/t2u_session.c:641-647 | every kept message is freed exactly once, if filed under its own number |
| Teardown.FreeSession | c/src/t2u_session.c:608-664 | all a session owns is freed exactly once, the session itself last |
| Teardown.OwnedRule.FreeConnected | c/src/t2u_rule.c:235-241 | the loop ends with an empty tree and everything in it freed exactly once |
| Teardown.OwnedRule.FreeConnecting | c/src/t2u_rule.c:244-250 | the same for connecting sessions |
| Teardown.OwnedRule.Free | c/src/t2u_rule.c:221-268 | both trees emptied, everything freed exactly once, the rule last |
| Teardown.OwnedContext.Free | c/src/t2u_context.c:220-247 | with distinct service names and no session filed twice the teardown ends, empties every tree, and frees every rule, session and message of the context exactly once |
| Teardown.RunsAreOwned | c/src/t2u_context.c:220-247 | after every run of the callbacks no session is filed twice, in one rule or in two, and each message is filed under its own number, so that the teardown frees each exactly once |
| SendQueue.ReactFilesOwn | c/src/t2u_message.c:58-73 | every event at a session, the peer and network being arbitrary, keeps each queued message filed under its own number |
| SendQueue.HistoryFilesOwn | c/src/t2u_message.c:58-73 | so does every history of events |
| SplayTree.FillFlat | c/libevent2/include/tree.h:105-110 | closing an accumulated spine keeps its nodes in order |
| SplayTree.FillSpells | c/libevent2/include/tree.h:105-110 | in the heap, the innermost link closes the whole spine |
| SplayTree.TurnedKeeps | c/libevent2/include/tree.h:81-91 | a rotation keeps the nodes and their order |
| SplayTree.LinkedKeeps | c/libevent2/include/tree.h:93-103 | a link step keeps the nodes and their order over all three parts |
| SplayTree.LinkKeepsSearching | c/libevent2/include/tree.h:211-239 | a link step keeps every smaller node on the left spine and every larger one on the right |
| SplayTree.SearchEnds | c/libevent2/include/tree.h:211-239 | where the loop stops, the assembled tree has the same nodes in the same order and the key, or a neighbour of it, at the root |
| SplayTree.Rotate | c/libevent2/include/tree.h:81-91 | the relinking in place is the turn of the shape |
| SplayTree.LinkRoot | c/libevent2/include/tree.h:93-103 | the relinking in place is the link step of the three parts |
| SplayTree.Assemble | c/libevent2/include/tree.h:105-110 | the four assignments in place give the assembled tree, also when a spine is empty |
| SplayTree.Search | c/libevent2/include/tree.h:211-239 | the loop ends, with the three parts in the heap and the stop condition met |
| SplayTree.GrownIsAscending | c/libevent2/include/tree.h:166-177 | a new node above the splayed root is in order |
| SplayTree.WithoutRoot | c/libevent2/include/tree.h:190-199 | splaying the left side once more leaves its root without a right child, and the joined tree lacks exactly the removed node |
| SplayTree.Head.Splay | c/libevent2/include/tree.h:203-240 | same nodes, same order; all on the left are smaller than the key and all on the right larger |
| SplayTree.Head.Find | c/libevent2/include/tree.h:120-130 | the node with the key if and only if there is one, and it is at the root |
| SplayTree.Head.Insert | c/libevent2/include/tree.h:156-180 | exactly the new node is added, or the node already there is returned and the order is as before |
| SplayTree.Head.Remove | c/libevent2/include/tree.h:182-201 | exactly the node with the key is taken out, or there is none and nothing is lost; the element returned is that node if and only if it was itself in the tree |
| SplayTree.Head.MinMax | c/libevent2/include/tree.h:243-271 | the first or the last node in order, and it is at the root |
| SplayTree.Head.Next | c/libevent2/include/tree.h:132-144 | the next node in order after the given one, or NULL after the last |

## Left out

- malloc never fails; sockets, timers and libevent are inputs: a timer may fire whenever it is armed, a read or write may have any result.
- Keys are values and comparison procedures are total orders; a key that is a pointer into its own node's data, and data changed behind the tree's back, are outside the model.
- Datagrams arrive at most 2^32 minus 64 messages late in the runs of `TransportRuns`; `TransportReceive.StaleMisread` says what an older one does.
- A number is not reused while its old message is still kept, in those runs; `TransportLimits.ReuseMiscounts` says when the count goes wrong.
- A message whose length has wrapped below a header puts nothing on the wire that a receiver takes; the bytes the source copies or sends past a buffer's end are not modelled. A payload read from TCP has 1 to 1400 bytes.
- A connect response longer or shorter than its error field, and a data response shorter than its value, are read past their end by the source; the model has the latter as garbled.
- After the close inside the delivery loop frees the session, the source goes on with freed memory; the model stops the loop there. What is lost then is in `TransportEnds.LastQueuedIsDropped`.
- Nothing is claimed about delivery in the end: a lost acknowledgement is never repaired. The session then waits in closing until the idle time-out, the peer, its local stream or a negative answer ends it.
- The window and the time-outs do not change during a run, though the API can write them at any time.
- The transport's runs start with both ends connected; the connect phase is in `Lifecycle`, the two are not joined into one system.
- SessionModule.Session: the two queues are maps, which is what `RbTree.Tree` is proved to be; the order in which a teardown loop meets their entries is left open.
- Lifecycle: the handle counter has not wrapped, and peers ask under plain counter values for services served here; other contexts of the process may take counter values at any time. A session's queues and sockets are not part of it.
- ContextModule.Context: the trees of a rule are maps, and the rules of the context do not change while sessions come and go.
- Teardown: trees are maps and a loop may take any node for the root; a connecting session's queues are empty, as the source assumes. The close requests sent on the way are in `SessionModule.Session.DeleteConnected`.
- Teardown.OwnedContext.Free: a second rule under a name in use never enters the tree and is not freed by the source either; names are taken as distinct.
- SplayTree: one loop, for a sign, stands for `SPLAY` and `SPLAY_MINMAX`, and one method, for a side, for each pair of mirror-image macros.
- RB_GENERATE and the rest of `tree.h`: the same subject as the red-black tree above.
- `t2u.c`, `t2u_runner.c`, `t2u_thread.c`: option setting, the runner thread and its control socket; all callbacks are taken to run one at a time.
- Creating contexts and rules, and the name lookup of a connect request, which is one more lookup in the red-black tree.
