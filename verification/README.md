# Proofs about beirdobot's containers, queues and codecs

This project models the parts of beirdobot that everything else stands on, and
proves what they keep over every input, every run and every interleaving:

* the weight-balanced search tree of `bot/src/balanced_btree.c`, on real nodes
  with left, right and parent links, and the loops of its clients that delete
  while they walk or change the key of a linked entry;
* the bounded blocking queue of `bot/src/queue.c`, as a ring in a table and as
  a protocol among threads with wait sets and signals;
* the transmit throttle of `bot/src/transmit.c` (compare section 8.10 of
  RFC 1459), with the flood list that it keeps;
* the JSON printer and parser of `bot/src/cjson/cJSON.c` (RFC 4627);
* streaming MD5 (sections 3.1 to 3.4 of RFC 1321), percent-encoding (section
  2.1 of RFC 3986) and the queue of accepted sockets with its worker threads,
  from `webservice/mongoose/mongoose.c`;
* the intrusive list of `bot/src/linked_list.c`, and the one-time-password
  sessions of `bot/src/authenticate.c` (section 7 of RFC 2289), with the
  database queue that their records go through and the threads they share.

How the files hang together:

| file | contents |
|---|---|
| `Options.dfy`, `Rows.dfy`, `Sets.dfy`, `Bits.dfy` | optional values; sequences: repetition, picking, regrouping, end marks; finite sets; powers of two and masks |
| `Trees.dfy` | trees as values: order, removal, rebalancing, height |
| `BalancedBTree.dfy` | the linked tree, each method proved against `Trees.dfy` |
| `KeyOrders.dfy` | the integer comparison, which subtracts |
| `TreeClients.dfy`, `FlushLoops.dfy`, `PluginLoops.dfy` | re-keying, runs as a finite map, the reload loops |
| `LinkedLists.dfy`, `Transmit.dfy`, `Authenticate.dfy` | the list and walks that delete; pacing and the flood list; sessions, one message or sweep at a time |
| `AuthQueries.dfy`, `SessionRaces.dfy` | the record of a user behind the queue of the database thread; one session between its messages and the sweep |
| `BoundedQueues.dfy`, `QueueProtocol.dfy` | the ring; the protocol, and the protocol run on the ring |
| `JsonText.dfy`, `JsonCode.dfy` | printer and parser on strings; the loops over buffers and pointers |
| `JsonGrammar.dfy`, `JsonPrinting.dfy` | the grammar of RFC 4627, what its texts mean and what the parser takes; what the printer writes, and the way back |
| `Md5.dfy`, `UrlCodec.dfy`, `WorkerPool.dfy` | the parts of the web server |

A tree node or a list item is an object whose links the methods reassign. What
the links spell is a ghost value (`shape`, `items`), and the invariant `Valid`
ties the one to the other. Loops in the C code are loops here, with the
specification function as the partner of each.

## What does not hold

Some of what one would expect of the code is not so. In each case the model
keeps to the code, a lemma gives the run or the input, and another says exactly
when the expectation is met.

* **A sleeping thread can be forgotten** (`bot/src/queue.c:208-218`). The queue
  signals only when it stops being full or empty, one thread at a time. With two
  or more consumers and more than one place, a run ends with an item in the
  queue, a consumer asleep and nobody about to look
  (`QueueProtocol.StallsExactly`); the same goes for two or more producers and
  room (`QueueProtocol.SticksExactly`), which is how the logging and query
  queues are used.
* **A timed-out dequeue can pass over an item.** The comment at
  `bot/src/queue.c:286` says that the queue is still empty; an item may have
  come in between (`QueueProtocol.ExpiredMissesItem`). It can happen if and only
  if there are a consumer and a producer (`QueueProtocol.MissesExactly`); in one
  run it does if and only if not everything has gone since that lay there when
  the wait timed out or was put in later (`QueueProtocol.MissesInRun`).
* **A deadline can be malformed** (`bot/src/queue.c:242-248`): the nanoseconds
  are not carried. It is well formed at every moment if and only if the time
  asked for is a whole number of seconds (`QueueProtocol.DeadlineProper`), which
  it is for all callers; in the last microsecond of a second any other time is
  refused (`QueueProtocol.DeadlineMalformed`). A wait refused with EINVAL has not
  let go of the mutex and is no time-out, so that the loop at
  `bot/src/queue.c:259-282` goes round with nobody else able to fill the queue
  (`QueueProtocol.SpinsForever`). It can come to that if and only if there is a
  consumer and its time is not a whole number of seconds
  (`QueueProtocol.SpinsExactly`).
* **A one-time password can be accepted twice.** Whether the record has changed
  is asked by a queued query (`bot/src/authenticate.c:272-289`,
  `bot/src/mysql.c:1110`), and storing it queues a select whose answer queues
  the update behind whatever has arrived meanwhile (`bot/src/mysql.c:1148`,
  `bot/src/mysql.c:1334-1372`). Two sessions of one user, on two servers, can so
  both be told the old record (`AuthQueries.AcceptedTwice`). The stored key
  hashes back once per acceptance if and only if every acceptance rests on a
  record read after all earlier updates (`AuthQueries.ChainExactly`).
* **A right reply can be spoilt by a colon behind it.** What stands before a colon
  is taken for the kind of the reply, and an unknown kind is refused
  (`bot/src/authenticate.c:69-76`), so that words that are right by themselves are
  not with anything behind; `Authenticate.PrefixedReply` says exactly which replies
  with a colon are right.
* **A session that has timed out can come back.** The list's mutex is let go at
  `bot/src/authenticate.c:403`; the state is tested at line 422 and written at
  line 425 after a round trip to the database, while the sweep marks it in
  between and tests it once more (`SessionRaces.Revived`). Some ended session goes
  on by a given time if and only if the sweep may mark it between the reading of
  the challenge and the verdict, and that time is not before the deadline of the
  challenge (`SessionRaces.RevivesExactly`).
* **A session can be freed while a message works on it**, whatever its deadline:
  between lines 431 and 432 of `bot/src/authenticate.c` the sweep finds it
  rejected and frees it, and the time is written into it afterwards
  (`SessionRaces.TakenDownInUse`). At which points of a message this can happen,
  and how early, is `SessionRaces.FreesExactly`; no session is ever freed in use
  if and only if the mutex keeps the sweep away from the look-up to the last write
  (`SessionRaces.MutexExactly`).
* **A queue of one element holds nothing**, and the message for a queue that is
  too large can never come, because `1<<31` is negative before it is widened
  (`BoundedQueues.Queue.Insert`, `BoundedQueues.RoundUp`).
* **The flood wait is right exactly for a list in wake order**
  (`Transmit.ReadyExact`); a shorter line behind a longer one breaks the order,
  and then a paced run may go beyond the limit (`Transmit.RunMisjudges`).
* **Adding an item with an equal key** drops it or not by the shape of the tree
  (`BalancedBTree.BTree.Add` gives the condition). An item so dropped still names
  its tree and the parent that turned it away (`bot/src/balanced_btree.c:153-189`),
  and removing it cuts off what hangs to the right of that parent by then, so
  that nothing is lost if and only if nothing hangs there
  (`BalancedBTree.BTree.RemoveDropped`).
* **Integer comparison** is right exactly when the difference does not overflow
  (`KeyOrders.CompareExactly`), and so orders a range of keys if and only if no two
  are 2^31 or more apart (`KeyOrders.RangeExactly`). With the -1 under which a new server
  stands in the tree (`bot/src/bot.c:1214`) the number 2147483647 is one too many.
* **A socket can be left in the accept queue** with no thread to take it: a
  worker that has timed out still counts as idle (`WorkerPool.Stranded`,
  `WorkerPool.AttendedExactly`).
* **JSON strings lose control characters** without an escape letter
  (`JsonPrinting.RoundTrip` says when the value survives whole).
* **The parser takes texts that are not JSON**: control characters as blanks,
  unknown letters behind a backslash, strings without a closing quote, and `07` as 7
  (`JsonGrammar.TakesMore`); `JsonGrammar.ReadsExactly` says just which, and as what.
* **The comment on `MD5Final`** says that the length is appended most
  significant byte first; it is least significant first, as RFC 1321 asks
  (`Md5.LastWords`). The wiping at the end reaches 8 bytes, on a machine with
  8-byte pointers, and leaves the rest of the context (`Md5.Context.Final`).
* **`url_encode` is faithful exactly when the buffer holds all of the result**
  (`UrlCodec.UrlEncode`). `url_decode` completes an escape that the end of the
  source cuts off with the digits behind it (`UrlCodec.CutEscape`); every source is
  decoded as if it ended there if and only if the byte behind it is no hexadecimal
  digit (`UrlCodec.WithinExactly`).

## Model

| member | source | states |
|---|---|---|
| Trees.BalanceRoot | bot/src/balanced_btree.c:558-627 | shifting the in-order neighbour up ends, keeps the order of the nodes and leaves the weights of the two sides at most 1 apart |
| Trees.ShiftLevels | bot/src/balanced_btree.c:565-615 | a shift changes the difference of the weights by exactly 2, so that it never changes sign |
| Trees.RebalancedKeepsOrder | bot/src/balanced_btree.c:544-631 | after rebalancing the order is the same and the weights differ by at most 1 at every node |
| Trees.RebalancedLeavesBalanced | bot/src/balanced_btree.c:544-631 | rebalancing a balanced tree changes nothing |
| Trees.BalancedHeight | bot/src/balanced_btree.c:544-631 | a balanced tree of n nodes is as high as n has binary digits |
| Trees.DigitsIsLog | bot/src/balanced_btree.c:544-631 | the number of binary digits of n > 0 is floor(log2 n) + 1 |
| Trees.RebalancedIsLowest | bot/src/balanced_btree.c:544-631 | the height after rebalancing is floor(log2 n) + 1, and no arrangement of the same nodes is lower |
| Trees.WithoutRootOrder | bot/src/balanced_btree.c:461-542 | putting the heir in the place of a node takes just that node out of the order |
| Trees.WithoutRootLevels | bot/src/balanced_btree.c:258-270 | the heir comes from the heavier side, and from the right of two equal ones, so that a removal at the root moves the weights one nearer and never unbalances it |
| BalancedBTree.FindGreatest | bot/src/balanced_btree.c:437-447 | gives the last node in order |
| BalancedBTree.FindLeast | bot/src/balanced_btree.c:449-459 | gives the first node in order |
| BalancedBTree.Weight | bot/src/balanced_btree.c:416-435 | the recursion over links counts the nodes of the subtree |
| BalancedBTree.FindLeastCond | bot/src/balanced_btree.c:633-653 | gives the first node in order that meets the condition, or none if none does |
| BalancedBTree.BTree.constructor | bot/src/balanced_btree.c:82-113 | a new tree is well formed and empty |
| BalancedBTree.BTree.ShiftRight | bot/src/balanced_btree.c:565-588 | one shift in place: all links spell the shifted tree, wherever the subtree hangs |
| BalancedBTree.BTree.ShiftLeft | bot/src/balanced_btree.c:588-615 | the mirror image |
| BalancedBTree.BTree.LevelRoot | bot/src/balanced_btree.c:558-627 | the loop at one root ends with the weights at most 1 apart |
| BalancedBTree.BTree.Rebalance | bot/src/balanced_btree.c:544-631 | the recursion rewrites the links of a subtree into those of the rebalanced tree and touches nothing around it |
| BalancedBTree.BTree.PickHeir | bot/src/balanced_btree.c:258-270 | the heir is the greatest node of a heavier left side and otherwise the least of the right |
| BalancedBTree.BTree.Replace | bot/src/balanced_btree.c:461-542 | for every shape the heir takes over all links of the node, which is left with none |
| BalancedBTree.BTree.RemoveDropped | bot/src/balanced_btree.c:524-542 | removing an item that was dropped for an equal key cuts off the right side of the parent it still names; the order stays if and only if that side is empty |
| BalancedBTree.BTree.Remove | bot/src/balanced_btree.c:223-283 | removes exactly this node from the order, whatever its key, restores every link and leaves the node unlinked; no node only rebalances; a node of another tree is left alone |
| BalancedBTree.BTree.Find | bot/src/balanced_btree.c:285-320 | finds a node with an equal key if there is one anywhere, in at most as many comparisons as the tree is high |
| BalancedBTree.BTree.FindParent | bot/src/balanced_btree.c:391-414 | gives a linked node with no child on the side where the key belongs, so that hanging it there keeps the order; none only for an empty tree |
| BalancedBTree.BTree.Hang | bot/src/balanced_btree.c:158-189 | links the item to the parent found, unless the two keys are equal |
| BalancedBTree.BTree.Add | bot/src/balanced_btree.c:127-201 | a new item goes in after every key that is not greater; it is dropped exactly when the node before its place has an equal key and no right child; no item only rebalances |
| BalancedBTree.BTree.Prune | bot/src/balanced_btree.c:203-221 | takes a whole subtree down, leaving each node unlinked |
| BalancedBTree.BTree.Destroy | bot/src/balanced_btree.c:115-125 | leaves an empty tree and every former node unlinked |
| KeyOrders.CompareExactly | bot/src/balanced_btree.c:322-343 | the comparison has the right sign if and only if the difference fits 32 bits |
| KeyOrders.RangeExactly | bot/src/balanced_btree.c:322-343 | on the keys from one 32-bit number to another it is an order if and only if the two are less than 2^31 apart |
| KeyOrders.IdsInOrder | bot/src/mysql.c:1868-1878 | on -1 and the numbers that the database gives out, but for the greatest, it is an order as the tree needs it |
| KeyOrders.KeysGoRound | bot/src/balanced_btree.c:322-343 | on all 32-bit keys it is not: three keys go round in a circle |
| TreeClients.Rekey | bot/src/mysql.c:1799-1807 | a linked item whose key was overwritten is taken out by node and put back by its new key; the others stay in order |
| TreeClients.RunAndFind | bot/src/mysql.c:1872-1882 | after any run of additions with fresh keys, removals by node, re-keyings and batched rebalancing, a search agrees with a finite map |
| TreeClients.RebalanceAndFind | bot/src/balanced_btree.c:285-320 | in a tree of n entries just rebalanced a search takes at most as many comparisons as n has binary digits, and finds what a look at every entry would |
| FlushLoops.ServerFlushUnvisited | bot/src/main.c:714-742 | one pass starts the new enabled servers before the first unvisited one, removes that one and stops |
| FlushLoops.OnePass | bot/src/main.c:714-742 | a pass takes one unvisited node and what it starts out of what is left to do, and leaves the rest |
| FlushLoops.MainSighup | bot/src/main.c:656-684 | the loop ends after one pass for each unvisited server and one more, keeps the visited ones in order, and starts each visited new enabled server once |
| PluginLoops.PluginUnvisitTree | bot/src/plugin_api.c:121-135 | no plugin of the tree is left marked as visited |
| PluginLoops.PluginFlushUnvisited | bot/src/plugin_api.c:137-174 | a pass removes exactly the first unvisited plugin in order, and tells whether there was one |
| PluginLoops.FlushAll | bot/src/plugin_api.c:107-118 | the loop ends after one pass for each unvisited plugin and one more, with the visited ones in order and the tree balanced |
| LinkedLists.LinkedList.Add | bot/src/linked_list.c:97-154 | inserts at the head or the tail of the sequence, with both directions of links consistent |
| LinkedLists.LinkedList.Remove | bot/src/linked_list.c:156-202 | deletes the item from the sequence; an item of another list stays put |
| Transmit.FloodCleanup | bot/src/transmit.c:300-325 | deleting while it walks, leaves exactly the entries that have not expired, in order |
| Transmit.FloodSize | bot/src/transmit.c:253-269 | adds up the bytes of the list |
| Transmit.FloodReady | bot/src/transmit.c:271-298 | the loop computes the wake time of the entry that brings the bytes to what is needed |
| Transmit.ReadyIsFirst | bot/src/transmit.c:284-293 | in wake order that is the least time at which enough has expired |
| Transmit.ReadyExact | bot/src/transmit.c:284-293 | it is the least time for every need if and only if the list is in wake order |
| Transmit.ReadyMisjudges | bot/src/transmit.c:182-183 | two lines of different length for which waiting as told frees too little |
| Transmit.RunMisjudges | bot/src/transmit.c:153-189 | a paced run of three lines, of which the last goes out after the wait that the list calls for and breaks the limit |
| Transmit.RoomOnceReady | bot/src/transmit.c:153-169 | once the clock reaches that time, unexpired bytes and the line stay below the limit |
| Transmit.SendsInWindowAsLoaded | bot/src/mysql.c:1565-1571 | the bound on the sends within a window holds whatever limits the database gives, since they are clamped |
| Transmit.BetweenTwoSends | bot/src/transmit.c:85-96 | the penalties of the sends strictly between two sends total at most the time between the two plus the credit |
| Transmit.SendsInWindow | bot/src/transmit.c:85-96 | at most 2 + (W + floodMaxTime) / floodInterval sends within W seconds |
| Transmit.Server.SendLine | bot/src/transmit.c:79-189 | one line: paced, held until it fits in wake order, sent, and written down with its penalty; held no longer than the pacing asks for and the flood list says |
| Transmit.Server.TransmitThread | bot/src/transmit.c:79-199 | every run sends the lines in order and is paced; when no line takes a smaller penalty than one before it, unexpired bytes and line stay below the limit at every send that can fit at all |
| BoundedQueues.RoundUp | bot/src/queue.c:67-82 | the least power of two that is no smaller, and 2^31 beyond that |
| BoundedQueues.QueueCreate | bot/src/queue.c:55-125 | no queue for no elements, and otherwise an empty one whose size is the number rounded up, at most 2^31 |
| BoundedQueues.Queue.ConditionUpdate | bot/src/queue.c:174-219 | the flags agree with the contents under mask arithmetic; a condition is signalled exactly when its flag is cleared |
| BoundedQueues.Queue.Insert | bot/src/queue.c:151-170 | appends to the contents, for every size but 1, where the item is lost |
| BoundedQueues.Queue.Take | bot/src/queue.c:292-312 | takes the first of the contents |
| BoundedQueues.Queue.Clear | bot/src/queue.c:315-348 | empties the queue; in a table with no stale slots exactly the contents are freed, each once |
| BoundedQueues.QueueUsed | bot/src/queue.c:351-362 | is the number of items, and 0 without a queue |
| BoundedQueues.CollectedIsRow | bot/src/queue.c:325-337 | going through the table slot by slot meets the contents, in two stretches where they go round the end |
| Bits.AndMask | bot/src/queue.c:158-159 | masking with one less than a power of two is the remainder |
| QueueProtocol.EveryRun | bot/src/queue.c:128-312 | over every interleaving, of a queue that heeds an abort as of one that does not: items put in are those gone out followed by those there, in order; never too many; never items with every consumer asleep, nor room with every producer asleep |
| QueueProtocol.OneNeverStalls | bot/src/queue.c:208-218 | a single consumer sleeps only on an empty queue, and a single producer only on a full one |
| QueueProtocol.StallsExactly | bot/src/queue.c:214-218 | some run without an abort leaves an item, a sleeping consumer and no consumer about to look, if and only if there are two consumers and two places |
| QueueProtocol.SticksExactly | bot/src/queue.c:208-212 | the same for producers and room |
| QueueProtocol.ExpiredMissesItem | bot/src/queue.c:284-290 | a timed-out consumer goes away without the item that is there, and changes nothing |
| QueueProtocol.MissesExactly | bot/src/queue.c:284-290 | some run lets a timed-out consumer leave items behind if and only if there are a consumer and a producer |
| QueueProtocol.MissesInRun | bot/src/queue.c:284-290 | over a run, what a timed-out consumer leaves behind is just what lay there at its time-out or came later and has not gone since; it leaves nothing if and only if all of that has gone |
| QueueProtocol.DeadlineRight | bot/src/queue.c:242-249 | the deadline names the moment asked for, whether well formed or not |
| QueueProtocol.DeadlineProper | bot/src/queue.c:242-249 | it is well formed whatever the clock says if and only if whole seconds are asked for |
| QueueProtocol.DeadlineMalformed | bot/src/queue.c:246-248 | in the last microsecond of a second any other time, one millisecond among them, gives a malformed deadline |
| QueueProtocol.SpinsForever | bot/src/queue.c:259-282 | once a consumer's wait is refused it keeps the mutex: over every run from there, until an abort that is heeded, nothing goes in or out and no thread moves |
| QueueProtocol.SpinsExactly | bot/src/queue.c:242-282 | some run comes to that if and only if there is a consumer and its time limit is not a whole number of seconds |
| QueueProtocol.SharedQueue.ProducerTurn | bot/src/queue.c:133-170 | an enqueue on the ring, from the mutex to letting it go or waiting, is the step of the protocol |
| QueueProtocol.SharedQueue.ConsumerTurn | bot/src/queue.c:238-312 | the same for a dequeue |
| QueueProtocol.SharedQueue.ClearTurn | bot/src/queue.c:315-348 | the same for a clear |
| QueueProtocol.EnqueueTurn | bot/src/queue.c:128-170 | the turn of a producer that has come, or is back from its wait, puts its item behind the others and lets it go, or sends it to sleep if there is no room |
| QueueProtocol.DequeueTurn | bot/src/queue.c:221-312 | the turn of such a consumer takes the first item, or sends it to sleep if there is none |
| QueueProtocol.SharedQueue.Execute | bot/src/queue.c:128-348 | whatever turns the threads take on the ring, in any order: each one that the protocol allows is taken as the one step that it is, and the others change nothing; so the turns are a run of the protocol, and what was put in has gone out in order up to what the ring holds |
| JsonGrammar.ReadsExactly | bot/src/cjson/cJSON.c:250-396 | a text is read as a value with something left behind if and only if it is a text by a grammar, given apart from the parser, which means that value: that of RFC 4627, but for fractions, exponents, wide numbers and escapes by code, and beyond it control characters as blanks, other letters behind a backslash, strings left open, one zero ahead and a minus sign alone |
| JsonGrammar.DocumentExactly | bot/src/cjson/cJSON.c:236-243 | the same of a whole document, which may begin with blanks |
| JsonGrammar.ValueReads | bot/src/cjson/cJSON.c:250-396 | so every text by the grammar of RFC 4627, with these exceptions, is parsed as what the grammar says it means, whatever its blanks and escapes |
| JsonGrammar.UnitsRead | bot/src/cjson/cJSON.c:139-184 | every escape letter of section 2.5, the slash included, is read as its code point, and any other character as itself, up to the closing quote or what else ends a string |
| JsonGrammar.DocumentReads | bot/src/cjson/cJSON.c:236-243 | a value between blanks is parsed as what it means, and what is behind stays unread |
| JsonGrammar.TakesMore | bot/src/cjson/cJSON.c:92-98 | a text that is read as a value and is not by the grammar |
| JsonPrinting.PrintsByGrammar | bot/src/cjson/cJSON.c:115-453 | what is printed for a value, in either layout and at any depth, is a text by the grammar and means the value without its dropped characters |
| JsonPrinting.UnformattedIsTight | bot/src/cjson/cJSON.c:336-453 | without formatting that text has no blank outside its strings |
| JsonPrinting.DroppedExactly | bot/src/cjson/cJSON.c:193-214 | the characters dropped from a string are the control characters other than backspace, tab, line feed, form feed and carriage return |
| JsonPrinting.RoundTrip | bot/src/cjson/cJSON.c:92-453 | for every value, depth and layout, parsing the printed text gives the value without dropped characters, and so the value itself if and only if it has none |
| JsonPrinting.ValueBack | bot/src/cjson/cJSON.c:250-281 | the same with anything behind that does not go on with a number, which stays unread |
| JsonText.StripPrintsSame | bot/src/cjson/cJSON.c:187-220 | printing again what was parsed gives the same text |
| JsonCode.PrintString | bot/src/cjson/cJSON.c:187-220 | both passes: the room counted first is enough at every write, and the text is the quoted string |
| JsonCode.PrintNumber | bot/src/cjson/cJSON.c:115-123 | 21 characters are enough |
| JsonCode.EstimateEnough | bot/src/cjson/cJSON.c:191-195 | the length counted for a string is never less than what is written with its terminator |
| JsonCode.ComposeArray | bot/src/cjson/cJSON.c:336-359 | with the room estimated for an array no write goes beyond the buffer, and the text is the printed array |
| JsonCode.ComposeObject | bot/src/cjson/cJSON.c:424-453 | the same for an object, at every depth and in both layouts |
| JsonCode.PrintValue | bot/src/cjson/cJSON.c:265-281 | the printer as a whole gives the text of the value |
| JsonCode.ReadString | bot/src/cjson/cJSON.c:139-184 | two passes over the text: as many characters are written as were counted |
| JsonCode.ReadNumber | bot/src/cjson/cJSON.c:92-112 | the loop over digits reads the number that they spell |
| JsonCode.ReadItems | bot/src/cjson/cJSON.c:283-308 | the loop that hangs one item after another gives the chain of all items |
| JsonCode.ReadMembers | bot/src/cjson/cJSON.c:362-396 | the same for names and values |
| JsonCode.ParseText | bot/src/cjson/cJSON.c:236-243 | the parser as a whole gives what the text means, or how it fails |
| JsonCode.PrintAndParse | bot/src/cjson/cJSON.c:236-247 | printing and parsing with buffers and pointers completes the round trip |
| Md5.PaddedWhole | webservice/mongoose/mongoose.c:2140-2168 | the padding brings the message to whole blocks with fewer than 64 zeros, ending 8 bytes short before the length |
| Md5.FoldOn | webservice/mongoose/mongoose.c:2086-2129 | folding in two parts, with the unfinished block carried over, is folding the whole |
| Md5.CountOn | webservice/mongoose/mongoose.c:2090-2095 | the two-word counter with its carry counts bits modulo 2^64 |
| Md5.Context.Update | webservice/mongoose/mongoose.c:2086-2129 | takes in more of the message, for every split |
| Md5.LastWords | webservice/mongoose/mongoose.c:2166-2168 | words 14 and 15 of the last block are the low and the high word of the length |
| Md5.PaddedAt | webservice/mongoose/mongoose.c:2134-2168 | byte by byte, behind the message: 0x80, zeros, and the number of its bits, lowest byte first, in the last eight |
| Md5.WordAt | webservice/mongoose/mongoose.c:1946-1961 | each word of a block is four of its bytes, the lowest first |
| Md5.InitialBytes | webservice/mongoose/mongoose.c:1980-1990 | the state starts as the bytes 01 23 45 67 89 ab cd ef fe dc ba 98 76 54 32 10 of section 3.3 of RFC 1321 |
| Md5.HashByteAt | webservice/mongoose/mongoose.c:2170-2173 | byte 4 i + k of the digest is byte k, from the lowest, of word i of the final state (section 3.5 of RFC 1321) |
| Md5.Context.Final | webservice/mongoose/mongoose.c:2134-2174 | gives the digest of the padded message, and wipes only two words of the state |
| Md5.MgMd5 | webservice/mongoose/mongoose.c:2198-2214 | the digest of several strings is that of their concatenation, in hexadecimal |
| Md5.HexAt | webservice/mongoose/mongoose.c:2183-2191 | each byte of the digest is written as its two hexadecimal digits, in lower case, the higher first |
| UrlCodec.EscapeMeans | webservice/mongoose/mongoose.c:1555-1563 | a percent sign and two hexadecimal digits, each in either case, are decoded as the byte that they spell (section 2.1 of RFC 3986) |
| UrlCodec.PlainMeans | webservice/mongoose/mongoose.c:1564-1570 | every other byte is decoded as itself, but for a plus sign in form data, which is a blank; so is a percent sign with no two digits behind it |
| UrlCodec.SafeExactly | webservice/mongoose/mongoose.c:2520-2528 | letters, digits and - . _ ~ $ ( ) , ; and no others are left unescaped |
| UrlCodec.EncodeMeans | webservice/mongoose/mongoose.c:2520-2540 | every other byte is written as a percent sign and the two digits of its value |
| UrlCodec.DecodeEncode | webservice/mongoose/mongoose.c:1548-1574 | decoding what was encoded gives it back, as far as there is room, with either form flag |
| UrlCodec.UrlEncode | webservice/mongoose/mongoose.c:2520-2540 | the buffer holds as much of the encoding as there is room for: that of a prefix of the source, and then what is left over; it holds the encoding if and only if that is shorter than the buffer |
| UrlCodec.UrlDecode | webservice/mongoose/mongoose.c:1548-1574 | gives the decoded bytes and a terminator, also when source and destination are one buffer; reads what lies behind the source exactly as far as an escape reaches there |
| UrlCodec.WithinExactly | webservice/mongoose/mongoose.c:1556-1562 | every source with some byte behind it is decoded as if it ended there if and only if that byte is no hexadecimal digit |
| UrlCodec.CutEscape | webservice/mongoose/mongoose.c:1556-1562 | a source ending in an escape cut short is decoded with the digit behind it |
| WorkerPool.EveryRun | webservice/mongoose/mongoose.c:4472-4588 | sockets go out once each in order, at most 20 wait, and 0 <= num_idle <= num_threads <= max_threads with both counters true |
| WorkerPool.AttendedExactly | webservice/mongoose/mongoose.c:4577-4587 | over any run no socket is left without a worker that will look for it if and only if each is queued while some worker is not on its way out or one can be started |
| WorkerPool.StepAttends | webservice/mongoose/mongoose.c:4472-4588 | one step breaks that only by queueing a socket unheeded |
| WorkerPool.Stranded | webservice/mongoose/mongoose.c:4480-4493 | a run that leaves a socket in the queue and no worker at all |
| WorkerPool.Context.PutSocket | webservice/mongoose/mongoose.c:4561-4588 | queueing on the ring is the step of the pool, and starts a worker exactly when none is counted as idle and there may be more |
| WorkerPool.Context.GetSocket | webservice/mongoose/mongoose.c:4472-4515 | looking for a socket on the ring is the step of the pool; both positions stay within bounds across the wrap |
| WorkerPool.AcceptTurn | webservice/mongoose/mongoose.c:4561-4588 | an accepted socket goes behind the others if fewer than 20 wait, with a new worker exactly when one is to be started and can be; otherwise the master waits |
| WorkerPool.LookTurn | webservice/mongoose/mongoose.c:4472-4515 | a worker that looks takes the first socket, or waits if there is none |
| WorkerPool.Context.Execute | webservice/mongoose/mongoose.c:4472-4588 | whatever turns master and workers take on the ring, in any order: each one that the pool allows is taken as the one step that it is, and the others change nothing; so the turns are a run of the pool, sockets go out in order and both counters stay true |
| Authenticate.PlainReply | bot/src/authenticate.c:141-176 | a reply without a colon answers a record if and only if it unlocks it as words or in hexadecimal |
| Authenticate.PrefixedReply | bot/src/authenticate.c:69-180 | a reply with a colon answers it if and only if what stands before the first colon is word or hex and the rest unlocks it so; or nothing stands there and an empty reply would |
| Authenticate.HexReply | bot/src/authenticate.c:141-176 | so the hexadecimal text of a key that unlocks the record is accepted, with its prefix and, if there is no colon in it, without |
| Authenticate.WordReply | bot/src/authenticate.c:141-176 | and so are its words |
| Authenticate.AlgorithmExactly | bot/src/authenticate.c:126-135 | the hash functions that a record may name are sha1, md4 and md5, in either case |
| Authenticate.SameLetter | bot/src/authenticate.c:126-131 | in such comparisons two letters are the same in either case, and all else only as it is |
| Authenticate.FindKey | bot/src/authenticate.c:140-176 | a reply is accepted exactly when one of the keys that it may mean hashes to the last one |
| Authenticate.Session.Check | bot/src/authenticate.c:115-252 | finds a key exactly when the reply answers the record of the session, and then one that unlocks it |
| Authenticate.Session.Verify | bot/src/authenticate.c:102-269 | when nothing else reaches the database meanwhile: accepted exactly when the reply answers an unchanged record; then the key is stored and the count drops by one; otherwise nothing changes |
| Authenticate.Replies | bot/src/authenticate.c:102-269 | over any run of replies to any sessions of a user, each dealt with before the next reaches the database: after k acceptances hashing the stored key k times gives the first key, and the count has dropped by k |
| AuthQueries.ChainExactly | bot/src/mysql.c:1090-1160 | over any run of sessions, replies and queries in whatever order, that holds of the last accepted record if and only if each acceptance rests on a record read after the updates of all before it; with no update on its way that record is the stored one |
| AuthQueries.DeepExactly | bot/src/authenticate.c:102-289 | the count alone tells: it has dropped by the number of acceptances if and only if each was made on top of all before it |
| AuthQueries.AcceptedTwice | bot/src/mysql.c:1334-1372 | a run in which one reply is accepted in two sessions, the count drops by one, and the stored key does not hash back twice |
| AuthQueries.RunKeepsSound | bot/src/mysql.c:1090-1160 | over any run the stored record is that of the last update applied, the updates on their way are the later acceptances in order, and each acceptance is one step down the chain from the record that its session was told |
| Authenticate.Sweep | bot/src/authenticate.c:319-344 | deleting while it walks, takes exactly the ended and timed-out sessions and leaves the others as they are, in order |
| Authenticate.Check | bot/src/authenticate.c:354-377 | true exactly when the first session of the user is accepted |
| Authenticate.Answer | bot/src/authenticate.c:422-455 | the state machine, with no sweep in between: accepted only from the challenge by a good reply, and ended states stay |
| Authenticate.Begin | bot/src/authenticate.c:407-420 | a user without a session gets one at the head of the list, with the challenge of the record, if there is one; nothing else changes, and there is never a second session of one user |
| Authenticate.Hear | bot/src/authenticate.c:387-455 | a message goes to the first session of its user, which answers it, and no other session or record changes; without one it begins a session |
| Authenticate.Run | bot/src/authenticate.c:298-455 | over any run in which no sweep falls within a message, every message and every sweep does exactly what the state machine and the sweep of that moment should |
| Authenticate.EndedStay | bot/src/authenticate.c:298-455 | over such a run a session that has ended stays just as it is until the next sweep, which takes it away for good |
| Authenticate.AcceptedWasRight | bot/src/authenticate.c:422-433 | whoever is accepted was so from the start or has given a right reply to the challenge of this session |
| Authenticate.RightIsAccepted | bot/src/authenticate.c:422-433 | every right reply is accepted, for half an hour |
| SessionRaces.RevivesExactly | bot/src/authenticate.c:319-455 | over all interleavings of a session's messages with the sweep: some ended session goes on by a time limit if and only if the sweep may mark while a reply is verified and the limit is not before the deadline |
| SessionRaces.Revived | bot/src/authenticate.c:422-426 | a run in which a session that has timed out is accepted and stays on the list |
| SessionRaces.FreesExactly | bot/src/authenticate.c:325-340 | a session can be freed in use by a time limit if and only if the sweep may test it at some point of a message where it may have ended, and that point can be met in time |
| SessionRaces.MutexExactly | bot/src/authenticate.c:387-455 | with the sweep kept away but at some points of a message, no session is ever freed in use if and only if there is no message at those points |
| SessionRaces.TakenDownInUse | bot/src/authenticate.c:429-432 | for every new session a run, without waiting for its deadline, in which it is taken down while its rejection is being written |
| SessionRaces.MessageAlone | bot/src/authenticate.c:422-433 | without the sweep in between, a reply leaves the session as judged, with the time that goes with it |
| SessionRaces.SweepAlone | bot/src/authenticate.c:325-343 | without a message in between, the sweep takes a session down exactly when it has ended or its time is up |

## Left out

- Locks as objects, sockets, files, the database itself, curses, plugins as shared objects, the PHP and JavaScript pages and the opie programs: foreign calls with nothing to prove here.
- Memory allocation is taken to succeed; clocks never run backwards and sleeps are never cut short.
- `BalancedBTree.BTree.Remove`: an item that was dropped for an equal key is the subject of `BalancedBTree.BTree.RemoveDropped`, for as long as the parent that it names is in the tree.
- `BalancedBTree.BTree.Add`: keys are compared by any total preorder; the null-tree arguments and the second locking on the null item with UNLOCKED are not modelled.
- `QueueRemoveItem` and `QueueDestroy` (bot/src/queue.c:364-466): the first uses head and tail in the opposite sense and has no caller, the second only frees.
- A consumer that puts something on its own queue and so blocks as a producer (bot/src/mysql.c:1240-1371).
- `QueueProtocol.EveryRun`: the mutex is taken to exclude and a signal to wake at least one sleeper; wake-ups without a signal and time-outs may happen at any moment.
- `QueueProtocol.SpinsExactly`: a wait with a malformed deadline is taken to be refused before it lets go of the mutex, as POSIX has it (pthread_cond_timedwait); one time limit for all consumers.
- `Transmit.Server.TransmitThread`: the limits are fixed for the run, the abort flag is not raised, messages that cannot be formatted are not modelled, and the bytes of the lines are represented by their lengths.
- `JsonPrinting.RoundTrip`: fractions, exponents, numbers beyond 32 bits and `\u` escapes are recognised and set aside as `Beyond`; references and members without a name are not modelled.
- `JsonCode.ReadItems`: the children of a value are a chain of values, so that the prev and next links among the items of one level are not modelled.
- `JsonCode.ReadMembers`: the same of the members of an object.
- `Md5.MgMd5`: the block function is a parameter, and the bytes are those of a little-endian machine; single strings are shorter than 2^32 bytes.
- `UrlCodec.UrlDecode`: the source lies in memory that reaches as far as the code reads, which is one byte behind it or two.
- `WorkerPool.EveryRun`: one master thread; what a worker does with its socket is not modelled.
- `Authenticate.Session.Check`: replies that carry a new challenge (init-hex and init-word) are excluded; the word and hexadecimal formats and the hash are parameters.
- `Authenticate.Replies`: each reply is dealt with before the next one; `AuthQueries.ChainExactly` is about replies and queries in any order.
- `Authenticate.Session.Verify`: one reply at a time, with the record stored at once; `AuthQueries.ChainExactly` is about replies and queries in any order.
- `Authenticate.Answer`: no sweep in between; `SessionRaces.RevivesExactly` is about their steps in any order.
- `Authenticate.Run`: messages and sweeps one at a time; `SessionRaces.RevivesExactly` is about their steps in any order.
- `AuthQueries.ChainExactly`: the queries of one user's record only; nobody else writes or deletes it, so that the update finds its row. The program queues a pointer to the session (bot/src/mysql.c:717-728, bot/src/mysql.c:1140-1148) and reads its fields only when the select is answered (bot/src/mysql.c:1343-1363), by when the sweep may have freed it; the model queues the record.
- `SessionRaces.RevivesExactly`: one session, and the messages of its user one after another, as the thread of one server delivers them; what becomes of memory after it is freed in use is not modelled. A reading of several fields in one test is one step.
- The buffer accounting of the query builder and the schema upgrade loop (bot/src/mysql.c:446-587, bot/src/mysql_upgrade.c) depend on the order in which the database answers.
