# DSM allocator protocol engine

The allocator is the central process of a distributed shared memory system, and this project models its protocol engine. The allocator:
- registers the node processes that connect to it;
- routes each request a node sends to a handler;
- hands out shared memory;
- runs the barrier and broadcast rendezvous;
- relays page faults to the node that owns the page.

The repository holds several partly finished versions of this engine. Each one has its own module here. A small binary wire codec carries the messages of the typed version.

- `Common`: shared vocabulary. This is bytes and signed chars, substring search (`strstr`), and totals over per-node message streams.
- `Protocol`: the message record of `include/sm_message.h`, the fourteen type codes, the body formats, and the constants of `include/config.h`: 1024-byte pages, 1000 pages and 16 node slots.
- `Codec`: the `sm_send`/`sm_recv` loops of `src/sm_message.c`. A message is a 3-byte header `{type, len, nid}` followed by `len - 3` body bytes. The loops stop once the whole message has moved, however the socket splits the transfer.
- `TextEngine`: the textual version in `bin/allocator.c`, over the `allocator_t` record of `Code/allocator.h`. Its state is the class `Allocator`:
  - the socket slot table and the running-node count;
  - the page list with first-fit sub-page allocations;
  - the FIFO of requests set aside while a page owner's reply is awaited.
- `TypedEngine`: the typed-message version in `src/allocator.c` and `src/node_functions.c`, over the globals of `include/config.h`. Its state is the class `SmAllocator`:
  - the page table, as an array of `SM_MAX_PAGES` entries;
  - the `SM_MAX_NODES` socket slots, as an array;
  - the node count;
  - the bump pointer.
- `Registry`: the earliest version in `Code/allocator.c`. Its state is the class `NodeTable`, the `node_list` of registered nodes. Its requests are `init` and `close nid=<n>`, each arriving on a fresh connection.

How sockets are represented:
- Each node's connection is the sequence of messages the node has still to send (`inbox`, indexed by slot).
- Every `send` of the allocator is appended to `outbox`, tagged with the slot it went to.
- `select` is an input: each serving round is given the set of ready slots.
- `accept` is an input: the sequence of values it returned.
- The page size of the textual version (`getpagesize()`) is a constructor parameter, and so is the length of its page list.

How the textual version is modelled:
- A text request carries the fields its handler's `sscanf` format would extract (size, root, cast address, fault kind and offset). They are given values.
- A cast address is an opaque integer.

How nested requests are handled. While a rendezvous waits, both engines execute the other requests it reads. A close, an allocate or a fault is handled normally. A barrier or cast met inside a wait is refused with `NestedCollective`, because collectives do not nest in the model. This keeps the dispatch free of mutual recursion, and every wait loop ends because it consumes input.

Ghost state records what each engine read and what it handed to its handlers:
- In `TextEngine`, `streams` holds everything each node sends over its connection after its init message. The init message itself reaches the model as `firsts`, an input of `AcceptAll` and `Run`. `Pos(j)` is how many of node `j`'s messages have been read. `dispatched` logs every request handed to a handler, in order.
- In `TypedEngine`, `executed` logs every message handed to the router, and `grants` logs the regions handed out.
- The typed serving loop records each message it reads with its slot, its position on that slot's connection as the loop found it, and its handler's status, and it records the slots of each round. Between two points of the loop a connection only loses messages off its front (`Shrunk`), and a socket slot only keeps its value or becomes 0 (`OnlyClosed`).

The rendezvous, drain and serving contracts are stated over these logs and the connections. They say which positions of which stream were read, and which segment of the log each request begins.

## Model

| member | source | states |
|---|---|---|
| Common.SignedChar | include/sm_message.h:8-10 | a header byte read as a `char` lies in -128..127 and is congruent to the byte modulo 256 |
| Common.CharByte | include/sm_message.h:10 | the byte a signed value occupies reads back as that value, so the allocator's nid -1 survives the wire |
| Common.ContainsAt | bin/allocator.c:104-117 | `strstr(s, k) != NULL` holds exactly when some position of `s` starts a copy of `k` |
| Common.SegmentsGrow | bin/allocator.c:156-171 | reading one more message at position `p` of a fixed stream appends it as the next segment head of what was read, even when other readers took the positions after it |
| Protocol.ReplyType | include/sm_message.h:22-35 | the reply to a request code is a code of the table, is not a request, is odd and is the request code plus one |
| Protocol.CodeTable | include/sm_message.h:22-35 | there are fourteen codes, code k is k, and the request codes are exactly the even ones |
| Protocol.Make | include/sm_message.h:7-12 | the built message carries the given type, nid and body, and its `len` counts header and body and fits a signed char |
| Protocol.Reply | include/sm_message.h:10 | a message from the allocator is well formed and carries sender nid -1 |
| Protocol.ToByte | src/node_functions.c:140 | storing an int in a `char` body field keeps it modulo 256 |
| Protocol.BodyFormatsRoundTrip | include/sm_message.h:22-31 | the fields read back from ALOC and CAST bodies are the ones they were built from; a body too short for them reads as missing; INIT, EXIT and BARR messages are header only |
| Codec.Encode | include/sm_message.h:3-12 | a message's buffer is `len` bytes: type, len and nid in that order, then the body |
| Codec.BodyLength | src/sm_message.c:43 | the body `sm_recv` reads is `len - HEADER_LEN` bytes for a `len` of at least the header, none for a smaller or negative `len`, and never more than 124 |
| Codec.FullBufferAnnouncesNoBody | src/sm_message.c:13-47 | a buffer of `SM_MSG_MAX` bytes stores -128 in its `len` char, so it announces no body |
| Codec.Decode | src/sm_message.c:26-50 | a message is received exactly when the header and the body its `len` announces are on the stream; its type, len and nid are bytes 0, 1 and 2 read as signed chars; its body is the next `BodyLength(len)` bytes; an empty stream is a peer close and any other short stream is truncated |
| Codec.RoundTrip | src/sm_message.c:13-50 | decoding what was encoded gives back the same message and consumes exactly its `len` bytes, whatever follows on the stream |
| Codec.BodyFieldsOnTheWire | src/sm_message.c:13-50 | the size of an ALOC and the root and value of a CAST that a node sends are the ones the allocator reads off the wire |
| Codec.DecodeThenEncode | src/sm_message.c:37-47 | a decoded message whose header length is at least 3 re-encodes to exactly the bytes it was read from |
| Codec.Send | src/sm_message.c:13-21 | the result is 0 exactly when all `len` bytes went out; what went out is always a prefix of the buffer in order; every call making progress gives 0 |
| Codec.Recv | src/sm_message.c:26-50 | the received message is exactly Decode's, however `recv` splits the body; the only other outcome is a failed receive call |
| Codec.Transfer | src/sm_message.c:13-50 | a message sent over a connection that makes progress arrives unchanged, with exactly its bytes consumed |
| TextEngine.RouteIsFirstMatch | bin/allocator.c:100-124 | a request goes to the k-th handler exactly when it contains the k-th keyword and none before it, in the order close, barrier, allocate, cast, fault; it is invalid exactly when it contains none of them |
| TextEngine.EmptyIsInvalid | bin/allocator.c:63-67 | the zeroed buffer of a receive that got nothing is an invalid request |
| TextEngine.SumSizesStep | Code/allocator.h:19 | extending a prefix of allocations by one adds that allocation's size to the total |
| TextEngine.SumSizesMono | Code/allocator.h:19 | the totals of allocation prefixes grow with the prefix |
| TextEngine.StartsAtTotals | Code/allocator.h:11-14 | two allocations that start at their prefix totals do not overlap, and both lie below the total |
| TextEngine.PackedDisjoint | Code/allocator.h:17-26 | in a page whose allocations each start where the previous ones end, an earlier allocation ends at or before any later one starts |
| TextEngine.AllocationsDisjoint | Code/allocator.h:17-26 | no two allocations of a valid page overlap, and all of them lie within `allocated`, which is at most the page size |
| TextEngine.FirstFitFrom | bin/allocator.c:209-213 | a page found from index `i` on is in the list at or after `i` |
| TextEngine.FirstFit | bin/allocator.c:209-213 | a page found is in the list |
| TextEngine.FirstFitFromIsLowest | bin/allocator.c:209-225 | from index `i` on, a page is found exactly when some page has room, and the one found is the lowest with room |
| TextEngine.FirstFitIsLowest | bin/allocator.c:209-225 | no page is found exactly when none has `allocated + size <= pagesize`; otherwise the lowest-indexed page with room is chosen |
| TextEngine.PackedSnoc | bin/allocator.c:218-222 | appending an allocation at the old `allocated` keeps the page packed and grows the total by its size |
| TextEngine.GrantKeepsPage | bin/allocator.c:213-222 | a grant on a page with room keeps the page invariant; `allocated` stays within the page; the writer becomes the node, which is also marked a reader |
| TextEngine.AllocationAddress | bin/allocator.c:228 | every byte of an allocation on page `i` has a global offset whose page index is `i` |
| TextEngine.DivOfPageStart | bin/allocator.c:274 | an offset inside page `i` divides back to page `i` |
| TextEngine.CDiv | bin/allocator.c:274 | C's `/` leaves a remainder `a - q*b` in `[0, b)` for a non-negative `a` and in `(-b, 0]` for a negative one |
| TextEngine.FirstPage | bin/allocator.c:298-311 | the index found is the first message holding "page: ", with none before it; no index means no message holds it |
| TextEngine.FirstPageAt | bin/allocator.c:298-311 | a message holding "page: " with none before it is the one the fault handler stops at |
| TextEngine.LocalFollows | bin/allocator.c:100-124 | a handler run inside a wait that does what its handler does reads no message twice, sends only point-to-point replies, and leaves the log extended by its own request |
| TextEngine.WaitedForMeans | bin/allocator.c:151-172 | after a wait nothing was read from the initiator, and every other node's messages end at the first one holding the keyword |
| TextEngine.WaitLogStep | bin/allocator.c:151-171 | reading node `n` up to its keyword extends the wait by one node, and the log by that node's earlier messages, tagged with it, in order |
| TextEngine.CapturedStep | bin/allocator.c:164 | the root's keyword message supplies the cast address; any other node leaves the captured value alone |
| TextEngine.ReadFromStreamsStep | bin/allocator.c:151-171 | what node `i` delivered from its stream position on is recorded for it, and what was recorded for the nodes before it stays true |
| TextEngine.HeadsOfAt | bin/allocator.c:61-69 | the k-th request a round hands to the router is what the k-th slot served holds at the position it was read at, tagged with that slot |
| TextEngine.RoundServedStep | bin/allocator.c:61-69 | serving slot `i` at a position no earlier than its start-of-round position extends the round by that slot, which was not served before, and adds its request as the next head |
| TextEngine.AsWrittenDrainLosesRequests | bin/allocator.c:54-57 | with two different requests queued, a drain that executes only the head never executes the second one |
| TextEngine.Allocator.constructor | bin/allocator.c:325-338 | no node runs, every slot is 0, the queue is empty, every connection holds its node's whole stream, and every page lies at `i * pagesize` with nothing allocated, no writer and no reader |
| TextEngine.Allocator.Recv | bin/allocator.c:63-64 | a live connection yields its next request and loses it; a closed or exhausted one yields the zeroed buffer and changes nothing |
| TextEngine.Allocator.SendTo | bin/allocator.c:94 | only the outbox changes, with one message appended |
| TextEngine.Allocator.Enqueue | Code/allocator.h:43-44 | the request joins the tail of the queue |
| TextEngine.Allocator.Dequeue | Code/allocator.h:43-44 | the head of the queue is dropped |
| TextEngine.Allocator.Init | bin/allocator.c:79-97 | only the exact text "init" registers; it stores the socket at slot `n_nodes`, counts it, and replies with nid `n_nodes - 1` and the new count; any other text changes nothing |
| TextEngine.Allocator.Close | bin/allocator.c:127-141 | the close ACK goes to the node, only its slot becomes 0, and the count drops by one |
| TextEngine.Allocator.Allocate | bin/allocator.c:198-236 | the request is granted on the first page with room, at offset `page.offset + old allocated`; when no page has room the result is a failure and nothing changes |
| TextEngine.Allocator.RelayOne | bin/allocator.c:298-309 | one pass of the relay loop reads the writer's next message exactly when its socket is open and it has one; a "page: " reply is returned, and any other message joins the queue tail tagged with the writer |
| TextEngine.Allocator.RelayPage | bin/allocator.c:298-311 | the writer's messages before its "page: " reply are queued in order, tagged with its nid, and that reply is forwarded verbatim; without such a reply everything read is queued and the handler fails |
| TextEngine.Allocator.Fault | bin/allocator.c:265-318 | the page index is `offset / pagesize`; the page's writer is asked for it; the request is relayed as above; the page table is never touched, and each missing page, writer or connection is its own failure |
| TextEngine.Allocator.ExecuteLocal | bin/allocator.c:100-124 | a request executed inside a wait is logged and does exactly what its handler does; a collective is refused; text without a keyword is the invalid-message error |
| TextEngine.Allocator.AwaitOne | bin/allocator.c:157-170 | one pass of the wait's inner loop reads node `i`'s next message from its stream; a message holding the keyword is left unexecuted, and any other one is handed to the router |
| TextEngine.Allocator.AwaitNode | bin/allocator.c:156-171 | the messages read are the next ones of node `i`'s stream, in order, from where it stood; they run up to and including the first holding the keyword, and every one before it is handed to the router in receipt order |
| TextEngine.Allocator.WaitOn | bin/allocator.c:151-172 | one pass of the wait loop extends what is known of the wait: the initiator is skipped, another node is read from its stream up to its keyword, and in cast mode the root's message supplies the value |
| TextEngine.Allocator.Wait | bin/allocator.c:144-175 | the initiator is never read; every other node, in ascending order, is read from its own stream up to its keyword, and the messages before it are handed to the router in order; a value is captured only in cast mode and only from the root's message, and otherwise the initiator's own value is kept |
| TextEngine.Allocator.Release | bin/allocator.c:189-192 | one reply goes to every slot, in ascending order; nothing else changes |
| TextEngine.Allocator.Barrier | bin/allocator.c:177-195 | every other node is read up to its "barrier" message; only after that wait succeeds do the "barrier ACK"s go to every slot, initiator included; before that, and after a failed wait, only point-to-point replies are sent |
| TextEngine.Allocator.Cast | bin/allocator.c:238-263 | after a successful wait every slot receives the address from the root's "cast" message, or the initiator's own when the root is the initiator; a failed wait releases nothing |
| TextEngine.Allocator.Execute | bin/allocator.c:100-124 | the request is logged and reaches the handler of its first keyword, whose contract then holds; never more work remains than before |
| TextEngine.Allocator.Dispatch | bin/allocator.c:100-124 | the request is logged before anything its handler logs, never more work remains than before, and the effect and status are those `Execute` states for it |
| TextEngine.Allocator.DispatchLogged | bin/allocator.c:55 | a dispatched request begins the next segment of the log, with the effect and status `Execute` states for it |
| TextEngine.Allocator.Drain | bin/allocator.c:54-57 | the queue is executed head first; every request handed over begins its own segment of the log, and a drain that succeeds leaves the queue empty, with the requests it held at the start the first heads, in queue order; a drain that fails stops at the last head, whose handler gave that failure as `Execute` states |
| TextEngine.Allocator.DrainAsWritten | bin/allocator.c:54-57 | the drain as written begins every segment of the log with the head it bound first, one segment for each entry it dequeues |
| TextEngine.Allocator.ServeSlot | bin/allocator.c:63-68 | the request handed to the router is what slot `i`'s stream holds at its current position (the connection's head, or the zeroed buffer once it is empty), and nothing is logged before it; its effect and status are those `Execute` states for it, from the state just after the read |
| TextEngine.Allocator.ServeTurn | bin/allocator.c:61-69 | serving an open ready slot extends the round by that slot, its request and the log segment that request begins; the status is the one `Execute` states for that request |
| TextEngine.Allocator.ServeRound | bin/allocator.c:59-70 | the slots read are ready slots, each once, in ascending order, each from its own stream no earlier than where it stood; each read request begins its own segment of the log, in order; a round that does not fail reads every ready slot whose socket is open; a round that fails read at least one slot, and its failure is the status `Execute` states for the last request read (`FailedAt`) |
| TextEngine.Allocator.Serve | bin/allocator.c:39-71 | the serving loop finishes only once no node runs; a failure ends it with the status `Execute` states for the last request handed to the router, by a drain or by a round |
| TextEngine.Allocator.AcceptAll | bin/allocator.c:25-33 | it succeeds only once all `total_nodes` nodes run, with the sockets stored in arrival order; earlier slots are unchanged |
| TextEngine.Allocator.Run | bin/allocator.c:17-76 | the allocator finishes only once no node runs |
| TypedEngine.RouteTable | src/node_functions.c:44-70 | each request type has exactly one handler; READ and WRIT share the fault handler; INIT, every reply and every unknown code is an error |
| TypedEngine.Bump | src/node_functions.c:150-151 | with the carry, the bump pointer stays on a page at or after the old one, its offset stays below `SM_PAGESIZE`, and it advances by exactly `size` bytes |
| TypedEngine.BumpAsWritten | src/node_functions.c:150-151 | as written, the page never decreases and the offset stays below `SM_PAGESIZE` |
| TypedEngine.GrantsAsWritten | src/node_functions.c:136-151 | the as-written allocator hands out one region per request |
| TypedEngine.AsWrittenRun | src/node_functions.c:131-151 | as written, each ALOC request reads size 6, so until the offset wraps the k-th region starts 6k bytes on, on page 0 |
| TypedEngine.AsWrittenGrantsOverlap | src/node_functions.c:150-151 | 172 ALOC requests from a fresh allocator, each read as size 6: the 172nd region starts at byte 2, inside the first |
| TypedEngine.BumpKeepsDisjoint | src/node_functions.c:136-151 | with the carry, the region handed out at the bump pointer overlaps none handed out before, and all lie below the new pointer |
| TypedEngine.AsWrittenFieldsAreHeader | src/node_functions.c:131-160 | as written, the allocation size read is the header byte `SM_ALOC`, and the cast fields are the type and the length, whatever the node sent; the body-indexed reads return the real fields |
| TypedEngine.WaitAsWrittenMissesRequests | src/node_functions.c:87-89 | as written, neither a BARR nor a CAST request ends the wait for its own mode; the intended test ends it at both |
| TypedEngine.WaitedForMeans | src/node_functions.c:77-98 | after a wait nothing was read from the initiator, and every other node's messages end at the first one of the mode |
| TypedEngine.WaitStep | src/node_functions.c:77-98 | reading one more node up to its request of the mode extends the wait, logs its earlier messages in order, and takes the value from the root's request |
| TypedEngine.TurnStatuses | src/allocator.c:134-145 | a serving turn keeps every recorded handler result but the last Ok, and the last one is the turn's failure |
| TypedEngine.CapturedIsByte | src/node_functions.c:159-160 | a captured cast value is a byte |
| TypedEngine.SmAllocator.constructor | src/allocator.c:28-55 | every page has writer -1 and a zero read flag per node; the node slots are 0; the count and the bump pointer are 0 |
| TypedEngine.SmAllocator.Recv | src/node_functions.c:83 | a connection with a message left yields it and loses it; nothing else changes |
| TypedEngine.SmAllocator.SendTo | src/node_functions.c:23 | only the outbox changes, with one message appended |
| TypedEngine.SmAllocator.Init | src/node_functions.c:10-27 | the client is stored at slot `sm_node_count` before the check and no other slot changes; the first message is taken off that slot's connection and no other connection is read; only a first message of type INIT is counted and answered with INIT_REPLY, whose header carries the slot as the node's id; otherwise the result is a failure with the count and the outbox unchanged |
| TypedEngine.SmAllocator.InitValidatingFirst | src/allocator.c:154-169 | the first message is taken off slot `sm_node_count`'s connection and no other is read; one that is not INIT registers nothing and leaves every slot; a valid one is answered with INIT_REPLY naming slot `sm_node_count`, stored there and counted |
| TypedEngine.SmAllocator.Close | src/node_functions.c:30-41 | EXIT_REPLY goes to the node, only its slot becomes 0, and the count drops by one; the connections, the regions and the bump pointer are unchanged |
| TypedEngine.SmAllocator.Allocate | src/node_functions.c:121-154 | while pages remain, the current page's writer becomes the node, which is also marked a reader; the reply is the truncated global offset; the bump pointer advances by the size; the new region overlaps no earlier one |
| TypedEngine.SmAllocator.ExecuteLocal | src/node_functions.c:44-70 | a message executed inside a wait is logged and goes to its type's handler, and no connection is read; a close zeroes only the sender's slot and leaves the page table, the regions and the bump pointer; an allocate leaves the slots and the count; collectives, faults, unknown types and unknown senders fail without sending and leave the slots, the count, the page table, the regions and the bump pointer; slots are only ever zeroed |
| TypedEngine.SmAllocator.AwaitNode | src/node_functions.c:82-98 | only connection `i` is read, and what was read is exactly what it held at the front; it ends at the first message of the mode, and every one before it is executed in receipt order |
| TypedEngine.SmAllocator.WaitOn | src/node_functions.c:77-98 | one pass of the wait loop extends what is known of the wait by node `i`, from its own connection |
| TypedEngine.SmAllocator.Wait | src/node_functions.c:73-102 | what is read from each connection is what it held at the front; the initiator is not read; every other node is read up to its request of the mode, with the earlier messages executed in order; in cast mode the value is the root's request's |
| TypedEngine.SmAllocator.Release | src/node_functions.c:113-115 | one reply goes to every slot, in ascending order, and nothing else changes |
| TypedEngine.SmAllocator.Barrier | src/node_functions.c:105-118 | every other node is read from its connection up to its BARR; before the release only point replies are sent; only after a successful wait does BARR_REPLY go to every slot, and a failed wait releases nothing |
| TypedEngine.SmAllocator.Cast | src/node_functions.c:156-175 | every other node is read up to its CAST; after a successful wait every slot receives CAST_REPLY carrying the root's value from its CAST, or the initiator's own value when the root is the initiator; a failed wait releases nothing |
| TypedEngine.SmAllocator.Execute | src/allocator.c:185-202 | the message is logged and reaches its type's handler with the header's nid (`Handled`); only a barrier or a cast reads the connections, and then only off their fronts; a close zeroes only the sender's slot, answers `EXIT`, and leaves the page table, the regions and the bump pointer; an allocate leaves the slots and the count and has `Allocated`'s effect; barrier and cast have their handlers' effects (`Collective`), and a cast too short for its fields fails with `ShortBody`; fault and unknown types fail, and they and unknown senders leave the outbox, the slots, the count, the page table, the regions and the bump pointer; slots are only ever zeroed |
| TypedEngine.SmAllocator.ServeSlot | src/allocator.c:135-143 | an empty connection ends the round with `RecvFailed`, nothing read, nothing recorded and the slots unchanged; otherwise the message executed is the head of the slot's connection, recorded with its slot and its position since the loop began, and it has everything `Execute` states for it (`Handled`); its recorded status is the router's answer (fatal for an unknown sender, a fault or an unroutable type, Ok for a close, Ok or `ShortBody` for an allocate, `ShortBody` for a cast short of its fields), and it begins the next segment of the log |
| TypedEngine.SmAllocator.ServeReady | src/allocator.c:132-145 | the slots read are ready slots in ascending order, each read as ServeSlot states; a round that ends Ok leaves every ready slot it did not read closed; the round stops at the first failure at a ready slot `stop` (`StoppedAt`): either `stop` was read and the failure is its recorded status, or its socket is open with an empty connection and the failure is `RecvFailed`; every ready slot before `stop` was read or is closed |
| TypedEngine.SmAllocator.ServeTurn | src/allocator.c:134-144 | serving a ready, open slot extends the round by that slot and keeps every ready slot passed over closed, or ends the round at that slot with `StoppedAt`'s failure facts |
| TypedEngine.SmAllocator.Serve | src/allocator.c:119-146 | the serving loop finishes only once no node is counted and runs out of input only after every round; each round read ready slots in ascending order and left the ready slots it did not read closed; every message read is the one its slot's connection held at the recorded position, and has been taken off it; it begins its own segment of the log, and its status is the router's answer; every status before the last is Ok, and a failure ends the loop with that failure, at a ready slot of the round it stopped, as `StoppedAt` states |
| TypedEngine.SmAllocator.ServeRound | src/allocator.c:119-145 | one pass of the serving loop adds its round to what Serve states, or ends it with a partial round on a failure, stopped at a ready slot as `StoppedAt` states |
| TypedEngine.SmAllocator.AcceptAll | src/allocator.c:102-114 | it succeeds only once `n_nodes` nodes are counted, with the sockets stored in arrival order |
| TypedEngine.SmAllocator.Run | src/allocator.c:95-151 | the allocator finishes only once no node is counted |
| Registry.Decimal | Code/allocator.c:57-58 | `%d` of a non-negative number is a non-empty run of digits |
| Registry.DecimalRoundTrip | Code/allocator.c:57-58 | the digits written denote the number |
| Registry.DigitRun | Code/allocator.c:68 | `%d` reads the longest leading run of digits and stops at the first non-digit |
| Registry.DigitRunOf | Code/allocator.c:68 | a run of digits followed by a non-digit is read to its end and no further |
| Registry.ScanDecimal | Code/allocator.c:68 | a written number followed by a non-digit is scanned back as that number |
| Registry.SkipSpace | Code/allocator.c:68 | the format's space directive consumes a leading run of white space, possibly empty, and stops at the first other character |
| Registry.SkipSpaceOf | Code/allocator.c:68 | skipping white space passes over exactly a run of white space |
| Registry.ScanCloseNidRoundTrip | Code/allocator.c:68 | "close", any run of white space (possibly none), "nid=" and a number parse back to that number, whatever non-digit text follows |
| Registry.CloseSpellingCanonical | Code/allocator.c:68 | the request "close nid=<n>" names node `n` |
| Registry.CloseWithoutSpace | Code/allocator.c:68 | "closenid=<n>" also names node `n`, as the format's space matches no white space |
| Registry.InitReplyNamesNode | Code/allocator.c:57-58 | a node reading its reply after "nid: " recovers its nid |
| Registry.RouteMeans | Code/allocator.c:33-37 | only the exact text "init" registers; a text closes exactly when "close" occurs in it; everything else is ignored |
| Registry.AsWrittenRouteInverted | Code/allocator.c:35 | as written, "close nid=<n>" is ignored while "exit" takes the close branch; the intended test does the opposite |
| Registry.ResetSlotsAsWritten | Code/allocator.c:87-88 | the reset loop as written writes `n_proc + 1` slots |
| Registry.AsWrittenResetOverruns | Code/allocator.c:87-88 | the reset loop as written writes a slot at index `n_proc` or beyond, outside the `n_proc`-entry list |
| Registry.AsWrittenAckOverreads | Code/allocator.c:76 | every close request is longer than "ACK" and its terminator, so the byte count passed to `send` runs past the literal |
| Registry.Session | Code/allocator.c:21-45 | the loop over accepted connections ends well only once no node is counted, and it keeps every registered node in the slot of its nid |
| Registry.HandleKeepsTable | Code/allocator.c:33-37 | handling any request keeps every registered node in the slot of its nid |
| Registry.RegisterThenClose | Code/allocator.c:21-79 | a node that registers on an empty table and then closes itself ends the session: it is told nid 0 of 1 nodes, acknowledged, and its slot is empty again |
| Registry.NodeTable.constructor | Code/allocator.c:86-90 | every slot of the list is empty and no node is counted |
| Registry.NodeTable.Init | Code/allocator.c:47-62 | the new nid is the prior count; the node is stored in that slot only and counted; the reply names the nid and the new count; a full list is refused |
| Registry.NodeTable.Close | Code/allocator.c:64-79 | the nid parsed by "close nid=%d", whatever white space separates its words, loses its slot, and only that one; the count drops by one and "ACK" is sent; a request without a nid, or with one outside the list, is refused and changes nothing |
| Registry.NodeTable.Allocate | Code/allocator.c:21-45 | the outcome and the final table are those of handling the accepted connections one at a time, stopping at a failed `accept`, a refused request, or the first request after which no node is counted |

## Left out

- Socket creation, `bind`, `listen` and `accept`, process launching, the command line and the hostfile are OS I/O. Connections are per-node message streams, and `accept` and `select` are inputs.
- Log-file `fprintf` calls, the `mmap` page cache (src/allocator.c:52-54) and `allocator_end` only write logs, map memory or free memory. They have no protocol meaning.
- The textual `sscanf` formats are not parsed (except in `Registry`). The fields they extract are given values of a request, and `%p` addresses are opaque integers. Printed reply texts are reply constructors.
- `read()` in Code/allocator.c:31 does not terminate the buffer, and the buffer is the one `node_init` wrote the reply "nid: %d, nodes: %d\n" into (Code/allocator.c:57). A later request shorter than that reply keeps its tail: a second "init" reads as "init 0, nodes: 1\n" (with one node counted), fails the exact match and goes on to the close test. The model reads each request's own text.
- Nested collectives are refused. `node_wait` can run `node_execute`, which can start another barrier or cast and so call `node_wait` recursively. The model refuses a barrier or cast met inside a wait with `NestedCollective`.
- TextEngine.Allocator.Wait: at bin/allocator.c:159 a failed `recv` calls `fatal` without returning, and the loop then goes on with a zeroed buffer. The model ends the wait with `WaitFailed`.
- TextEngine.Allocator.AwaitNode: a fault handler run inside the wait may itself read from node `i` while relaying a page. Those reads are queued and are not part of `got`. The contract places `got` in order within the stream span the wait covered, its first message at the start and its last at the end, but does not say which positions between them the relay took.
- TextEngine.Allocator.Allocate: when no page fits, bin/allocator.c:209-228 goes on with the last page and an uninitialised allocation. The model returns the explicit failure `NoPageFits` and changes nothing.
- TextEngine.Allocator.Fault: a page index outside the page list fails with `BadFaultPage`, and a page without a writer fails with `NoWriter`. bin/allocator.c:274-280 indexes `page_list[page_n]` and then takes `c_sockets[page->writer]` without either check, so a page whose writer is -1 reads `c_sockets[-1]`.
- TextEngine.Allocator.ServeRound: a ready slot the round passed over is stated closed at the end of the round, not at the moment its turn came.
- TextEngine.Allocator.Serve: the contract states that the loop finishes once no node runs, and that a failure is the status the router gave the last request handed to it. What each drain and each round read and dispatched is stated by Drain and ServeRound, and is not carried up to the whole loop.
- Codec.Send: a negative `send` result makes `sent` decrease (src/sm_message.c:16-17), and a zero result repeats forever. The model treats a call returning 0 or less as a failed call, after which `sm_send` reports 1.
- Codec.Send: a message of exactly `SM_MSG_MAX` = 128 bytes stores -128 in its `char` length, so `sm_send` sends nothing and reports 1. The model's well-formed messages stop at 127 bytes, and `Codec.FullBufferAnnouncesNoBody` states the -128 length.
- Codec.Recv: a zero or negative body `recv` result loops forever or corrupts `recvd` (src/sm_message.c:43-47). The model reports such a call as `RecvFailed`. A stream that ends inside the header or inside the body is reported as `Truncated`, as Decode reports it, and an empty stream as `Closed`.
- Protocol.AllocSize and Protocol.CastFields read body bytes as unsigned values 0..255. In C a `char` body byte of 128 or more is negative; the model does not sign these fields.
- TypedEngine.SmAllocator.Allocate: the full-page branch at src/node_functions.c:125-127 is only comments. The model sends an empty ALOC_REPLY and changes nothing.
- TypedEngine.SmAllocator.Allocate: a request without a body byte fails with `ShortBody`. The source reads the byte without checking for it.
- TypedEngine.SmAllocator.Cast: a CAST without both body bytes fails with `ShortBody`. The source reads them without checking.
- TypedEngine.SmAllocator.Allocate: the reply's offset is truncated to one byte, as `char buffer[] = {offset}` does. The model does not widen it.
- TypedEngine.SmAllocator.Execute: a message whose header nid is not a slot fails with `UnknownNode`. The source indexes `client_sockets[nid]` and the page readers without a check (src/allocator.c:185-202, src/node_functions.c:44-70).
- TypedEngine.SmAllocator.InitValidatingFirst: src/allocator.c:162 passes the client socket as the nid argument of `sm_send`. The model's reply names the slot, as src/node_functions.c:23 does.
- TypedEngine.SmAllocator.Init: the INIT_REPLY header carries the slot as its nid, while the EXIT, ALOC and BARR replies carry -1 (src/node_functions.c:32,141,114, through `Protocol.Reply`). This breaks "allocator == -1" at include/sm_message.h:10 for INIT_REPLY alone. The node takes its id from that header (src/sm.c:185), which is why the model follows node_functions.c:23.
- TypedEngine.SmAllocator.AwaitNode: at src/node_functions.c:84 a failed `sm_recv` calls `sm_fatal` without returning, and the loop goes on. The model ends the wait with `RecvFailed`.
- TypedEngine.SmAllocator.ServeReady: a ready slot the round passed over is stated closed at the end of the round, not at the moment its turn came.
- TypedEngine.SmAllocator.Wait: the inner `while(1)` at src/node_functions.c:82-98 has no `break`, so as written the wait never ends. The model moves to the next node after the node's own request of the mode, where the source's comments say the wait should move on.
- TypedEngine.SmAllocator.Cast: src/node_functions.c:166-172 is leftover textual code that sends "address %p" and passes `&address`, an undeclared variable, to the wait. The model's cast sends CAST_REPLY with the root's value, or with the initiator's `value` byte when the root is the initiator.
- `handle_fault` in src/allocator.c and src/node_functions.c reads `page_list`, which the typed state does not have. The typed engine answers READ and WRIT with the failure `NoFaultHandler`. The fault relay is modelled in `TextEngine`.
- src/allocator.c:137-140 passes a raw buffer and a slot to a `node_execute` that takes a message. The model receives a typed message with `sm_recv` and routes it by the nid in its header.
- Several files do not compile (`bin/allocator.c:325`, `src/allocator.c:98`, `SM_INIT_ACK`, `SM_EXIT-_ACK`, `->` on a struct). The model follows the evident intent.
- src/allocator.c:179 decrements `allocator->n_nodes`, which does not exist in that file, instead of `sm_node_count`. The model's close decrements `sm_node_count`, as src/node_functions.c:38 does.
- Registry.NodeTable.Init: registering into a full `node_list` overruns the array. The model refuses this with `TableFull`.
- Registry.NodeTable.Close: an unparsable request, or a nid outside the list, leaves `client_id` uninitialised or out of bounds. The model refuses it with `BadRequest` or `UnknownNode`.
- Registry.NodeTable.Allocate: the source ignores handler return codes. The model stops at the first refusal.
- Registry.NodeTable.constructor: the reset loop writes only the `n_proc` slots of the list. The extra write of the source is the finding below.
- The textual page list's layout is taken from Code/allocator.h. bin/allocator.c:325-332 resets a typed `sm_page_table` instead, and the model gives `page_list` the equivalent empty state.
- The two engines' wait predicates (`Awaited`, `WaitedFor`, `Executed`) are written once per message type, textual and typed, rather than over a shared generic message.
- Integer widths: the model's counters and offsets are unbounded. Only the one-byte `char` fields are truncated explicitly.

## Findings

| source | as written | input that shows it | evidently intended | confidence | as-written member | corrected member |
|---|---|---|---|---|---|---|
| bin/allocator.c:54-57 | `msg` is bound to the queue head once, so every pass executes that same request while `dequeue` drops the others | two different requests queued while a fault was served | execute the current head on each pass, then dequeue it | not executed | TextEngine.AsWrittenDrainLosesRequests | TextEngine.Allocator.Drain |
| src/node_functions.c:150-151 | the page advances by `size / SM_PAGESIZE` only, so an offset that wraps is not carried into the page | 172 ALOC requests from a fresh allocator, each read as size 6 as written: the 172nd region starts at byte 2, inside the first | carry the wrapped offset into the page | not executed | TypedEngine.AsWrittenGrantsOverlap | TypedEngine.BumpKeepsDisjoint |
| src/node_functions.c:131,159-160 | `request[0]` and `request[1]` index the buffer, which starts with the header, so the handlers read the type and length bytes | an ALOC of any size reads size 6; a CAST of any root reads root 8 | read body bytes 0 and 1 | not executed | TypedEngine.AsWrittenFieldsAreHeader | Protocol.BodyFormatsRoundTrip |
| src/node_functions.c:87-89 | the wait matches the reply codes BARR_REPLY and CAST_REPLY, which nodes never send to the allocator | a node's BARR request during a barrier is executed as a new barrier | match the node's own BARR or CAST request | not executed | TypedEngine.WaitAsWrittenMissesRequests | TypedEngine.SmAllocator.Wait |
| Code/allocator.c:35 | `strstr(buffer, "close") == 0` takes the close branch when "close" does NOT occur | "close nid=0" is ignored, while "exit" closes a garbage nid | take the close branch when "close" occurs | not executed | Registry.AsWrittenRouteInverted | Registry.RouteMeans |
| Code/allocator.c:87 | the reset loop runs `i <= n_proc`, writing slot `n_proc` of an `n_proc`-entry list | any `n_proc`, for example 1: slot 1 of a one-slot list is written | loop `i < n_proc` | not executed | Registry.AsWrittenResetOverruns | Registry.NodeTable.constructor |
| Code/allocator.c:76 | `send(client, "ACK", strlen(buffer), 0)` sends as many bytes as the request had, reading past the 4-byte literal | "close nid=0" makes 11 bytes be read from "ACK" | send `strlen("ACK")` bytes | not executed | Registry.AsWrittenAckOverreads | Registry.NodeTable.Close |
