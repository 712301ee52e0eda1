/** The textual iteration of the allocator: requests are text lines routed by the
    keyword they contain; the allocator keeps a page list with first-fit sub-page
    allocations, a slot table of client sockets, and a FIFO of requests it had to
    set aside while waiting for a page owner's reply. */
module TextEngine {
  import opened Common

  /** A request as a node sends it: the text the router searches, and the fields
      the handlers' `sscanf` formats extract from it, taken as given values. */
  datatype TextMsg = TextMsg(
    text: string,  // the received buffer
    size: nat,     // "allocate node %d size %ld"
    addr: int,     // "cast %p ..." (an opaque address)
    root: int,     // "... root %d"
    kind: string,  // first word of "%s fault: node %d offset %d"
    offset: int)   // "... offset %d"

  /** The buffer a failed `recv` leaves: zeroed, so its text is empty. */
  const NoText := TextMsg("", 0, 0, 0, "", 0)

  /** What the allocator sends. */
  datatype Reply =
    | InitAck(nid: int, nodes: int)            // "nid: %d, nodes: %d"
    | CloseAck                                 // "close ACK"
    | BarrierAck                               // "barrier ACK"
    | OffsetReply(offset: int)                 // "offset %d"
    | AddressReply(addr: int)                  // "address %p"
    | PageRequest(kind: string, pageOffset: int) // "request %s: %d"
    | PageForward(page: TextMsg)               // the owner's "page: " reply, verbatim

  /** One `send`, tagged with the slot whose socket it went to. */
  datatype Sent = Sent(slot: int, reply: Reply)

  /** A sub-page reservation: `offset` is relative to its page, `size` its length. */
  datatype Alloc = Alloc(offset: int, size: nat)

  /** A page of the shared region. `offset` is relative to the memory base,
      `allocated` the bytes reserved so far, `writer` the owning nid, and
      `reader[j] == 1` when node j holds a copy. */
  datatype Page = Page(offset: int, allocatedSize: int, writer: int, reader: seq<int>, allocs: seq<Alloc>)

  /** An entry of the pending-message queue: the node it came from and its request. */
  datatype Pending = Pending(nid: int, request: TextMsg)

  datatype Failure =
    | InvalidInit | InvalidMessage | NestedCollective | NoPageFits | BadFaultPage
    | NoWriter | WriterGone | RecvFailed | WaitFailed | AcceptFailed | NoConnection

  /** A handler's return: 0, or the -1 that `fatal` returns, with its reason. */
  datatype Status = Ok | Fatal(failure: Failure)

  // ---------------------------------------------------------------- routing

  datatype Handler = CloseH | BarrierH | AllocateH | CastH | FaultH | InvalidH

  /** The keywords the router tries, in priority order, and the handler each selects. */
  const Keywords: seq<string> := ["close", "barrier", "allocate", "cast", "fault"]
  const Handlers: seq<Handler> := [CloseH, BarrierH, AllocateH, CastH, FaultH]

  /** `node_execute`: the first keyword the request contains selects the handler. */
  function Route(text: string): Handler {
    if Contains(text, "close") then CloseH
    else if Contains(text, "barrier") then BarrierH
    else if Contains(text, "allocate") then AllocateH
    else if Contains(text, "cast") then CastH
    else if Contains(text, "fault") then FaultH
    else InvalidH
  }

  /** Routing is first match in keyword order: a request goes to the k-th handler
      exactly when it contains the k-th keyword and none before it, and is invalid
      exactly when it contains none. */
  lemma {:induction false} RouteIsFirstMatch(text: string)
    ensures Route(text) == InvalidH <==> forall k :: 0 <= k < |Keywords| ==> !Contains(text, Keywords[k])
    ensures forall k :: 0 <= k < |Handlers| ==>
      (Route(text) == Handlers[k] <==>
        Contains(text, Keywords[k]) && forall j :: 0 <= j < k ==> !Contains(text, Keywords[j]))
  {
    assert |Keywords| == 5 && |Handlers| == 5;
    assert Keywords[0] == "close" && Keywords[1] == "barrier" && Keywords[2] == "allocate";
    assert Keywords[3] == "cast" && Keywords[4] == "fault";
  }

  /** The empty buffer of a failed receive is an invalid request. */
  lemma EmptyIsInvalid()
    ensures Route(NoText.text) == InvalidH
  {
  }

  // ---------------------------------------------------------------- pages

  /** The total size of a list of allocations. */
  function SumSizes(allocs: seq<Alloc>): (n: nat)
  {
    if allocs == [] then 0 else SumSizes(allocs[..|allocs| - 1]) + allocs[|allocs| - 1].size
  }

  /** Each allocation starts where the ones before it end. */
  ghost predicate Packed(allocs: seq<Alloc>) {
    forall k :: 0 <= k < |allocs| ==> allocs[k].offset == SumSizes(allocs[..k])
  }

  /** The invariant of page `i`: it sits at `i * pageSize`, has one reader flag per node,
      and its allocations are packed from offset 0 and total `allocatedSize <= pageSize`. */
  ghost predicate PageOk(p: Page, i: int, pageSize: nat, nodes: nat) {
    && p.offset == i * pageSize
    && |p.reader| == nodes
    && 0 <= p.allocatedSize <= pageSize
    && p.allocatedSize == SumSizes(p.allocs)
    && Packed(p.allocs)
  }

  /** A prefix one longer totals one more size. */
  lemma SumSizesStep(allocs: seq<Alloc>, k: nat)
    requires k < |allocs|
    ensures SumSizes(allocs[..k + 1]) == SumSizes(allocs[..k]) + allocs[k].size
  {
    assert allocs[..k + 1][..k] == allocs[..k];
  }

  /** Totals of prefixes grow with the prefix. */
  lemma {:induction false} SumSizesMono(allocs: seq<Alloc>, j: nat, k: nat)
    requires j <= k <= |allocs|
    ensures SumSizes(allocs[..j]) <= SumSizes(allocs[..k])
    decreases k - j
  {
    if j < k {
      SumSizesMono(allocs, j, k - 1);
      SumSizesStep(allocs, k - 1);
    }
  }

  /** Two allocations that start at their prefix totals: the earlier ends at or before
      the later starts, and the later ends within the total. */
  lemma StartsAtTotals(a: seq<Alloc>, j: nat, k: nat)
    requires j < k < |a|
    requires a[j].offset == SumSizes(a[..j]) && a[k].offset == SumSizes(a[..k])
    ensures a[j].offset + a[j].size <= a[k].offset
    ensures a[k].offset + a[k].size <= SumSizes(a)
  {
    SumSizesStep(a, j);
    SumSizesMono(a, j + 1, k);
    SumSizesStep(a, k);
    SumSizesMono(a, k + 1, |a|);
    assert a[..|a|] == a;
  }

  /** In a packed sequence each allocation ends at or before any later one starts, and
      all of them end within the total. */
  lemma PackedDisjoint(a: seq<Alloc>, j: nat, k: nat)
    requires Packed(a) && j < k < |a|
    ensures a[j].offset + a[j].size <= a[k].offset
    ensures a[k].offset + a[k].size <= SumSizes(a)
  {
    StartsAtTotals(a, j, k);
  }

  /** Packed allocations never overlap: each ends at or before the next one starts,
      and all of them end within `allocated`. */
  lemma AllocationsDisjoint(p: Page, i: int, pageSize: nat, nodes: nat, j: int, k: int)
    requires PageOk(p, i, pageSize, nodes)
    requires 0 <= j < k < |p.allocs|
    ensures p.allocs[j].offset + p.allocs[j].size <= p.allocs[k].offset
    ensures p.allocs[k].offset + p.allocs[k].size <= p.allocatedSize <= pageSize
  {
    PackedDisjoint(p.allocs, j, k);
  }

  /** Every page satisfies its invariant. */
  ghost predicate PagesOk(pages: seq<Page>, pageSize: nat, nodes: nat) {
    forall i :: 0 <= i < |pages| ==> PageOk(pages[i], i, pageSize, nodes)
  }

  predicate Fits(p: Page, size: nat, pageSize: nat) {
    p.allocatedSize + size <= pageSize
  }

  /** The first page, from index `i` on, with room for `size` more bytes. */
  function FirstFitFrom(pages: seq<Page>, size: nat, pageSize: nat, i: nat): (r: Option<nat>)
    ensures r.Some? ==> i <= r.value < |pages|
    decreases |pages| - i
  {
    if i >= |pages| then None
    else if Fits(pages[i], size, pageSize) then Some(i)
    else FirstFitFrom(pages, size, pageSize, i + 1)
  }

  function FirstFit(pages: seq<Page>, size: nat, pageSize: nat): (r: Option<nat>)
    ensures r.Some? ==> r.value < |pages|
  {
    FirstFitFrom(pages, size, pageSize, 0)
  }

  lemma {:induction false} FirstFitFromIsLowest(pages: seq<Page>, size: nat, pageSize: nat, i: nat)
    ensures FirstFitFrom(pages, size, pageSize, i).Some? <==>
      exists j :: i <= j < |pages| && Fits(pages[j], size, pageSize)
    ensures FirstFitFrom(pages, size, pageSize, i).Some? ==>
      var j := FirstFitFrom(pages, size, pageSize, i).value;
      i <= j < |pages| && Fits(pages[j], size, pageSize) &&
      forall l :: i <= l < j ==> !Fits(pages[l], size, pageSize)
    decreases |pages| - i
  {
    if i < |pages| && !Fits(pages[i], size, pageSize) {
      FirstFitFromIsLowest(pages, size, pageSize, i + 1);
    }
  }

  /** First fit picks the lowest-indexed page with room, and fails only when no page has room. */
  lemma FirstFitIsLowest(pages: seq<Page>, size: nat, pageSize: nat)
    ensures FirstFit(pages, size, pageSize).None? <==>
      forall j :: 0 <= j < |pages| ==> !Fits(pages[j], size, pageSize)
    ensures FirstFit(pages, size, pageSize).Some? ==>
      var j := FirstFit(pages, size, pageSize).value;
      j < |pages| && Fits(pages[j], size, pageSize) &&
      forall l :: 0 <= l < j ==> !Fits(pages[l], size, pageSize)
  {
    FirstFitFromIsLowest(pages, size, pageSize, 0);
  }

  /** The reservation `node_allocate` makes on a page that fits: the new allocation starts
      at the old `allocated`, which grows by `size`; the requester becomes writer and reader. */
  function Grant(p: Page, nid: nat, size: nat): Page
    requires nid < |p.reader|
  {
    p.(writer := nid, reader := p.reader[nid := 1], allocatedSize := p.allocatedSize + size,
       allocs := p.allocs + [Alloc(p.allocatedSize, size)])
  }

  /** Appending an allocation that starts where the others end keeps them packed. */
  lemma {:induction false} PackedSnoc(allocs: seq<Alloc>, a: Alloc)
    requires Packed(allocs) && a.offset == SumSizes(allocs)
    ensures Packed(allocs + [a])
    ensures SumSizes(allocs + [a]) == SumSizes(allocs) + a.size
  {
    var q := allocs + [a];
    assert q[..|q| - 1] == allocs;
    forall k | 0 <= k < |q| ensures q[k].offset == SumSizes(q[..k]) {
      if k < |allocs| {
        assert q[..k] == allocs[..k];
      }
    }
  }

  /** A grant on a page with room keeps the page invariant; the allocation lies inside
      the page, after every earlier one. */
  lemma {:induction false} GrantKeepsPage(p: Page, i: int, pageSize: nat, nodes: nat, nid: nat, size: nat)
    requires PageOk(p, i, pageSize, nodes) && nid < nodes && Fits(p, size, pageSize)
    ensures PageOk(Grant(p, nid, size), i, pageSize, nodes)
    ensures Grant(p, nid, size).allocatedSize <= pageSize
    ensures Grant(p, nid, size).writer == nid && Grant(p, nid, size).reader[nid] == 1
  {
    PackedSnoc(p.allocs, Alloc(p.allocatedSize, size));
  }

  /** Every byte of an allocation granted on page `i` has a global offset whose page
      is `i` again, which is how the fault handler finds the page. */
  lemma AllocationAddress(p: Page, i: nat, pageSize: nat, nodes: nat, size: nat, b: nat)
    requires PageOk(p, i, pageSize, nodes) && Fits(p, size, pageSize) && b < size
    ensures (p.offset + p.allocatedSize + b) / pageSize == i
  {
    var r := p.allocatedSize + b;
    assert 0 <= r < pageSize;
    DivOfPageStart(i, r, pageSize);
  }

  /** The page of byte `r` of page `i` is `i`. */
  lemma DivOfPageStart(i: int, r: int, pageSize: nat)
    requires 0 <= r < pageSize
    ensures (i * pageSize + r) / pageSize == i
  {
    var x := i * pageSize + r;
    var q := x / pageSize;
    var m := x % pageSize;
    assert q * pageSize + m == x;
    var d := q - i;
    assert d * pageSize == r - m by {
      assert d * pageSize == q * pageSize - i * pageSize;
    }
  }

  /** C's `/` on int: truncation toward zero, so the remainder takes the sign of `a`. */
  function CDiv(a: int, b: nat): (q: int)
    requires b > 0
    ensures a >= 0 ==> 0 <= a - q * b < b
    ensures a < 0 ==> a - q * b <= 0 < a - q * b + b
  {
    if a >= 0 then a / b else -((-a) / b)
  }

  // ---------------------------------------------------------------- state

  /** All fields of the allocator at one moment (the constants excepted). */
  datatype Snapshot = Snapshot(
    nNodes: int, cSockets: seq<int>, pages: seq<Page>, queue: seq<Pending>,
    inbox: seq<seq<TextMsg>>, outbox: seq<Sent>, dispatched: seq<Pending>)

  /** The queue entries for messages `ms`, all from node `nid`, in order. */
  function Tag(nid: int, ms: seq<TextMsg>): seq<Pending>
  {
    seq(|ms|, k requires 0 <= k < |ms| => Pending(nid, ms[k]))
  }

  /** The index of the first message holding the owner's "page: " reply. */
  function FirstPage(ms: seq<TextMsg>): (r: Option<nat>)
    ensures r.Some? ==> r.value < |ms| && Contains(ms[r.value].text, "page: ")
    ensures r.Some? ==> forall k :: 0 <= k < r.value ==> !Contains(ms[k].text, "page: ")
    ensures r.None? ==> forall k :: 0 <= k < |ms| ==> !Contains(ms[k].text, "page: ")
  {
    if ms == [] then None
    else if Contains(ms[0].text, "page: ") then Some(0)
    else match FirstPage(ms[1..])
      case None => None
      case Some(k) => Some(k + 1)
  }

  /** The replies of a collective: one `r` for every slot 0..n-1, in slot order. */
  function Broadcast(n: nat, r: Reply): seq<Sent>
  {
    seq(n, i => Sent(i, r))
  }

  predicate IsCollective(r: Reply) {
    r.BarrierAck? || r.AddressReply?
  }

  /** `b` extends `a` with point-to-point replies only (no barrier or cast release). */
  ghost predicate PointRepliesOnly(a: seq<Sent>, b: seq<Sent>) {
    a <= b && forall k :: |a| <= k < |b| ==> !IsCollective(b[k].reply)
  }

  lemma PointRepliesTrans(a: seq<Sent>, b: seq<Sent>, c: seq<Sent>)
    requires PointRepliesOnly(a, b) && PointRepliesOnly(b, c)
    ensures PointRepliesOnly(a, c)
  {
    forall k | |a| <= k < |c| ensures !IsCollective(c[k].reply) {
      if k < |b| {
        assert c[k] == b[k];
      }
    }
  }

  /** `node_init`'s effect on state `s`: only the exact text "init" registers, at slot
      `nNodes`, and the reply gives the new nid and the new count. */
  ghost predicate InitSpec(s: Snapshot, s': Snapshot, client: int, req: TextMsg, st: Status)
    requires 0 <= s.nNodes < |s.cSockets|
  {
    if req.text != "init" then st == Fatal(InvalidInit) && s' == s
    else st == Ok && s' == s.(cSockets := s.cSockets[s.nNodes := client], nNodes := s.nNodes + 1,
                              outbox := s.outbox + [Sent(s.nNodes, InitAck(s.nNodes, s.nNodes + 1))])
  }

  /** `node_close`'s effect: the close ACK to `nid`, its slot zeroed, the count decremented. */
  ghost predicate CloseSpec(s: Snapshot, s': Snapshot, nid: int)
    requires 0 <= nid < |s.cSockets|
  {
    s' == s.(cSockets := s.cSockets[nid := 0], nNodes := s.nNodes - 1,
             outbox := s.outbox + [Sent(nid, CloseAck)])
  }

  /** `node_allocate`'s effect: first fit, or an explicit failure when no page has room. */
  ghost predicate AllocateSpec(s: Snapshot, s': Snapshot, nid: nat, size: nat, pageSize: nat, st: Status)
    requires forall i :: 0 <= i < |s.pages| ==> nid < |s.pages[i].reader|
  {
    match FirstFit(s.pages, size, pageSize)
    case None => st == Fatal(NoPageFits) && s' == s
    case Some(i) =>
      st == Ok && s' == s.(pages := s.pages[i := Grant(s.pages[i], nid, size)],
                           outbox := s.outbox + [Sent(nid, OffsetReply(s.pages[i].offset + s.pages[i].allocatedSize))])
  }

  /** `handle_fault`'s effect: ask the page's writer for the page, queue (tagged with the
      writer's nid, in order) whatever the writer sends before its "page: " reply, and
      forward that reply to the faulting node. The page table is never touched. */
  ghost predicate FaultSpec(s: Snapshot, s': Snapshot, nid: int, req: TextMsg, pageSize: nat, st: Status)
    requires pageSize > 0 && |s.inbox| == |s.cSockets|
  {
    var pn := CDiv(req.offset, pageSize);
    if pn < 0 || pn >= |s.pages| then st == Fatal(BadFaultPage) && s' == s
    else
      var w := s.pages[pn].writer;
      if !(0 <= w < |s.cSockets|) then st == Fatal(NoWriter) && s' == s
      else if s.cSockets[w] <= 0 then st == Fatal(WriterGone) && s' == s
      else
        var ask := Sent(w, PageRequest(req.kind, s.pages[pn].offset));
        match FirstPage(s.inbox[w])
        case Some(k) =>
          st == Ok && s' == s.(queue := s.queue + Tag(w, s.inbox[w][..k]),
                               inbox := s.inbox[w := s.inbox[w][k + 1..]],
                               outbox := s.outbox + [ask, Sent(nid, PageForward(s.inbox[w][k]))])
        case None =>
          st == Fatal(RecvFailed) && s' == s.(queue := s.queue + Tag(w, s.inbox[w]),
                                              inbox := s.inbox[w := []],
                                              outbox := s.outbox + [ask])
  }

  /** What a handler that `node_wait` may run in the middle of a rendezvous does: close,
      allocate and fault as above; a collective request met while waiting is refused, and
      any other text is the router's invalid-message error. */
  ghost predicate LocalSpec(s: Snapshot, s': Snapshot, nid: nat, req: TextMsg, pageSize: nat, st: Status)
    requires nid < |s.cSockets| && pageSize > 0 && |s.inbox| == |s.cSockets|
    requires forall i :: 0 <= i < |s.pages| ==> nid < |s.pages[i].reader|
  {
    match Route(req.text)
    case CloseH => st == Ok && CloseSpec(s, s', nid)
    case AllocateH => AllocateSpec(s, s', nid, req.size, pageSize, st)
    case FaultH => FaultSpec(s, s', nid, req, pageSize, st)
    case InvalidH => st == Fatal(InvalidMessage) && s' == s
    case _ => st == Fatal(NestedCollective) && s' == s
  }

  /** A local handler reads only what it queues (no message is read twice), sends only
      point-to-point replies and leaves `dispatched` as `node_execute` extended it. */
  lemma LocalFollows(s: Snapshot, s': Snapshot, nid: nat, req: TextMsg, pageSize: nat, st: Status)
    requires nid < |s.cSockets| && pageSize > 0 && |s.inbox| == |s.cSockets|
    requires forall i :: 0 <= i < |s.pages| ==> nid < |s.pages[i].reader|
    requires LocalSpec(s.(dispatched := s.dispatched + [Pending(nid, req)]), s', nid, req, pageSize, st)
    requires Total(s'.inbox) + |s'.queue| <= Total(s.inbox) + |s.queue|
    ensures Follows(s, s') && s'.dispatched == s.dispatched + [Pending(nid, req)]
  {
  }

  /** What `node_wait` read from one node: messages without the keyword, then the first
      one that holds it. */
  ghost predicate Awaited(ms: seq<TextMsg>, keyword: string) {
    && ms != []
    && Contains(ms[|ms| - 1].text, keyword)
    && forall k :: 0 <= k < |ms| - 1 ==> !Contains(ms[k].text, keyword)
  }

  /** `node_wait` has read nothing from the initiator and has found the keyword at every
      other node below `n`. */
  ghost predicate WaitedFor(drained: seq<seq<TextMsg>>, n: nat, nid: nat, keyword: string)
    decreases n
  {
    n <= |drained| &&
    (n == 0 ||
     (WaitedFor(drained, n - 1, nid, keyword) &&
      if n - 1 == nid then drained[n - 1] == [] else Awaited(drained[n - 1], keyword)))
  }

  lemma {:induction false} WaitedForPrefix(drained: seq<seq<TextMsg>>, n: nat, nid: nat, keyword: string, i: nat, x: seq<TextMsg>)
    requires n <= i < |drained| && WaitedFor(drained, n, nid, keyword)
    ensures WaitedFor(drained[i := x], n, nid, keyword)
  {
    if n > 0 {
      WaitedForPrefix(drained, n - 1, nid, keyword, i, x);
      assert drained[i := x][n - 1] == drained[n - 1];
    }
  }

  lemma WaitedForStep(drained: seq<seq<TextMsg>>, n: nat, nid: nat, keyword: string, got: seq<TextMsg>)
    requires WaitedFor(drained, n, nid, keyword) && n < |drained|
    requires n == nid ==> got == []
    requires n != nid ==> Awaited(got, keyword)
    ensures WaitedFor(drained[n := got], n + 1, nid, keyword)
  {
    WaitedForPrefix(drained, n, nid, keyword, n, got);
  }

  /** Node by node: the initiator's entry is empty, every other entry ends at the
      keyword. */
  lemma {:induction false} WaitedForMeans(drained: seq<seq<TextMsg>>, n: nat, nid: nat, keyword: string)
    requires WaitedFor(drained, n, nid, keyword)
    ensures nid < n ==> drained[nid] == []
    ensures forall j :: 0 <= j < n && j != nid ==> Awaited(drained[j], keyword)
  {
    if n > 0 {
      WaitedForMeans(drained, n - 1, nid, keyword);
    }
  }

  /** What `node_wait` has established after nodes `0..n)`: nothing read from the
      initiator, the keyword found at every other node, and the messages before it handed
      to the router (in `log`, in order). */
  ghost predicate WaitLog(drained: seq<seq<TextMsg>>, log: seq<Pending>, n: nat, nid: nat, keyword: string) {
    WaitedFor(drained, n, nid, keyword) && log == Executed(drained, n)
  }

  lemma WaitLogStep(drained: seq<seq<TextMsg>>, log: seq<Pending>, n: nat, nid: nat, keyword: string, got: seq<TextMsg>)
    requires WaitLog(drained, log, n, nid, keyword) && n < |drained|
    requires n == nid ==> got == []
    requires n != nid ==> Awaited(got, keyword)
    ensures WaitLog(drained[n := got], log + Tag(n, Front(got)), n + 1, nid, keyword)
  {
    ExecutedStep(drained, n, got);
    WaitedForStep(drained, n, nid, keyword, got);
  }

  /** The value `node_wait` hands back after nodes `0..n)`: captured only in cast mode
      (any keyword other than "barrier") and only from `root`'s matching message. */
  ghost predicate Captured(drained: seq<seq<TextMsg>>, value: int, n: nat, nid: nat, keyword: string, root: int, value0: int)
    requires n <= |drained|
  {
    value == if keyword != "barrier" && 0 <= root < n && root != nid then LastAddr(drained[root]) else value0
  }

  lemma CapturedStep(drained: seq<seq<TextMsg>>, value: int, n: nat, nid: nat, keyword: string, root: int, value0: int,
                     got: seq<TextMsg>, value': int)
    requires n < |drained| && Captured(drained, value, n, nid, keyword, root, value0)
    requires value' == if n == root && n != nid && keyword != "barrier" then LastAddr(got) else value
    ensures Captured(drained[n := got], value', n + 1, nid, keyword, root, value0)
  {
  }

  /** The requests `node_wait` hands to the router after reading `drained[0..n)`: every
      message before the keyword, node by node in ascending order, in receipt order. */
  ghost function Executed(drained: seq<seq<TextMsg>>, n: nat): seq<Pending>
    requires n <= |drained|
  {
    if n == 0 then [] else Executed(drained, n - 1) + Tag(n - 1, Front(drained[n - 1]))
  }

  lemma ExecutedStep(drained: seq<seq<TextMsg>>, i: nat, got: seq<TextMsg>)
    requires i < |drained|
    ensures Executed(drained[i := got], i + 1) == Executed(drained, i) + Tag(i, Front(got))
  {
    ExecutedPrefix(drained, i, i, got);
  }

  lemma {:induction false} ExecutedPrefix(drained: seq<seq<TextMsg>>, n: nat, i: nat, x: seq<TextMsg>)
    requires n <= i < |drained|
    ensures Executed(drained[i := x], n) == Executed(drained, n)
  {
    if n > 0 {
      ExecutedPrefix(drained, n - 1, i, x);
      assert drained[i := x][n - 1] == drained[n - 1];
    }
  }

  /** What every handler keeps between states `a` and `b`: no more work than before
      (unread messages plus queued ones), and the queue only grown at its tail. */
  ghost predicate Shrinks(a: Snapshot, b: Snapshot) {
    && Total(b.inbox) + |b.queue| <= Total(a.inbox) + |a.queue|
    && a.queue <= b.queue
    && a.dispatched <= b.dispatched
    && Onward(a, b)
  }

  /** No connection gets back a message once read, and no closed slot reopens. */
  ghost predicate Onward(a: Snapshot, b: Snapshot) {
    && |b.inbox| == |a.inbox|
    && |b.cSockets| == |a.cSockets|
    && forall j :: 0 <= j < |a.inbox| && j < |a.cSockets| ==> Kept(a, b, j)
  }

  /** Slot `j` has not got back a message and has not reopened. */
  ghost predicate Kept(a: Snapshot, b: Snapshot, j: int)
    requires 0 <= j < |a.inbox| && j < |b.inbox| && j < |a.cSockets| && j < |b.cSockets|
  {
    |b.inbox[j]| <= |a.inbox[j]| && (a.cSockets[j] <= 0 ==> b.cSockets[j] <= 0)
  }

  lemma ShrinksTrans(a: Snapshot, b: Snapshot, c: Snapshot)
    requires Shrinks(a, b) && Shrinks(b, c)
    ensures Shrinks(a, c)
  {
    OnwardTrans(a, b, c);
  }

  lemma OnwardTrans(a: Snapshot, b: Snapshot, c: Snapshot)
    requires Onward(a, b) && Onward(b, c)
    ensures Onward(a, c)
  {
    forall j | 0 <= j < |a.inbox| && j < |a.cSockets| ensures Kept(a, c, j) {
      assert Kept(a, b, j) && Kept(b, c, j);
    }
  }

  // ---------------------------------------------------------------- what was read

  /** `rest` is what is left of the stream `s` once its first messages have been read. */
  ghost predicate Unread(s: seq<TextMsg>, rest: seq<TextMsg>) {
    |rest| <= |s| && rest == s[|s| - |rest|..]
  }

  /** Every connection's unread messages are what is left of its stream. */
  ghost predicate AllUnread(streams: seq<seq<TextMsg>>, inbox: seq<seq<TextMsg>>) {
    |streams| == |inbox| && forall j :: 0 <= j < |inbox| ==> Linked(streams, inbox, j)
  }

  ghost predicate Linked(streams: seq<seq<TextMsg>>, inbox: seq<seq<TextMsg>>, j: int)
    requires 0 <= j < |streams| && j < |inbox|
  {
    Unread(streams[j], inbox[j])
  }

  /** Reading the next message from one connection keeps the others' streams intact. */
  lemma AllUnreadStep(streams: seq<seq<TextMsg>>, inbox: seq<seq<TextMsg>>, i: nat)
    requires AllUnread(streams, inbox) && i < |inbox| && inbox[i] != []
    ensures AllUnread(streams, inbox[i := inbox[i][1..]])
  {
    var s, inbox' := streams[i], inbox[i := inbox[i][1..]];
    assert Linked(streams, inbox, i);
    assert inbox[i][1..] == s[|s| - |inbox[i][1..]|..];
    forall j | 0 <= j < |inbox'| ensures Linked(streams, inbox', j) {
      if j != i {
        assert Linked(streams, inbox, j);
      }
    }
  }

  /** What `recv` reads next from a live connection is the first unread message of its
      stream, or the zeroed buffer once none is left. */
  lemma ReadMsgNext(streams: seq<seq<TextMsg>>, inbox: seq<seq<TextMsg>>, i: nat)
    requires AllUnread(streams, inbox) && i < |inbox|
    ensures ReadMsg(streams[i], |streams[i]| - |inbox[i]|) == if inbox[i] == [] then NoText else inbox[i][0]
    ensures inbox[i] != [] ==> 0 <= |streams[i]| - |inbox[i]| < |streams[i]|
  {
    assert Linked(streams, inbox, i);
  }

  /** What `recv` yields at position `p` of a live connection: the message there, or the
      zeroed buffer once the peer has nothing more to send. */
  ghost function ReadMsg(s: seq<TextMsg>, p: int): TextMsg {
    if 0 <= p < |s| then s[p] else NoText
  }

  /** Where a wait read node j's messages: `from..to` of its stream, at `cuts`. */
  datatype Span = Span(from: int, to: int, cuts: seq<int>)

  /** Every node below `n` but the initiator had what the wait read from it taken from
      its own stream, in order, from the first message it had not yet sent at the start
      (`inbox0`) on, ending at the one message that held the keyword. */
  ghost predicate ReadFromStreams(streams: seq<seq<TextMsg>>, inbox0: seq<seq<TextMsg>>, drained: seq<seq<TextMsg>>,
                                  spans: seq<Span>, n: nat, nid: nat) {
    && n <= |drained| && n <= |spans| && n <= |streams| && n <= |inbox0|
    && forall j :: 0 <= j < n && j != nid ==> SpanRead(streams, inbox0, drained, spans, j)
  }

  /** Node `j`'s share of a wait: `drained[j]` read from its stream at `spans[j]`, from
      no earlier than what was unread at the start. */
  ghost predicate SpanRead(streams: seq<seq<TextMsg>>, inbox0: seq<seq<TextMsg>>, drained: seq<seq<TextMsg>>,
                           spans: seq<Span>, j: int)
    requires 0 <= j < |drained| && j < |spans| && j < |streams| && j < |inbox0|
  {
    |streams[j]| - |inbox0[j]| <= spans[j].from &&
    ReadSpan(streams[j], spans[j].from, spans[j].to, drained[j], spans[j].cuts)
  }

  lemma ReadFromStreamsStep(streams: seq<seq<TextMsg>>, inbox0: seq<seq<TextMsg>>, drained: seq<seq<TextMsg>>,
                            spans: seq<Span>, n: nat, nid: nat, got: seq<TextMsg>, sp: Span)
    requires ReadFromStreams(streams, inbox0, drained, spans, n, nid) && n < |drained| && n < |spans|
    requires n < |streams| && n < |inbox0|
    requires n != nid ==> |streams[n]| - |inbox0[n]| <= sp.from && ReadSpan(streams[n], sp.from, sp.to, got, sp.cuts)
    ensures ReadFromStreams(streams, inbox0, drained[n := got], spans[n := sp], n + 1, nid)
  {
    var drained', spans', n' := drained[n := got], spans[n := sp], n + 1;
    forall j | 0 <= j < n' && j != nid ensures SpanRead(streams, inbox0, drained', spans', j) {
      if j < n {
        assert SpanRead(streams, inbox0, drained, spans, j);
      }
    }
  }

  /** What a wait hands back, ghost: what it read per node and where, what it handed to
      the router, the value it captured, and the replies sent before the release. */
  datatype Rendezvous = Rendezvous(drained: seq<seq<TextMsg>>, log: seq<Pending>, spans: seq<Span>,
                                   value: int, waited: seq<Sent>)

  /** A collective's effect, from state `s` to `s'`: the wait for every other node's
      `keyword` message (read from its stream, the messages before it handed to the
      router), and then, only when the wait succeeds, the release to every slot in
      ascending order, the barrier's ACK or the cast's captured value. A failed wait
      releases nothing. */
  ghost predicate CollectiveSpec(s: Snapshot, s': Snapshot, streams: seq<seq<TextMsg>>, nid: nat, keyword: string,
                                 root: int, value0: int, st: Status, rv: Rendezvous) {
    var n := |s.cSockets|;
    && Shrinks(s, s')
    && (st != Ok ==> PointRepliesOnly(s.outbox, s'.outbox))
    && (st == Ok ==>
          && |rv.drained| == n
          && WaitLog(rv.drained, rv.log, n, nid, keyword)
          && ReadFromStreams(streams, s.inbox, rv.drained, rv.spans, n, nid)
          && Captured(rv.drained, rv.value, n, nid, keyword, root, value0)
          && s'.dispatched == s.dispatched + rv.log
          && PointRepliesOnly(s.outbox, rv.waited)
          && s'.outbox == rv.waited + Broadcast(n, if keyword == "barrier" then BarrierAck else AddressReply(rv.value)))
  }

  /** What a handler short of a collective release keeps: `Shrinks`, and only
      point-to-point replies sent. */
  ghost predicate Follows(a: Snapshot, b: Snapshot) {
    Shrinks(a, b) && PointRepliesOnly(a.outbox, b.outbox)
  }

  lemma FollowsTrans(a: Snapshot, b: Snapshot, c: Snapshot)
    requires Follows(a, b) && Follows(b, c)
    ensures Follows(a, c)
  {
    ShrinksTrans(a, b, c);
    PointRepliesTrans(a.outbox, b.outbox, c.outbox);
  }

  /** `node_wait` up to node `i`, from `s0` to `s`: what it read from each node, what
      it handed to the router and the value it captured. */
  ghost predicate WaitSoFar(s0: Snapshot, s: Snapshot, streams: seq<seq<TextMsg>>, nid: nat, keyword: string,
                            root: int, value0: int, i: nat, value: int,
                            drained: seq<seq<TextMsg>>, log: seq<Pending>, spans: seq<Span>) {
    && Follows(s0, s)
    && |drained| == |s.cSockets| && |spans| == |s.cSockets|
    && s.dispatched == s0.dispatched + log
    && WaitLog(drained, log, i, nid, keyword)
    && Captured(drained, value, i, nid, keyword, root, value0)
    && ReadFromStreams(streams, s0.inbox, drained, spans, i, nid)
  }

  /** A round read the slots `served` of `ready` (below `n`) in ascending order, each
      once, at positions `at` of their streams, none before what was unread at the start. */
  ghost predicate RoundServed(streams: seq<seq<TextMsg>>, inbox0: seq<seq<TextMsg>>, ready: set<int>, n: nat,
                              served: seq<nat>, at: seq<int>) {
    && |at| == |served| && n <= |streams| && n <= |inbox0|
    && forall k :: 0 <= k < |served| ==> ServedAt(streams, inbox0, ready, n, served, at, k)
  }

  /** The `k`-th slot a round read: one of `ready` below `n`, after the one before it,
      at a position no earlier than what was unread at the start. */
  ghost predicate ServedAt(streams: seq<seq<TextMsg>>, inbox0: seq<seq<TextMsg>>, ready: set<int>, n: nat,
                           served: seq<nat>, at: seq<int>, k: int)
    requires 0 <= k < |served| == |at| && n <= |streams| && n <= |inbox0|
  {
    && served[k] in ready && served[k] < n
    && (k > 0 ==> served[k - 1] < served[k])
    && |streams[served[k]]| - |inbox0[served[k]]| <= at[k]
  }

  /** The requests a round hands to the router: what slot `served[k]`'s stream holds at
      `at[k]`, tagged with that slot. */
  ghost function HeadsOf(streams: seq<seq<TextMsg>>, served: seq<nat>, at: seq<int>): (r: seq<Pending>)
    requires |at| == |served|
    ensures |r| == |served|
    decreases |served|
  {
    if served == [] then []
    else
      var k := |served| - 1;
      HeadsOf(streams, served[..k], at[..k]) + [Pending(served[k], ReadAt(streams, served[k], at[k]))]
  }

  /** What slot `i`'s stream holds at position `p` (the zeroed buffer outside it). */
  ghost function ReadAt(streams: seq<seq<TextMsg>>, i: int, p: int): TextMsg {
    if 0 <= i < |streams| then ReadMsg(streams[i], p) else NoText
  }

  lemma {:induction false} HeadsOfAt(streams: seq<seq<TextMsg>>, served: seq<nat>, at: seq<int>, k: int)
    requires |at| == |served| && 0 <= k < |served|
    ensures HeadsOf(streams, served, at)[k] == Pending(served[k], ReadAt(streams, served[k], at[k]))
    decreases |served|
  {
    var n := |served| - 1;
    if k < n {
      HeadsOfAt(streams, served[..n], at[..n], k);
    }
  }

  /** `node_execute`'s effect: the request is dispatched and its handler's effect follows. */
  ghost predicate ExecuteSpec(s: Snapshot, s': Snapshot, streams: seq<seq<TextMsg>>, nid: nat, request: TextMsg,
                              pageSize: nat, st: Status, rv: Rendezvous) {
    var s1 := s.(dispatched := s.dispatched + [Pending(nid, request)]);
    && Shrinks(s, s')
    && s1.dispatched <= s'.dispatched
    && match Route(request.text)
       case BarrierH => CollectiveSpec(s1, s', streams, nid, "barrier", 0, 0, st, rv)
       case CastH => CollectiveSpec(s1, s', streams, nid, "cast", request.root, request.addr, st, rv)
       case _ =>
         nid < |s.cSockets| && pageSize > 0 && |s.inbox| == |s.cSockets| &&
         (forall i :: 0 <= i < |s.pages| ==> nid < |s.pages[i].reader|) &&
         LocalSpec(s1, s', nid, request, pageSize, st)
  }

  lemma RoundServedStep(streams: seq<seq<TextMsg>>, inbox0: seq<seq<TextMsg>>, ready: set<int>, i: nat,
                        served: seq<nat>, at: seq<int>, m: TextMsg, p: int)
    requires RoundServed(streams, inbox0, ready, i, served, at)
    requires i in ready && i < |streams| && i < |inbox0| && |streams[i]| - |inbox0[i]| <= p
    requires m == ReadMsg(streams[i], p)
    ensures RoundServed(streams, inbox0, ready, i + 1, served + [i], at + [p])
    ensures i !in served
    ensures HeadsOf(streams, served + [i], at + [p]) == HeadsOf(streams, served, at) + [Pending(i, m)]
  {
    var served', at', n' := served + [i], at + [p], i + 1;
    assert served'[..|served|] == served && at'[..|at|] == at;
    forall k | 0 <= k < |served'| ensures ServedAt(streams, inbox0, ready, n', served', at', k) {
      if k < |served| {
        assert ServedAt(streams, inbox0, ready, i, served, at, k);
      }
      if k > 0 {
        assert ServedAt(streams, inbox0, ready, i, served, at, k - 1);
      }
    }
    forall k | 0 <= k < |served| ensures served[k] != i {
      assert ServedAt(streams, inbox0, ready, i, served, at, k);
    }
  }

  /** How a round from `s0` failed: the last slot it read handed its request to the
      router at `before`, and that request's handler, ending at `s`, gave `st`. A slot
      whose connection was closed or exhausted handed over the zeroed buffer. */
  ghost predicate FailedAt(s0: Snapshot, before: Snapshot, s: Snapshot, streams: seq<seq<TextMsg>>,
                          served: seq<nat>, at: seq<int>, pageSize: nat, st: Status, rv: Rendezvous) {
    && served != [] && |at| == |served|
    && Shrinks(s0, before)
    && ExecuteSpec(before, s, streams, served[|served| - 1], ReadAt(streams, served[|served| - 1], at[|at| - 1]),
                   pageSize, st, rv)
  }

  /** The serving loop's round up to slot `i`, from `s0` to `s`: the slots read and the
      requests dispatched so far, and every ready slot it passed over closed. */
  ghost predicate RoundSoFar(s0: Snapshot, s: Snapshot, streams: seq<seq<TextMsg>>, ready: set<int>, i: nat,
                             served: seq<nat>, cuts: seq<int>, at: seq<int>) {
    && Shrinks(s0, s)
    && RoundServed(streams, s0.inbox, ready, i, served, at)
    && Segments(s.dispatched[|s0.dispatched|..], HeadsOf(streams, served, at), cuts)
    && i <= |s.cSockets|
    && forall j :: 0 <= j < i && j in ready && j !in served ==> s.cSockets[j] <= 0
  }

  /** What a round read among the slots below `n` it read among those below `n'`. */
  lemma RoundServedWithin(streams: seq<seq<TextMsg>>, inbox0: seq<seq<TextMsg>>, ready: set<int>, n: nat, n': nat,
                          served: seq<nat>, at: seq<int>)
    requires RoundServed(streams, inbox0, ready, n, served, at) && n <= n' <= |streams| && n' <= |inbox0|
    ensures RoundServed(streams, inbox0, ready, n', served, at)
  {
    forall k | 0 <= k < |served| ensures ServedAt(streams, inbox0, ready, n', served, at, k) {
      assert ServedAt(streams, inbox0, ready, n, served, at, k);
    }
  }

  /** The end of a serving loop. */
  datatype Outcome = Finished | Failed(failure: Failure) | OutOfInput

  /** One step of the drain: the head is executed (which may only append to the queue),
      then dequeued; what was queued at the start stays a prefix of executed-then-queued. */
  lemma DrainStep(q0: seq<Pending>, executed: seq<Pending>, before: seq<Pending>, after: seq<Pending>)
    requires q0 <= executed + before && before <= after && before != []
    ensures q0 <= (executed + [before[0]]) + after[1..]
  {
    assert (executed + [before[0]]) + after[1..] == executed + after;
  }

  /** The requests the line-54 drain hands to the router, as written: the head it bound
      once, for every entry it dequeues. */
  predicate RepeatsHead(executed: seq<Pending>, head: Pending) {
    forall k :: 0 <= k < |executed| ==> executed[k] == head
  }

  /** With two different requests queued, the as-written drain never executes the
      queue: the second request is replaced by the first. */
  lemma AsWrittenDrainLosesRequests(q: seq<Pending>, executed: seq<Pending>)
    requires |q| >= 2 && q[0] != q[1] && RepeatsHead(executed, q[0])
    ensures !(q <= executed)
  {
  }

  /** The value parsed from the last message of `ms` (the matching one, after a wait). */
  ghost function LastAddr(ms: seq<TextMsg>): int {
    if ms == [] then 0 else ms[|ms| - 1].addr
  }

  // ---------------------------------------------------------------- the allocator

  /** The allocator's state record. Each node's connection is the stream of requests it
      has still to send (`inbox`, indexed by slot); every `send` is appended to `outbox`. */
  class Allocator {
    /** The number of nodes to run. */
    const totalNodes: nat
    /** `getpagesize()` */
    const pageSize: nat
    /** The number of nodes currently running. */
    var nNodes: int
    /** The connected client sockets, indexed by nid; 0 for a closed slot. */
    var cSockets: seq<int>
    /** The pages of the shared memory map. */
    var pages: seq<Page>
    /** The queue of set-aside requests, `m_queue` first and `m_last` last. */
    var queue: seq<Pending>
    var inbox: seq<seq<TextMsg>>
    var outbox: seq<Sent>
    /** Every request handed to a handler, in the order it was handed over. */
    ghost var dispatched: seq<Pending>
    /** Everything each node sends over its connection, from the start. */
    ghost const streams: seq<seq<TextMsg>>

    ghost predicate Valid()
      reads this
    {
      && pageSize > 0
      && |cSockets| == totalNodes
      && |inbox| == totalNodes
      && AllUnread(streams, inbox)
      && PagesOk(pages, pageSize, totalNodes)
      && forall k :: 0 <= k < |queue| ==> 0 <= queue[k].nid < totalNodes
    }

    /** How many of node `j`'s messages have been read. */
    ghost function Pos(j: nat): (p: nat)
      reads this
      requires Valid() && j < totalNodes
      ensures p <= |streams[j]|
    {
      assert Linked(streams, inbox, j);
      |streams[j]| - |inbox[j]|
    }

    ghost function State(): Snapshot
      reads this
    {
      Snapshot(nNodes, cSockets, pages, queue, inbox, outbox, dispatched)
    }

    /** Messages still to be received plus messages waiting in the queue: every
        handler either leaves this alone or lowers it. */
    ghost function Work(): nat
      reads this
    {
      Total(inbox) + |queue|
    }

    /** A fresh allocator: no node registered, every slot 0, `nPages` empty pages laid
        out one after another with no writer and no reader, an empty queue. */
    constructor (totalNodes: nat, pageSize: nat, nPages: nat, streams: seq<seq<TextMsg>>)
      requires pageSize > 0 && |streams| == totalNodes
      ensures Valid()
      ensures this.totalNodes == totalNodes && this.pageSize == pageSize
      ensures nNodes == 0 && cSockets == seq(totalNodes, _ => 0) && queue == []
      ensures inbox == streams && outbox == [] && |pages| == nPages
      ensures forall i :: 0 <= i < nPages ==> pages[i] == Page(i * pageSize, 0, -1, seq(totalNodes, _ => 0), [])
    {
      this.totalNodes := totalNodes;
      this.pageSize := pageSize;
      nNodes := 0;
      cSockets := seq(totalNodes, _ => 0);
      pages := seq(nPages, i => Page(i * pageSize, 0, -1, seq(totalNodes, _ => 0), []));
      queue := [];
      inbox := streams;
      outbox := [];
      dispatched := [];
      this.streams := streams;
    }

    /** `recv` on slot `i`: the next request of a live connection, or the empty buffer
        when the slot is closed or its peer has nothing more to send. */
    method Recv(i: nat) returns (ok: bool, m: TextMsg)
      requires Valid() && i < totalNodes
      modifies this
      ensures Valid()
      ensures ok <==> old(cSockets[i] > 0 && inbox[i] != [])
      ensures ok ==> m == old(inbox[i][0]) && State() == old(State()).(inbox := old(inbox)[i := old(inbox[i])[1..]])
      ensures ok ==> Work() == old(Work()) - 1
      ensures !ok ==> m == NoText && State() == old(State())
    {
      if cSockets[i] > 0 && inbox[i] != [] {
        ok, m := true, inbox[i][0];
        AllUnreadStep(streams, inbox, i);
        TotalUpdate(inbox, i, inbox[i][1..]);
        inbox := inbox[i := inbox[i][1..]];
      } else {
        ok, m := false, NoText;
      }
    }

    /** `send` on slot `slot`'s socket. */
    method SendTo(slot: int, r: Reply)
      modifies this
      ensures State() == old(State()).(outbox := old(outbox) + [Sent(slot, r)])
    {
      outbox := outbox + [Sent(slot, r)];
    }

    /** `enqueue`: append at the tail (`m_last`). */
    method Enqueue(nid: int, request: TextMsg)
      modifies this
      ensures State() == old(State()).(queue := old(queue) + [Pending(nid, request)])
    {
      queue := queue + [Pending(nid, request)];
    }

    /** `dequeue`: drop the head (`m_queue`); an empty queue stays empty. */
    method Dequeue()
      modifies this
      ensures State() == old(State()).(queue := if old(queue) == [] then [] else old(queue)[1..])
    {
      if queue != [] {
        queue := queue[1..];
      }
    }

    /** `node_init`: register the connection that sent `request` as its first message. */
    method Init(client: int, request: TextMsg) returns (st: Status)
      requires Valid() && 0 <= nNodes < totalNodes
      modifies this
      ensures Valid()
      ensures InitSpec(old(State()), State(), client, request, st)
    {
      if request.text != "init" {
        return Fatal(InvalidInit);
      }
      cSockets := cSockets[nNodes := client];
      nNodes := nNodes + 1;
      SendTo(nNodes - 1, InitAck(nNodes - 1, nNodes));
      st := Ok;
    }

    /** `node_close`: acknowledge, close and zero the slot, one node fewer. */
    method Close(nid: nat) returns (st: Status)
      requires Valid() && nid < totalNodes
      modifies this
      ensures Valid() && st == Ok
      ensures CloseSpec(old(State()), State(), nid)
    {
      SendTo(nid, CloseAck);
      cSockets := cSockets[nid := 0];
      nNodes := nNodes - 1;
      st := Ok;
    }

    /** `node_allocate`: reserve `request.size` bytes on the first page with room and
        reply with the allocation's offset from the memory base. */
    method Allocate(nid: nat, request: TextMsg) returns (st: Status)
      requires Valid() && nid < totalNodes
      modifies this
      ensures Valid()
      ensures AllocateSpec(old(State()), State(), nid, request.size, pageSize, st)
    {
      var size := request.size;
      var i := 0;
      while i < |pages|
        invariant 0 <= i <= |pages|
        invariant FirstFit(pages, size, pageSize) == FirstFitFrom(pages, size, pageSize, i)
      {
        if pages[i].allocatedSize + size <= pageSize {
          var page := pages[i];
          GrantKeepsPage(page, i, pageSize, totalNodes, nid, size);
          pages := pages[i := Grant(page, nid, size)];
          SendTo(nid, OffsetReply(page.offset + page.allocatedSize));
          return Ok;
        }
        i := i + 1;
      }
      st := Fatal(NoPageFits);
    }

    /** One pass of the relay loop: read the writer's next message and queue it unless
        it is the "page: " reply. */
    method RelayOne(w: nat) returns (ok: bool, m: TextMsg, page: bool)
      requires Valid() && w < totalNodes
      modifies this
      ensures Valid()
      ensures ok <==> old(cSockets[w] > 0 && inbox[w] != [])
      ensures ok ==> m == old(inbox[w][0]) && (page <==> Contains(m.text, "page: "))
      ensures ok ==> State() == old(State()).(queue := if page then old(queue) else old(queue) + [Pending(w, m)],
                                              inbox := old(inbox)[w := old(inbox[w])[1..]])
      ensures Work() <= old(Work()) && (ok && !page ==> Work() == old(Work()))
      ensures !ok ==> State() == old(State())
    {
      ok, m := Recv(w);
      page := ok && Contains(m.text, "page: ");
      if ok && !page {
        Enqueue(w, m);
      }
    }

    /** `handle_fault`'s receive loop: set aside (tagged with the writer's nid) every
        request the writer sends before its "page: " reply, then forward that reply
        verbatim to `nid`. */
    method RelayPage(nid: nat, w: nat) returns (st: Status)
      requires Valid() && w < totalNodes && cSockets[w] > 0
      modifies this
      ensures Valid()
      ensures Work() <= old(Work())
      ensures match FirstPage(old(inbox[w]))
              case Some(k) =>
                st == Ok && State() == old(State()).(queue := old(queue) + Tag(w, old(inbox[w])[..k]),
                                                   inbox := old(inbox)[w := old(inbox[w])[k + 1..]],
                                                   outbox := old(outbox) + [Sent(nid, PageForward(old(inbox[w])[k]))])
              case None =>
                st == Fatal(RecvFailed) && State() == old(State()).(queue := old(queue) + Tag(w, old(inbox[w])),
                                                                  inbox := old(inbox)[w := []])
    {
      ghost var s1 := State();
      ghost var stream := inbox[w];
      var k := 0;
      while true
        invariant Valid() && 0 <= k <= |stream|
        invariant forall j :: 0 <= j < k ==> !Contains(stream[j].text, "page: ")
        invariant State() == s1.(queue := s1.queue + Tag(w, stream[..k]), inbox := s1.inbox[w := stream[k..]])
        invariant Work() == old(Work())
        decreases |stream| - k
      {
        assert inbox[w] == stream[k..];
        var ok, m, page := RelayOne(w);
        if !ok {
          assert stream[..k] == stream;
          return Fatal(RecvFailed);
        }
        assert m == stream[k];
        assert stream[k..][1..] == stream[k + 1..];
        if !page {
          assert stream[..k + 1] == stream[..k] + [m];
          assert Tag(w, stream[..k + 1]) == Tag(w, stream[..k]) + [Pending(w, m)];
          k := k + 1;
        } else {
          assert FirstPage(stream) == Some(k) by {
            FirstPageAt(stream, k);
          }
          SendTo(nid, PageForward(m));
          return Ok;
        }
      }
    }

    /** `handle_fault`: find the faulting page's writer, ask it for the page, and relay
        its reply. */
    method Fault(nid: nat, request: TextMsg) returns (st: Status)
      requires Valid() && nid < totalNodes
      modifies this
      ensures Valid()
      ensures FaultSpec(old(State()), State(), nid, request, pageSize, st)
      ensures Work() <= old(Work())
    {
      var pn := CDiv(request.offset, pageSize);
      if pn < 0 || pn >= |pages| {
        return Fatal(BadFaultPage);
      }
      var page := pages[pn];
      var w := page.writer;
      if !(0 <= w < totalNodes) {
        return Fatal(NoWriter);
      }
      if cSockets[w] <= 0 {
        return Fatal(WriterGone);
      }
      ghost var ask := Sent(w, PageRequest(request.kind, page.offset));
      ghost var s0 := State();
      SendTo(w, PageRequest(request.kind, page.offset));
      st := RelayPage(nid, w);
      ghost var fwd := if FirstPage(s0.inbox[w]).Some? then [Sent(nid, PageForward(s0.inbox[w][FirstPage(s0.inbox[w]).value]))] else [];
      assert (s0.outbox + [ask]) + fwd == s0.outbox + ([ask] + fwd);
    }

    /** A request handed to the router from within `node_wait`. */
    method ExecuteLocal(nid: nat, request: TextMsg) returns (st: Status)
      requires Valid() && nid < totalNodes
      modifies this
      ensures Valid()
      ensures LocalSpec(old(State()).(dispatched := old(dispatched) + [Pending(nid, request)]), State(), nid, request, pageSize, st)
      ensures Follows(old(State()), State())
      ensures dispatched == old(dispatched) + [Pending(nid, request)]
    {
      dispatched := dispatched + [Pending(nid, request)];
      ghost var work := Work();
      match Route(request.text) {
        case CloseH => st := Close(nid);
        case AllocateH => st := Allocate(nid, request);
        case FaultH => st := Fault(nid, request);
        case InvalidH => st := Fatal(InvalidMessage);
        case BarrierH => st := Fatal(NestedCollective);
        case CastH => st := Fatal(NestedCollective);
      }
      assert Work() <= work;
      LocalFollows(old(State()), State(), nid, request, pageSize, st);
    }

    /** One pass of `node_wait`'s innermost loop, for node `i`: receive the next message
        and, unless it holds `keyword`, execute it. */
    method AwaitOne(i: nat, keyword: string) returns (st: Status, m: TextMsg, found: bool)
      requires Valid() && i < totalNodes
      modifies this
      ensures Valid()
      ensures Follows(old(State()), State())
      ensures st == Ok ==> old(Pos(i)) < Pos(i) && m == streams[i][old(Pos(i))] && Work() < old(Work())
      ensures st == Ok ==> (found <==> Contains(m.text, keyword))
      ensures st == Ok && found ==> Pos(i) == old(Pos(i)) + 1 && dispatched == old(dispatched)
      ensures st == Ok && !found ==> dispatched == old(dispatched) + [Pending(i, m)]
    {
      ReadMsgNext(streams, inbox, i);
      var ok;
      ok, m := Recv(i);
      if !ok {
        // recv failed: the zeroed buffer is executed and refused by the router
        return Fatal(WaitFailed), m, false;
      }
      found := Contains(m.text, keyword);
      if found {
        return Ok, m, found;
      }
      ghost var prior := State();
      st := ExecuteLocal(i, m);
      FollowsTrans(old(State()), prior, State());
      assert Kept(prior, State(), i);
    }

    /** One round of `node_wait`'s inner loop, for node `i`: receive and execute its
        messages until one holds `keyword`, which is returned. `got` is what was read:
        the messages of node `i`'s stream from the first unread one to the keyword's, in
        order (a fault handler relaying a page from node `i` may take the ones between). */
    method AwaitNode(i: nat, keyword: string) returns (st: Status, m: TextMsg, ghost got: seq<TextMsg>, ghost cuts: seq<int>)
      requires Valid() && i < totalNodes
      modifies this
      ensures Valid()
      ensures Follows(old(State()), State())
      ensures st == Ok ==> Awaited(got, keyword) && m == got[|got| - 1]
      ensures st == Ok ==> ReadSpan(streams[i], old(Pos(i)), Pos(i), got, cuts)
      ensures st == Ok ==> dispatched == old(dispatched) + Tag(i, Front(got))
    {
      got, cuts := [], [];
      ghost var b := Pos(i);
      while true
        invariant Valid()
        invariant Follows(old(State()), State())
        invariant forall k :: 0 <= k < |got| ==> !Contains(got[k].text, keyword)
        invariant dispatched == old(dispatched) + Tag(i, got)
        invariant b <= Pos(i) && Segments(streams[i][b..Pos(i)], got, cuts)
        decreases Work()
      {
        ghost var p, prior := Pos(i), State();
        var found;
        st, m, found := AwaitOne(i, keyword);
        FollowsTrans(old(State()), prior, State());
        if st != Ok {
          return;
        }
        SegmentsGrow(streams[i], b, p, Pos(i), got, cuts, m);
        if found {
          assert Front(got + [m]) == got;
          got, cuts := got + [m], cuts + [p - b];
          return;
        }
        assert Tag(i, got + [m]) == Tag(i, got) + [Pending(i, m)];
        got, cuts := got + [m], cuts + [p - b];
      }
    }

    /** The body of `node_wait`'s loop for node `i`: skip the initiator, otherwise
        wait on node `i` and capture the value in cast mode from `root`; what the wait has
        done so far (since `s0`) is carried over to node `i + 1`. */
    method WaitOn(i: nat, nid: nat, keyword: string, value0: int, root: int, value: int, ghost s0: Snapshot,
                  ghost drained: seq<seq<TextMsg>>, ghost log: seq<Pending>, ghost spans: seq<Span>)
      returns (st: Status, value': int, ghost drained': seq<seq<TextMsg>>, ghost log': seq<Pending>,
               ghost spans': seq<Span>)
      requires Valid() && nid < totalNodes && i < totalNodes
      requires WaitSoFar(s0, State(), streams, nid, keyword, root, value0, i, value, drained, log, spans)
      modifies this
      ensures Valid()
      ensures Follows(s0, State())
      ensures st == Ok ==> WaitSoFar(s0, State(), streams, nid, keyword, root, value0, i + 1, value', drained', log', spans')
    {
      ghost var got: seq<TextMsg> := [];
      ghost var sp := Span(0, 0, []);
      var m := NoText;
      st := Ok;
      if i != nid {
        assert Kept(s0, State(), i);
        ghost var b, prior := Pos(i), State();
        ghost var cuts;
        st, m, got, cuts := AwaitNode(i, keyword);
        FollowsTrans(s0, prior, State());
        if st != Ok {
          return st, value, drained, log, spans;
        }
        sp := Span(b, Pos(i), cuts);
      }
      value' := value;
      if i == root && i != nid && keyword != "barrier" {
        value' := m.addr;
      }
      WaitLogStep(drained, log, i, nid, keyword, got);
      CapturedStep(drained, value, i, nid, keyword, root, value0, got, value');
      ReadFromStreamsStep(streams, s0.inbox, drained, spans, i, nid, got, sp);
      log' := log + Tag(i, Front(got));
      ConcatAssoc(s0.dispatched, log, Tag(i, Front(got)));
      drained', spans' := drained[i := got], spans[i := sp];
    }

    /** `node_wait`: for every node but the initiator, in ascending order, receive and
        execute messages until one holds `keyword`; in cast mode (any keyword other than
        "barrier") the value of `root`'s matching message is captured. `drained[i]` is
        what was read from node `i` (where, `spans[i]`), `log` what was handed to the
        router. */
    method Wait(nid: nat, keyword: string, value0: int, root: int)
      returns (st: Status, value: int, ghost drained: seq<seq<TextMsg>>, ghost log: seq<Pending>, ghost spans: seq<Span>)
      requires Valid() && nid < totalNodes
      modifies this
      ensures Valid()
      ensures Follows(old(State()), State())
      ensures st == Ok ==> |drained| == totalNodes && dispatched == old(dispatched) + log
      ensures st == Ok ==> WaitLog(drained, log, totalNodes, nid, keyword)
      ensures st == Ok ==> ReadFromStreams(streams, old(inbox), drained, spans, totalNodes, nid)
      ensures st == Ok ==> Captured(drained, value, totalNodes, nid, keyword, root, value0)
    {
      value := value0;
      drained := seq(totalNodes, _ => []);
      spans := seq(totalNodes, _ => Span(0, 0, []));
      log := [];
      for i := 0 to totalNodes
        invariant Valid()
        invariant WaitSoFar(old(State()), State(), streams, nid, keyword, root, value0, i, value, drained, log, spans)
      {
        st, value, drained, log, spans := WaitOn(i, nid, keyword, value0, root, value, old(State()), drained, log, spans);
        if st != Ok {
          return;
        }
      }
      st := Ok;
    }

    /** The releases of a collective: `r` sent to every slot in ascending order. */
    method Release(r: Reply)
      modifies this
      ensures State() == old(State()).(outbox := old(outbox) + Broadcast(totalNodes, r))
    {
      for i := 0 to totalNodes
        invariant State() == old(State()).(outbox := old(outbox) + Broadcast(i, r))
      {
        assert Broadcast(i + 1, r) == Broadcast(i, r) + [Sent(i, r)];
        ConcatAssoc(old(outbox), Broadcast(i, r), [Sent(i, r)]);
        SendTo(i, r);
      }
    }

    /** `node_barrier`: wait for every other node's "barrier", then release every slot,
        the initiator included. Nothing is released when the wait fails. */
    method Barrier(nid: nat, request: TextMsg) returns (st: Status, ghost rv: Rendezvous)
      requires Valid() && nid < totalNodes
      modifies this
      ensures Valid()
      ensures CollectiveSpec(old(State()), State(), streams, nid, "barrier", 0, 0, st, rv)
    {
      var value;
      ghost var drained, log, spans;
      st, value, drained, log, spans := Wait(nid, "barrier", 0, 0);
      rv := Rendezvous(drained, log, spans, value, outbox);
      if st != Ok {
        return;
      }
      ghost var s1 := State();
      Release(BarrierAck);
      ShrinksTrans(old(State()), s1, State());
    }

    /** `node_cast`: wait for every other node's "cast", then send every slot the value:
        the root's, or the initiator's own when the root is the initiator (or no node). */
    method Cast(nid: nat, request: TextMsg) returns (st: Status, ghost rv: Rendezvous)
      requires Valid() && nid < totalNodes
      modifies this
      ensures Valid()
      ensures CollectiveSpec(old(State()), State(), streams, nid, "cast", request.root, request.addr, st, rv)
    {
      var address;
      ghost var drained, log, spans;
      st, address, drained, log, spans := Wait(nid, "cast", request.addr, request.root);
      rv := Rendezvous(drained, log, spans, address, outbox);
      if st != Ok {
        return;
      }
      ghost var s1 := State();
      Release(AddressReply(address));
      ShrinksTrans(old(State()), s1, State());
    }

    /** `node_execute`: route the request by the first keyword it contains and hand it
        over, recorded in `dispatched`, to that handler. */
    method Execute(nid: nat, request: TextMsg) returns (st: Status, ghost rv: Rendezvous)
      requires Valid() && nid < totalNodes
      modifies this
      ensures Valid()
      ensures ExecuteSpec(old(State()), State(), streams, nid, request, pageSize, st, rv)
    {
      rv := Rendezvous([], [], [], 0, []);
      match Route(request.text)
      case BarrierH =>
        dispatched := dispatched + [Pending(nid, request)];
        ghost var s1 := State();
        st, rv := Barrier(nid, request);
        ShrinksTrans(old(State()), s1, State());
      case CastH =>
        dispatched := dispatched + [Pending(nid, request)];
        ghost var s1 := State();
        st, rv := Cast(nid, request);
        ShrinksTrans(old(State()), s1, State());
      case _ =>
        st := ExecuteLocal(nid, request);
    }

    /** `node_execute` as the serving loop relies on it: the request is dispatched
        first, and no work is added. */
    method Dispatch(nid: nat, request: TextMsg) returns (st: Status, ghost rv: Rendezvous)
      requires Valid() && nid < totalNodes
      modifies this
      ensures Valid()
      ensures Shrinks(old(State()), State())
      ensures old(dispatched) + [Pending(nid, request)] <= dispatched
      ensures ExecuteSpec(old(State()), State(), streams, nid, request, pageSize, st, rv)
    {
      st, rv := Execute(nid, request);
    }

    /** A drain's turn: hand `p` to the router, which starts the next segment of what is
        dispatched since `d0`. */
    method DispatchLogged(p: Pending, ghost d0: seq<Pending>, ghost heads: seq<Pending>, ghost cuts: seq<int>)
      returns (st: Status, ghost cuts': seq<int>, ghost rv: Rendezvous)
      requires Valid() && 0 <= p.nid < totalNodes
      requires d0 <= dispatched && Segments(dispatched[|d0|..], heads, cuts)
      modifies this
      ensures Valid()
      ensures Shrinks(old(State()), State())
      ensures d0 <= dispatched && Segments(dispatched[|d0|..], heads + [p], cuts')
      ensures ExecuteSpec(old(State()), State(), streams, p.nid, p.request, pageSize, st, rv)
    {
      ghost var logged := dispatched;
      st, rv := Dispatch(p.nid, p.request);
      SegmentsExtend(d0, logged, dispatched, heads, cuts, p);
      cuts' := cuts + [|logged| - |d0|];
    }

    /** The queue drain of the serving loop, as evidently intended: execute the head,
        then dequeue it, until the queue is empty. Requests a fault handler queues on the
        way are executed in their turn. Each request it hands to the router (`heads`)
        starts a segment of what is dispatched meanwhile, in order; on success the queue
        it started with comes first, entry by entry. */
    method Drain() returns (st: Status, ghost heads: seq<Pending>, ghost cuts: seq<int>,
                            ghost before: Snapshot, ghost rv: Rendezvous)
      requires Valid()
      modifies this
      ensures Valid()
      ensures Total(inbox) <= old(Total(inbox) + |queue|)
      ensures old(dispatched) <= dispatched && Segments(dispatched[|old(dispatched)|..], heads, cuts)
      ensures st == Ok ==> queue == [] && old(queue) <= heads
      ensures st != Ok ==>
                heads != [] && heads[|heads| - 1].nid >= 0 &&
                ExecuteSpec(before, State(), streams, heads[|heads| - 1].nid, heads[|heads| - 1].request, pageSize, st, rv)
    {
      heads, cuts := [], [];
      before, rv := State(), Rendezvous([], [], [], 0, []);
      while queue != []
        invariant Valid()
        invariant Total(inbox) + |queue| <= old(Total(inbox) + |queue|)
        invariant old(queue) <= heads + queue
        invariant old(dispatched) <= dispatched && Segments(dispatched[|old(dispatched)|..], heads, cuts)
        decreases Total(inbox) + |queue|
      {
        var p := queue[0];
        ghost var queued, heads0 := queue, heads;
        before := State();
        st, cuts, rv := DispatchLogged(p, old(dispatched), heads, cuts);
        heads := heads + [p];
        if st != Ok {
          return;
        }
        ghost var after := queue;
        Dequeue();
        DrainStep(old(queue), heads0, queued, after);
      }
      st := Ok;
    }

    /** The queue drain as written at line 54: the loop variable is bound to the head
        once, so that request is handed to the router again for every entry dequeued. */
    method DrainAsWritten() returns (st: Status, ghost heads: seq<Pending>, ghost cuts: seq<int>)
      requires Valid()
      modifies this
      ensures Valid()
      ensures old(dispatched) <= dispatched && Segments(dispatched[|old(dispatched)|..], heads, cuts)
      ensures st == Ok ==> queue == [] && |heads| >= |old(queue)|
      ensures old(queue) != [] ==> RepeatsHead(heads, old(queue[0]))
      ensures old(queue) == [] ==> heads == []
    {
      heads, cuts := [], [];
      st := Ok;
      if queue == [] {
        return;
      }
      var msg := queue[0];
      while queue != []
        invariant Valid()
        invariant |heads| + |queue| >= |old(queue)|
        invariant RepeatsHead(heads, msg)
        invariant old(dispatched) <= dispatched && Segments(dispatched[|old(dispatched)|..], heads, cuts)
        decreases Total(inbox) + |queue|
      {
        ghost var rv;
        st, cuts, rv := DispatchLogged(msg, old(dispatched), heads, cuts);
        heads := heads + [msg];
        if st != Ok {
          return;
        }
        Dequeue();
      }
    }

    /** The serving loop's turn for an open slot `i`: read once and execute what was
        read, the next message of node `i`'s stream (at position `p`) or the zeroed
        buffer once there is none. */
    method ServeSlot(i: nat) returns (st: Status, ghost m: TextMsg, ghost p: int, ghost before: Snapshot,
                                      ghost rv: Rendezvous)
      requires Valid() && i < totalNodes && cSockets[i] > 0
      modifies this
      ensures Valid()
      ensures Shrinks(old(State()), State())
      ensures p == old(Pos(i)) && m == ReadMsg(streams[i], p)
      ensures old(dispatched) + [Pending(i, m)] <= dispatched
      ensures old(inbox[i]) != [] ==> m == old(inbox[i][0]) && before == old(State()).(inbox := old(inbox)[i := old(inbox[i])[1..]])
      ensures old(inbox[i]) == [] ==> m == NoText && before == old(State())
      ensures Shrinks(old(State()), before)
      ensures ExecuteSpec(before, State(), streams, i, m, pageSize, st, rv)
    {
      ReadMsgNext(streams, inbox, i);
      p := Pos(i);
      ghost var s0 := State();
      var ok, msg := Recv(i);
      before := State();
      st, rv := Dispatch(i, msg);
      ShrinksTrans(s0, before, State());
      m := msg;
    }

    /** The serving loop's turn for a ready, open slot `i`, with what the round has
        done so far (since `s0`) carried over to slot `i + 1`. */
    method ServeTurn(i: nat, ready: set<int>, ghost s0: Snapshot, ghost served: seq<nat>, ghost cuts: seq<int>,
                     ghost at: seq<int>)
      returns (st: Status, ghost served': seq<nat>, ghost cuts': seq<int>, ghost at': seq<int>,
               ghost before: Snapshot, ghost rv: Rendezvous)
      requires Valid() && i < totalNodes && i in ready && cSockets[i] > 0
      requires RoundSoFar(s0, State(), streams, ready, i, served, cuts, at)
      modifies this
      ensures Valid()
      ensures RoundSoFar(s0, State(), streams, ready, i + 1, served', cuts', at')
      ensures served' == served + [i] && at' == at + [old(Pos(i))]
      ensures Shrinks(s0, before)
      ensures ExecuteSpec(before, State(), streams, i, ReadAt(streams, i, old(Pos(i))), pageSize, st, rv)
    {
      ghost var s1, logged := State(), dispatched;
      ghost var m, p;
      st, m, p, before, rv := ServeSlot(i);
      assert Kept(s0, s1, i);
      ShrinksTrans(s0, s1, State());
      ShrinksTrans(s0, s1, before);
      forall j | 0 <= j < i && j in ready && j !in served + [i] ensures cSockets[j] <= 0 {
        assert Kept(s1, State(), j);
      }
      SegmentsExtend(s0.dispatched, logged, dispatched, HeadsOf(streams, served, at), cuts, Pending(i, m));
      RoundServedStep(streams, s0.inbox, ready, i, served, at, m, p);
      served', cuts', at' := served + [i], cuts + [|logged| - |s0.dispatched|], at + [p];
    }

    /** One pass of the serving loop after `select`: every slot in `ready` whose socket
        is still open is read once and its request executed, in ascending slot order.
        A connection with nothing left to read yields the zeroed buffer, which the router
        refuses. `served` lists the slots read and `at` the position of each in its node's
        stream; each request so read starts a segment of what is dispatched meanwhile. */
    method ServeRound(ready: set<int>)
      returns (st: Status, ghost served: seq<nat>, ghost cuts: seq<int>, ghost at: seq<int>,
               ghost before: Snapshot, ghost rv: Rendezvous)
      requires Valid() && queue == []
      modifies this
      ensures Valid()
      ensures Shrinks(old(State()), State())
      ensures RoundServed(streams, old(inbox), ready, totalNodes, served, at)
      ensures Segments(dispatched[|old(dispatched)|..], HeadsOf(streams, served, at), cuts)
      ensures st == Ok ==> forall i :: 0 <= i < totalNodes && i in ready && i !in served ==> cSockets[i] <= 0
      ensures st != Ok ==> FailedAt(old(State()), before, State(), streams, served, at, pageSize, st, rv)
    {
      st := Ok;
      served, cuts, at := [], [], [];
      before, rv := State(), Rendezvous([], [], [], 0, []);
      for i := 0 to totalNodes
        invariant Valid() && RoundSoFar(old(State()), State(), streams, ready, i, served, cuts, at) && st == Ok
      {
        if i in ready && cSockets[i] > 0 {
          st, served, cuts, at, before, rv := ServeTurn(i, ready, old(State()), served, cuts, at);
          if st != Ok {
            RoundServedWithin(streams, old(inbox), ready, i + 1, totalNodes, served, at);
            return;
          }
        } else {
          RoundServedWithin(streams, old(inbox), ready, i, i + 1, served, at);
        }
      }
    }

    /** The serving loop of `allocate`: while any node runs, drain the queue, wait for
        the next set of ready sockets (`rounds`, in order) and serve them. A failure ends
        the loop with the status the router gave the last request handed to it (`request`
        from node `nid`, whose handler ran from `before`). */
    method Serve(rounds: seq<set<int>>)
      returns (outcome: Outcome, ghost before: Snapshot, ghost nid: nat, ghost request: TextMsg, ghost rv: Rendezvous)
      requires Valid()
      modifies this
      ensures Valid()
      ensures outcome == Finished ==> nNodes <= 0
      ensures outcome.Failed? ==> ExecuteSpec(before, State(), streams, nid, request, pageSize, Fatal(outcome.failure), rv)
    {
      before, nid, request, rv := State(), 0, NoText, Rendezvous([], [], [], 0, []);
      var r := 0;
      while nNodes > 0
        invariant Valid() && r <= |rounds|
        decreases |rounds| - r
      {
        var st;
        ghost var heads, cuts, served, at;
        st, heads, cuts, before, rv := Drain();
        if st != Ok {
          nid, request := heads[|heads| - 1].nid, heads[|heads| - 1].request;
          return Failed(st.failure), before, nid, request, rv;
        }
        if r == |rounds| {
          outcome := OutOfInput;
          return;
        }
        st, served, cuts, at, before, rv := ServeRound(rounds[r]);
        if st != Ok {
          nid := served[|served| - 1];
          request := ReadAt(streams, nid, at[|at| - 1]);
          return Failed(st.failure), before, nid, request, rv;
        }
        r := r + 1;
      }
      outcome := Finished;
    }

    /** The accept phase of `allocate`: register connections in arrival order until
        `totalNodes` nodes run. `clients[k]` is what the k-th `accept` returned, `firsts[k]`
        that connection's first message. */
    method AcceptAll(clients: seq<int>, firsts: seq<TextMsg>) returns (st: Status)
      requires Valid() && 0 <= nNodes <= totalNodes && |firsts| == |clients|
      modifies this
      ensures Valid()
      ensures st == Ok ==> nNodes == totalNodes && totalNodes - old(nNodes) <= |clients|
      ensures st == Ok ==> forall j :: old(nNodes) <= j < totalNodes ==> cSockets[j] == clients[j - old(nNodes)]
      ensures forall j :: 0 <= j < old(nNodes) ==> cSockets[j] == old(cSockets[j])
    {
      var k := 0;
      while nNodes < totalNodes
        invariant Valid() && 0 <= k <= |clients| && nNodes == old(nNodes) + k && nNodes <= totalNodes
        invariant forall j :: old(nNodes) <= j < nNodes ==> cSockets[j] == clients[j - old(nNodes)]
        invariant forall j :: 0 <= j < old(nNodes) ==> cSockets[j] == old(cSockets[j])
        decreases totalNodes - nNodes
      {
        if k == |clients| {
          return Fatal(NoConnection);
        }
        if clients[k] < 0 {
          return Fatal(AcceptFailed);
        }
        st := Init(clients[k], firsts[k]);
        if st != Ok {
          return;
        }
        k := k + 1;
      }
      st := Ok;
    }

    /** `allocate`: the accept phase, then the serving loop. */
    method Run(clients: seq<int>, firsts: seq<TextMsg>, rounds: seq<set<int>>) returns (outcome: Outcome)
      requires Valid() && 0 <= nNodes <= totalNodes && |firsts| == |clients|
      modifies this
      ensures Valid()
      ensures outcome == Finished ==> nNodes <= 0
    {
      var st := AcceptAll(clients, firsts);
      if st != Ok {
        return Failed(st.failure);
      }
      ghost var before, nid, request, rv;
      outcome, before, nid, request, rv := Serve(rounds);
    }
  }

  lemma {:induction false} FirstPageAt(ms: seq<TextMsg>, k: nat)
    requires k < |ms| && Contains(ms[k].text, "page: ")
    requires forall j :: 0 <= j < k ==> !Contains(ms[j].text, "page: ")
    ensures FirstPage(ms) == Some(k)
  {
    if k > 0 {
      FirstPageAt(ms[1..], k - 1);
    }
  }
}
