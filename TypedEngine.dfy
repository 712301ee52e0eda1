/** The typed-message iteration of the allocator: the global page table, socket slots and
    counters, the `switch` router over message types, node registration and release, the
    bump-pointer allocator and the barrier/broadcast rendezvous. A node's connection is
    the sequence of messages it has still to send (`inbox`, by nid); every message the
    allocator sends is appended to `outbox`. */
module TypedEngine {
  import opened Common
  import opened Protocol
  import Codec

  /** `struct memory_page`: the writer's nid (-1 for none) and one read flag per node. */
  datatype MemoryPage = MemoryPage(writer: int, readers: seq<int>)

  const NO_WRITER: int := -1

  /** The handlers `node_execute` can hand a message to. */
  datatype Handler = CloseH | BarrierH | AllocateH | CastH | FaultH | InvalidH

  /** `node_execute`'s `switch` on the message type. */
  function Route(t: int): Handler {
    if t == SM_EXIT then CloseH
    else if t == SM_BARR then BarrierH
    else if t == SM_ALOC then AllocateH
    else if t == SM_CAST then CastH
    else if t == SM_READ || t == SM_WRIT then FaultH
    else InvalidH
  }

  /** Each handler serves exactly its request types, read and write faults share one, and
      everything else (`SM_INIT`, every reply, unknown codes) is an error. */
  lemma RouteTable(t: int)
    ensures Route(t) == CloseH <==> t == SM_EXIT
    ensures Route(t) == BarrierH <==> t == SM_BARR
    ensures Route(t) == AllocateH <==> t == SM_ALOC
    ensures Route(t) == CastH <==> t == SM_CAST
    ensures Route(t) == FaultH <==> t == SM_READ || t == SM_WRIT
    ensures Route(t) != InvalidH <==> IsRequest(t) && t != SM_INIT
  {
  }

  datatype Failure =
    | InvalidInit | InvalidMessage | NestedCollective | UnknownNode | ShortBody
    | NoFaultHandler | RecvFailed | AcceptFailed | NoConnection

  datatype Status = Ok | Fatal(failure: Failure)

  datatype Outcome = Finished | Failed(failure: Failure) | OutOfInput

  /** A message sent on slot `slot`'s socket. */
  datatype Sent = Sent(slot: int, msg: Msg)

  /** A region handed out by the bump allocator: a global offset and a length. */
  datatype Alloc = Alloc(offset: int, size: nat)

  // ---------------------------------------------------------------- the bump pointer

  /** The global offset of (`page`, `offset`). */
  function Position(page: int, offset: int): int {
    page * SM_PAGESIZE + offset
  }

  /** `sm_current_page`/`sm_current_offset` after an allocation of `size`, as evidently
      intended: the offset's overflow carries into the page. */
  function Bump(page: int, offset: int, size: nat): (r: (int, int))
    requires page >= 0 && 0 <= offset < SM_PAGESIZE
    ensures r.0 >= page && 0 <= r.1 < SM_PAGESIZE
    ensures Position(r.0, r.1) == Position(page, offset) + size
  {
    var p := Position(page, offset) + size;
    (p / SM_PAGESIZE, p % SM_PAGESIZE)
  }

  /** The same update as written at node_functions.c:150-151: the page advances by whole
      pages of the size only, and the offset wraps without carrying. */
  function BumpAsWritten(page: int, offset: int, size: nat): (r: (int, int))
    requires page >= 0 && 0 <= offset < SM_PAGESIZE
    ensures r.0 >= page && 0 <= r.1 < SM_PAGESIZE
  {
    (page + size / SM_PAGESIZE, (offset + size) % SM_PAGESIZE)
  }

  /** The regions the as-written update hands out for `sizes`, in order. */
  function GrantsAsWritten(page: int, offset: int, sizes: seq<nat>): (g: seq<Alloc>)
    requires page >= 0 && 0 <= offset < SM_PAGESIZE
    ensures |g| == |sizes|
    decreases |sizes|
  {
    if sizes == [] then []
    else
      var next := BumpAsWritten(page, offset, sizes[0]);
      [Alloc(Position(page, offset), sizes[0])] + GrantsAsWritten(next.0, next.1, sizes[1..])
  }

  /** A run of as-written allocations of SM_ALOC bytes each (the size every ALOC request
      reads as written, node_functions.c:131) from page 0: until the offset wraps, the
      k-th region starts 6k bytes further on, still on page 0. */
  lemma {:induction false} AsWrittenRun(offset: int, sizes: seq<nat>, k: nat)
    requires 0 <= offset && offset + SM_ALOC * k < SM_PAGESIZE && k <= |sizes|
    requires forall j :: 0 <= j < |sizes| ==> sizes[j] == SM_ALOC
    ensures GrantsAsWritten(0, offset, sizes)[k..] == GrantsAsWritten(0, offset + SM_ALOC * k, sizes[k..])
    decreases k
  {
    if k > 0 {
      assert BumpAsWritten(0, offset, sizes[0]) == (0, offset + SM_ALOC);
      AsWrittenRun(offset + SM_ALOC, sizes[1..], k - 1);
      assert sizes[1..][k - 1..] == sizes[k..];
      assert GrantsAsWritten(0, offset, sizes)[k..] == GrantsAsWritten(0, offset + SM_ALOC, sizes[1..])[k - 1..];
    }
  }

  /** 172 ALOC requests from a fresh allocator, whatever sizes they ask for: as written
      each advances the offset by 6 without leaving page 0, so the 172nd region starts at
      byte 2, inside the first region [0, 6). */
  lemma AsWrittenGrantsOverlap(sizes: seq<nat>)
    requires |sizes| == 172 && forall j :: 0 <= j < |sizes| ==> sizes[j] == SM_ALOC
    ensures var g := GrantsAsWritten(0, 0, sizes);
            g[171].offset == 2 && g[0].offset <= g[171].offset < g[0].offset + g[0].size
  {
    AsWrittenRun(0, sizes, 170);
    assert BumpAsWritten(0, 1020, SM_ALOC) == (0, 2);
    assert GrantsAsWritten(0, 1020, sizes[170..])[1] == GrantsAsWritten(0, 2, sizes[171..])[0];
  }

  /** No two regions overlap. */
  ghost predicate Disjoint(grants: seq<Alloc>) {
    forall j, k :: 0 <= j < k < |grants| ==> grants[j].offset + grants[j].size <= grants[k].offset
  }

  /** Every region ends at or before `pos`. */
  ghost predicate Below(grants: seq<Alloc>, pos: int) {
    forall k :: 0 <= k < |grants| ==> grants[k].offset + grants[k].size <= pos
  }

  /** With the carry, the region handed out at the bump pointer overlaps none before it,
      and the pointer moves past it. */
  lemma BumpKeepsDisjoint(grants: seq<Alloc>, page: int, offset: int, size: nat)
    requires page >= 0 && 0 <= offset < SM_PAGESIZE
    requires Disjoint(grants) && Below(grants, Position(page, offset))
    ensures var next := Bump(page, offset, size);
            var grants' := grants + [Alloc(Position(page, offset), size)];
            Disjoint(grants') && Below(grants', Position(next.0, next.1))
  {
    var grants' := grants + [Alloc(Position(page, offset), size)];
    forall j, k | 0 <= j < k < |grants'|
      ensures grants'[j].offset + grants'[j].size <= grants'[k].offset
    {
      if k < |grants| {
        assert grants'[j] == grants[j] && grants'[k] == grants[k];
      } else {
        assert grants'[j] == grants[j];
      }
    }
  }

  // ---------------------------------------------------------------- body fields as written

  /** `request[0]` in `node_allocate` as written: `request->buffer` holds the header too,
      so byte 0 is the message type. */
  function AllocSizeAsWritten(m: Msg): int
    requires WellFormed(m)
  {
    SignedChar(Codec.Encode(m)[0])
  }

  /** `request[0]` and `request[1]` in `node_cast` as written: the type and the length. */
  function CastFieldsAsWritten(m: Msg): (int, int)
    requires WellFormed(m)
  {
    (SignedChar(Codec.Encode(m)[0]), SignedChar(Codec.Encode(m)[1]))
  }

  /** Whatever size a node asks for, the as-written handler reads 6 (`SM_ALOC`); whatever
      root and value it names, the cast reads 8 (`SM_CAST`) and the length. The body
      fields are where the message format puts them. */
  lemma AsWrittenFieldsAreHeader(nid: int, size: Byte, root: Byte, value: Byte)
    requires IsChar(nid)
    ensures AllocSizeAsWritten(Make(SM_ALOC, nid, ByteBody(size))) == SM_ALOC
    ensures CastFieldsAsWritten(Make(SM_CAST, nid, CastBody(root, value))) == (SM_CAST, HEADER_LEN + 2)
    ensures AllocSize(Make(SM_ALOC, nid, ByteBody(size))) == Some(size)
    ensures CastFields(Make(SM_CAST, nid, CastBody(root, value))) == Some((root, value))
  {
    var a := Make(SM_ALOC, nid, ByteBody(size));
    var c := Make(SM_CAST, nid, CastBody(root, value));
    assert Codec.Encode(a)[0] == SM_ALOC;
    assert Codec.Encode(c)[..2] == [SM_CAST, HEADER_LEN + 2];
  }

  // ---------------------------------------------------------------- the rendezvous

  /** `node_wait`'s test as written at node_functions.c:87-89: a barrier ends at a barrier
      reply, a cast at a cast reply. */
  predicate EndsWaitAsWritten(mode: int, t: int) {
    (mode == SM_BARR && t == SM_BARR_REPLY) || (mode == SM_CAST && t == SM_CAST_REPLY)
  }

  /** The test as evidently intended: the wait ends at the node's own request of the mode. */
  predicate EndsWait(mode: int, t: int) {
    t == mode
  }

  /** Nodes send `SM_BARR` and `SM_CAST` (sm.c:249, 270): as written neither ends the
      wait, and the router hands them to a nested barrier or cast instead. */
  lemma WaitAsWrittenMissesRequests()
    ensures !EndsWaitAsWritten(SM_BARR, SM_BARR) && Route(SM_BARR) == BarrierH
    ensures !EndsWaitAsWritten(SM_CAST, SM_CAST) && Route(SM_CAST) == CastH
    ensures EndsWait(SM_BARR, SM_BARR) && EndsWait(SM_CAST, SM_CAST)
  {
  }

  /** What `node_wait` read from one node: messages of other types, then one of `mode`. */
  ghost predicate Awaited(ms: seq<Msg>, mode: int) {
    && ms != []
    && EndsWait(mode, ms[|ms| - 1].mtype)
    && forall k :: 0 <= k < |ms| - 1 ==> !EndsWait(mode, ms[k].mtype)
  }

  /** Nothing read from the initiator; the mode's request found at every other node below `n`. */
  ghost predicate WaitedFor(drained: seq<seq<Msg>>, n: nat, nid: nat, mode: int)
    decreases n
  {
    n <= |drained| &&
    (n == 0 ||
     (WaitedFor(drained, n - 1, nid, mode) &&
      if n - 1 == nid then drained[n - 1] == [] else Awaited(drained[n - 1], mode)))
  }

  lemma {:induction false} WaitedForPrefix(drained: seq<seq<Msg>>, n: nat, nid: nat, mode: int, i: nat, x: seq<Msg>)
    requires n <= i < |drained| && WaitedFor(drained, n, nid, mode)
    ensures WaitedFor(drained[i := x], n, nid, mode)
  {
    if n > 0 {
      WaitedForPrefix(drained, n - 1, nid, mode, i, x);
      assert drained[i := x][n - 1] == drained[n - 1];
    }
  }

  /** Node by node: the initiator's entry is empty and every other one ends at the mode. */
  lemma {:induction false} WaitedForMeans(drained: seq<seq<Msg>>, n: nat, nid: nat, mode: int)
    requires WaitedFor(drained, n, nid, mode)
    ensures nid < n ==> drained[nid] == []
    ensures forall j :: 0 <= j < n && j != nid ==> Awaited(drained[j], mode)
  {
    if n > 0 {
      WaitedForMeans(drained, n - 1, nid, mode);
    }
  }

  /** The value a cast request carries, or `prior` when its body is too short. */
  function CastValueOr(m: Msg, prior: int): int {
    match CastFields(m)
    case Some(f) => f.1
    case None => prior
  }

  /** The broadcast value after nodes `0..n)`: the root's cast value, or the initiator's
      own when the root is the initiator or no node below `n`. */
  ghost predicate Captured(drained: seq<seq<Msg>>, value: int, n: nat, nid: nat, mode: int, root: int, value0: int)
    requires n <= |drained|
  {
    value == if mode == SM_CAST && 0 <= root < n && root != nid && drained[root] != []
             then CastValueOr(drained[root][|drained[root]| - 1], value0) else value0
  }

  /** The messages `node_wait` handed to the router while reading nodes `0..n)`: all
      that each one sent before its awaited request, node by node. */
  ghost function Executed(drained: seq<seq<Msg>>, n: nat): seq<Msg>
    requires n <= |drained|
  {
    if n == 0 then [] else Executed(drained, n - 1) + Front(drained[n - 1])
  }

  lemma {:induction false} ExecutedPrefix(drained: seq<seq<Msg>>, n: nat, i: nat, x: seq<Msg>)
    requires n <= i < |drained|
    ensures Executed(drained[i := x], n) == Executed(drained, n)
  {
    if n > 0 {
      ExecutedPrefix(drained, n - 1, i, x);
      assert drained[i := x][n - 1] == drained[n - 1];
    }
  }

  /** One more node of the wait: its entry becomes `got`, nothing for the initiator and
      up to its awaited request for every other node, and the root's value is captured. */
  lemma WaitStep(drained: seq<seq<Msg>>, i: nat, nid: nat, mode: int, root: int, value0: int, value: int,
                 got: seq<Msg>, log0: seq<Msg>, log: seq<Msg>)
    requires i < |drained| && drained[i] == []
    requires WaitedFor(drained, i, nid, mode) && Captured(drained, value, i, nid, mode, root, value0)
    requires log == log0 + Executed(drained, i)
    requires if i == nid then got == [] else Awaited(got, mode)
    ensures var d := drained[i := got];
            var value' := if mode == SM_CAST && i == root && i != nid then CastValueOr(got[|got| - 1], value) else value;
            && WaitedFor(d, i + 1, nid, mode) && Captured(d, value', i + 1, nid, mode, root, value0)
            && log + Front(got) == log0 + Executed(d, i + 1)
  {
    var d := drained[i := got];
    WaitedForPrefix(drained, i, nid, mode, i, got);
    ExecutedPrefix(drained, i, i, got);
    assert Executed(d, i + 1) == Executed(d, i) + Front(got);
    ConcatAssoc(log0, Executed(drained, i), Front(got));
  }

  /** The replies of a collective: `m` to every slot 0..n-1, in order. */
  function Broadcast(n: nat, m: Msg): seq<Sent> {
    seq(n, i => Sent(i, m))
  }

  /** Connection `j` held `before[j]`, delivered `drained[j]` and still holds `after[j]`. */
  ghost predicate Consumed(before: seq<seq<Msg>>, drained: seq<seq<Msg>>, after: seq<seq<Msg>>) {
    && |before| == |drained| == |after|
    && forall j :: 0 <= j < |before| ==> before[j] == drained[j] + after[j]
  }

  /** `node_wait` up to node `i` of `n`: what it read from each node (`drained`, from
      `inbox0` to `inbox`), what it handed to the router and the value it captured. */
  ghost predicate WaitSoFar(inbox0: seq<seq<Msg>>, drained: seq<seq<Msg>>, inbox: seq<seq<Msg>>,
                            outbox0: seq<Sent>, outbox: seq<Sent>, executed0: seq<Msg>, executed: seq<Msg>,
                            i: nat, n: nat, nid: nat, mode: int, root: int, value0: int, value: int) {
    && |drained| == n && Consumed(inbox0, drained, inbox)
    && (forall j :: i <= j < n ==> drained[j] == [])
    && PointSends(outbox0, outbox)
    && WaitedFor(drained, i, nid, mode)
    && Captured(drained, value, i, nid, mode, root, value0)
    && executed == executed0 + Executed(drained, i)
  }

  /** Only connection `i` was read, and it delivered `got`. */
  ghost predicate ReadOnly(before: seq<seq<Msg>>, got: seq<Msg>, after: seq<seq<Msg>>, i: nat) {
    && i < |before| == |after|
    && after == before[i := after[i]]
    && before[i] == got + after[i]
  }

  lemma ReadOnlyStep(before: seq<seq<Msg>>, got: seq<Msg>, mid: seq<seq<Msg>>, m: Msg, after: seq<seq<Msg>>, i: nat)
    requires ReadOnly(before, got, mid, i)
    requires i < |mid| && mid[i] != [] && m == mid[i][0] && after == mid[i := mid[i][1..]]
    ensures ReadOnly(before, got + [m], after, i)
  {
    assert mid[i] == [m] + after[i];
  }

  /** Reading `got` off connection `i`, whose entry is still empty, extends `drained`. */
  lemma ConsumedStep(before: seq<seq<Msg>>, drained: seq<seq<Msg>>, mid: seq<seq<Msg>>, got: seq<Msg>, after: seq<seq<Msg>>, i: nat)
    requires Consumed(before, drained, mid) && i < |drained| && drained[i] == []
    requires ReadOnly(mid, got, after, i)
    ensures Consumed(before, drained[i := got], after)
  {
    forall j | 0 <= j < |before| ensures before[j] == drained[i := got][j] + after[j] {
      if j == i {
        assert before[j] == [] + mid[j];
      }
    }
  }

  /** A reply a handler sends to its requester alone. */
  predicate IsPointReply(s: Sent) {
    s.msg.mtype == SM_EXIT_REPLY || s.msg.mtype == SM_ALOC_REPLY
  }

  /** `after` is `before` followed by point replies only: no collective was released. */
  ghost predicate PointSends(before: seq<Sent>, after: seq<Sent>) {
    before <= after && forall k :: |before| <= k < |after| ==> IsPointReply(after[k])
  }

  lemma PointSendsTrans(a: seq<Sent>, b: seq<Sent>, c: seq<Sent>)
    requires PointSends(a, b) && PointSends(b, c)
    ensures PointSends(a, c)
  {
  }

  predicate AllOk(s: seq<Status>) {
    forall k :: 0 <= k < |s| ==> s[k] == Ok
  }

  /** A serving turn that records `st`, or ends on a failed read without a status,
      keeps every status but the last one Ok, and the last one is the turn's failure. */
  lemma TurnStatuses(statuses1: seq<Status>, statuses: seq<Status>, st: Status)
    requires AllOk(statuses1)
    requires statuses == statuses1 + [st] || (st == Fatal(RecvFailed) && statuses == statuses1)
    ensures statuses1 <= statuses && AllOk(Front(statuses))
    ensures st == Ok ==> AllOk(statuses)
    ensures st != Ok && statuses != [] && statuses[|statuses| - 1] != Ok ==> statuses[|statuses| - 1] == st
    ensures st != Ok && AllOk(statuses) ==> st == Fatal(RecvFailed)
  {
    if statuses != statuses1 {
      assert Front(statuses) == statuses1;
    }
  }

  /** `t` is what is left of `s` once messages were taken off its front. */
  ghost predicate IsSuffix(s: seq<Msg>, t: seq<Msg>) {
    |t| <= |s| && t == s[|s| - |t|..]
  }

  /** From `a` to `b` every connection only lost messages off its front. */
  ghost predicate Shrunk(a: seq<seq<Msg>>, b: seq<seq<Msg>>) {
    |a| == |b| && forall j :: 0 <= j < |a| ==> IsSuffix(a[j], b[j])
  }

  lemma ShrunkTrans(a: seq<seq<Msg>>, b: seq<seq<Msg>>, c: seq<seq<Msg>>)
    requires Shrunk(a, b) && Shrunk(b, c)
    ensures Shrunk(a, c)
  {
    forall j | 0 <= j < |a| ensures IsSuffix(a[j], c[j]) {
      assert IsSuffix(a[j], b[j]) && IsSuffix(b[j], c[j]);
    }
  }

  lemma ShrunkRefl(a: seq<seq<Msg>>)
    ensures Shrunk(a, a)
  {
    forall j | 0 <= j < |a| ensures IsSuffix(a[j], a[j]) {
      assert a[j][0..] == a[j];
    }
  }

  /** What a wait read off the connections leaves each one a suffix of what it held. */
  lemma ConsumedShrunk(before: seq<seq<Msg>>, drained: seq<seq<Msg>>, after: seq<seq<Msg>>)
    requires Consumed(before, drained, after)
    ensures Shrunk(before, after)
  {
    forall j | 0 <= j < |before| ensures IsSuffix(before[j], after[j]) {
      assert before[j] == drained[j] + after[j];
      assert before[j][|drained[j]|..] == after[j];
    }
  }

  /** From `a` to `b` each socket slot kept its value or was zeroed by a close. */
  ghost predicate OnlyClosed(a: seq<int>, b: seq<int>) {
    |a| == |b| && forall j :: 0 <= j < |a| ==> b[j] == a[j] || b[j] == 0
  }

  lemma OnlyClosedTrans(a: seq<int>, b: seq<int>, c: seq<int>)
    requires OnlyClosed(a, b) && OnlyClosed(b, c)
    ensures OnlyClosed(a, c)
  {
  }

  /** How the router answers `m` whatever state it meets: an unknown sender, a type
      without a handler and a page fault are fatal, a close succeeds, an allocate
      succeeds unless its size byte is missing, and a cast without its two body bytes
      fails on them. */
  predicate Answers(n: nat, m: Msg, st: Status) {
    && (!(0 <= m.nid < n) ==> st == Fatal(UnknownNode))
    && (Route(m.mtype) in {InvalidH, FaultH} ==> st.Fatal?)
    && (0 <= m.nid < n && Route(m.mtype) == CloseH ==> st == Ok)
    && (0 <= m.nid < n && Route(m.mtype) == AllocateH ==> st == Ok || (st == Fatal(ShortBody) && AllocSize(m).None?))
    && (0 <= m.nid < n && Route(m.mtype) == CastH && CastFields(m).None? ==> st == Fatal(ShortBody))
  }

  /** The `k`-th message the serving loop read: what slot `slots[k]`'s connection held at
      position `at[k]` when it stood at `inbox0`, since taken off it (`inbox` is shorter),
      and answered with `sts[k]`. */
  ghost predicate TurnRead(inbox0: seq<seq<Msg>>, inbox: seq<seq<Msg>>, n: nat, slots: seq<nat>, at: seq<int>,
                           msgs: seq<Msg>, sts: seq<Status>, k: int)
    requires 0 <= k < |slots| == |at| == |msgs| == |sts| && |inbox0| == |inbox|
  {
    && slots[k] < n && slots[k] < |inbox0|
    && 0 <= at[k] < |inbox0[slots[k]]|
    && msgs[k] == inbox0[slots[k]][at[k]]
    && |inbox[slots[k]]| < |inbox0[slots[k]]| - at[k]
    && Answers(n, msgs[k], sts[k])
  }

  /** Every message the serving loop read, as TurnRead describes it. */
  ghost predicate ServedFrom(inbox0: seq<seq<Msg>>, inbox: seq<seq<Msg>>, n: nat, slots: seq<nat>, at: seq<int>,
                             msgs: seq<Msg>, sts: seq<Status>) {
    && |slots| == |at| == |msgs| == |sts| && |inbox0| == |inbox|
    && forall k :: 0 <= k < |slots| ==> TurnRead(inbox0, inbox, n, slots, at, msgs, sts, k)
  }

  /** Connections that lose more messages keep what was read earlier read. */
  lemma ServedFromShrunk(inbox0: seq<seq<Msg>>, mid: seq<seq<Msg>>, inbox: seq<seq<Msg>>, n: nat,
                         slots: seq<nat>, at: seq<int>, msgs: seq<Msg>, sts: seq<Status>)
    requires ServedFrom(inbox0, mid, n, slots, at, msgs, sts) && Shrunk(mid, inbox)
    ensures ServedFrom(inbox0, inbox, n, slots, at, msgs, sts)
  {
    forall k | 0 <= k < |slots| ensures TurnRead(inbox0, inbox, n, slots, at, msgs, sts, k) {
      assert TurnRead(inbox0, mid, n, slots, at, msgs, sts, k);
      assert IsSuffix(mid[slots[k]], inbox[slots[k]]);
    }
  }

  /** Reading the head of connection `i` (from `mid` to `popped`) and executing it with
      result `st` (on to `inbox`) adds one read at `i`'s position since `inbox0`. */
  lemma ServedFromStep(inbox0: seq<seq<Msg>>, mid: seq<seq<Msg>>, popped: seq<seq<Msg>>, inbox: seq<seq<Msg>>,
                       n: nat, slots: seq<nat>, at: seq<int>, msgs: seq<Msg>, sts: seq<Status>, i: nat, st: Status)
    requires ServedFrom(inbox0, mid, n, slots, at, msgs, sts) && Shrunk(inbox0, mid)
    requires i < n && i < |mid| && mid[i] != [] && popped == mid[i := mid[i][1..]] && Shrunk(popped, inbox)
    requires Answers(n, mid[i][0], st)
    ensures Shrunk(inbox0, inbox)
    ensures ServedFrom(inbox0, inbox, n, slots + [i], at + [|inbox0[i]| - |mid[i]|], msgs + [mid[i][0]], sts + [st])
  {
    var slots', at', msgs', sts' := slots + [i], at + [|inbox0[i]| - |mid[i]|], msgs + [mid[i][0]], sts + [st];
    ShrunkTrans(mid, popped, inbox);
    ShrunkTrans(inbox0, mid, inbox);
    ServedFromShrunk(inbox0, mid, inbox, n, slots, at, msgs, sts);
    assert IsSuffix(inbox0[i], mid[i]) && IsSuffix(popped[i], inbox[i]);
    forall k | 0 <= k < |slots'| ensures TurnRead(inbox0, inbox, n, slots', at', msgs', sts', k) {
      if k < |slots| {
        assert TurnRead(inbox0, inbox, n, slots, at, msgs, sts, k);
      } else {
        assert mid[i][0] == inbox0[i][|inbox0[i]| - |mid[i]|];
      }
    }
  }

  /** A round's slots: in `ready`, below `n` and ascending. */
  ghost predicate InRound(ready: set<int>, turn: seq<nat>, n: nat) {
    forall k :: 0 <= k < |turn| ==> TurnInRound(ready, turn, n, k)
  }

  ghost predicate TurnInRound(ready: set<int>, turn: seq<nat>, n: nat, k: int)
    requires 0 <= k < |turn|
  {
    turn[k] in ready && turn[k] < n && (k > 0 ==> turn[k - 1] < turn[k])
  }

  lemma InRoundStep(ready: set<int>, turn: seq<nat>, i: nat)
    requires InRound(ready, turn, i) && i in ready
    ensures InRound(ready, turn + [i], i + 1)
  {
    var turn', n' := turn + [i], i + 1;
    forall k | 0 <= k < |turn'| ensures TurnInRound(ready, turn', n', k) {
      if k < |turn| {
        assert TurnInRound(ready, turn, i, k);
      }
      if k > 0 {
        assert TurnInRound(ready, turn, i, k - 1);
      }
    }
  }

  lemma InRoundWithin(ready: set<int>, turn: seq<nat>, n: nat, n': nat)
    requires InRound(ready, turn, n) && n <= n'
    ensures InRound(ready, turn, n')
  {
    forall k | 0 <= k < |turn| ensures TurnInRound(ready, turn, n', k) {
      assert TurnInRound(ready, turn, n, k);
    }
  }

  /** Every slot of `ready` below `n` that the round did not read is closed in `sockets`. */
  ghost predicate Covered(ready: set<int>, turn: seq<nat>, sockets: seq<int>, n: nat) {
    n <= |sockets| && forall j :: 0 <= j < n && j in ready && j !in turn ==> sockets[j] <= 0
  }

  /** Reading slot `i` covers it. */
  lemma CoveredStep(ready: set<int>, turn: seq<nat>, sockets: seq<int>, i: nat)
    requires Covered(ready, turn, sockets, i) && i < |sockets|
    ensures Covered(ready, turn + [i], sockets, i + 1)
  {
  }

  /** A closed slot stays closed. */
  lemma CoveredKept(ready: set<int>, turn: seq<nat>, a: seq<int>, b: seq<int>, n: nat)
    requires Covered(ready, turn, a, n) && OnlyClosed(a, b)
    ensures Covered(ready, turn, b, n)
  {
    forall j | 0 <= j < n && j in ready && j !in turn ensures b[j] <= 0 {
      assert a[j] <= 0;
    }
  }

  /** The slots of the rounds `turns`, one round after the other. */
  ghost function Flatten(turns: seq<seq<nat>>): seq<nat>
    decreases |turns|
  {
    if turns == [] then [] else Flatten(turns[..|turns| - 1]) + turns[|turns| - 1]
  }

  // ---------------------------------------------------------------- the allocator state

  /** The global state of `config.h`: the page table, the socket slots, the node count
      and the bump pointer. */
  class SmAllocator {
    /** `options->n_nodes` */
    const nNodes: nat
    /** `sm_page_table` */
    const pageTable: array<MemoryPage>
    /** `client_sockets` */
    const clientSockets: array<int>
    /** `sm_node_count`: the number of active nodes. */
    var nodeCount: int
    /** `sm_current_page` and `sm_current_offset`: the bump pointer. */
    var currentPage: int
    var currentOffset: int
    var inbox: seq<seq<Msg>>
    var outbox: seq<Sent>
    /** Every region handed out so far. */
    ghost var grants: seq<Alloc>
    /** Every message handed to the router so far. */
    ghost var executed: seq<Msg>

    ghost predicate Valid()
      reads this, pageTable, clientSockets
    {
      && pageTable.Length == SM_MAX_PAGES
      && clientSockets.Length == SM_MAX_NODES
      && nNodes <= SM_MAX_NODES
      && |inbox| == nNodes
      && (forall i :: 0 <= i < SM_MAX_PAGES ==> PageOk(pageTable[i]))
      && currentPage >= 0 && 0 <= currentOffset < SM_PAGESIZE
      && Disjoint(grants) && Below(grants, Position(currentPage, currentOffset))
    }

    /** A page's writer is -1 or a node, and it has one 0/1 read flag per node. */
    ghost predicate PageOk(p: MemoryPage) {
      && NO_WRITER <= p.writer < nNodes
      && |p.readers| == nNodes
      && forall j :: 0 <= j < nNodes ==> p.readers[j] == 0 || p.readers[j] == 1
    }

    /** `allocator_init`: every page without a writer and without readers, the first
        `nNodes` socket slots zeroed, no node counted. `streams` are the connections'
        messages. */
    constructor (nNodes: nat, streams: seq<seq<Msg>>)
      requires nNodes <= SM_MAX_NODES && |streams| == nNodes
      ensures Valid() && this.nNodes == nNodes
      ensures forall i :: 0 <= i < SM_MAX_PAGES ==> pageTable[i] == MemoryPage(NO_WRITER, seq(nNodes, _ => 0))
      ensures forall i :: 0 <= i < nNodes ==> clientSockets[i] == 0
      ensures nodeCount == 0 && currentPage == 0 && currentOffset == 0
      ensures inbox == streams && outbox == [] && grants == [] && executed == []
    {
      this.nNodes := nNodes;
      pageTable := new MemoryPage[SM_MAX_PAGES](_ => MemoryPage(0, []));
      clientSockets := new int[SM_MAX_NODES];
      nodeCount := 0;
      currentPage := 0;
      currentOffset := 0;
      inbox := streams;
      outbox := [];
      grants := [];
      executed := [];
      new;
      for i := 0 to SM_MAX_PAGES
        invariant forall k :: 0 <= k < i ==> pageTable[k] == MemoryPage(NO_WRITER, seq(nNodes, _ => 0))
        invariant this.nNodes == nNodes && pageTable.Length == SM_MAX_PAGES && clientSockets.Length == SM_MAX_NODES
        invariant nodeCount == 0 && currentPage == 0 && currentOffset == 0
        invariant inbox == streams && outbox == [] && grants == [] && executed == []
      {
        var readers: seq<int> := [];
        for j := 0 to nNodes
          invariant readers == seq(j, _ => 0)
        {
          readers := readers + [0];
        }
        pageTable[i] := MemoryPage(NO_WRITER, readers);
      }
      for i := 0 to nNodes
        invariant forall k :: 0 <= k < i ==> clientSockets[k] == 0
        invariant forall k :: 0 <= k < SM_MAX_PAGES ==> pageTable[k] == MemoryPage(NO_WRITER, seq(nNodes, _ => 0))
        invariant this.nNodes == nNodes && pageTable.Length == SM_MAX_PAGES && clientSockets.Length == SM_MAX_NODES
        invariant nodeCount == 0 && currentPage == 0 && currentOffset == 0
        invariant inbox == streams && outbox == [] && grants == [] && executed == []
      {
        clientSockets[i] := 0;
      }
    }

    /** `sm_recv` on slot `i`: the next message of that connection, if any. */
    method Recv(i: nat) returns (ok: bool, m: Msg)
      requires Valid() && i < nNodes
      modifies this
      ensures Valid()
      ensures ok <==> old(inbox[i]) != []
      ensures ok ==> m == old(inbox[i][0]) && inbox == old(inbox)[i := old(inbox[i])[1..]]
      ensures ok ==> Total(inbox) == old(Total(inbox)) - 1
      ensures !ok ==> inbox == old(inbox)
      ensures nodeCount == old(nodeCount) && outbox == old(outbox) && grants == old(grants) && executed == old(executed)
      ensures currentPage == old(currentPage) && currentOffset == old(currentOffset)
    {
      if inbox[i] != [] {
        ok, m := true, inbox[i][0];
        TotalUpdate(inbox, i, inbox[i][1..]);
        inbox := inbox[i := inbox[i][1..]];
      } else {
        ok, m := false, Reply(SM_INIT, []);
      }
    }

    /** `sm_send` of an allocator message to slot `slot`. */
    method SendTo(slot: int, m: Msg)
      modifies this
      ensures outbox == old(outbox) + [Sent(slot, m)]
      ensures nodeCount == old(nodeCount) && inbox == old(inbox) && grants == old(grants) && executed == old(executed)
      ensures currentPage == old(currentPage) && currentOffset == old(currentOffset)
    {
      outbox := outbox + [Sent(slot, m)];
    }

    /** `node_init` (node_functions.c): store the client in slot `nodeCount`, then accept
        only an `SM_INIT` first message; the slot stays written when it is refused. The
        reply's header carries the slot as the node's id. */
    method Init(client: int) returns (st: Status)
      requires Valid() && 0 <= nodeCount < nNodes
      modifies this, clientSockets
      ensures Valid()
      ensures clientSockets[old(nodeCount)] == client
      ensures forall i :: 0 <= i < SM_MAX_NODES && i != old(nodeCount) ==> clientSockets[i] == old(clientSockets[i])
      ensures st == Ok <==> old(inbox[nodeCount]) != [] && old(inbox[nodeCount][0].mtype) == SM_INIT
      ensures st == Ok ==> nodeCount == old(nodeCount) + 1 &&
                           outbox == old(outbox) + [Sent(old(nodeCount), Make(SM_INIT_REPLY, old(nodeCount), []))]
      ensures st != Ok ==> st == Fatal(InvalidInit) && nodeCount == old(nodeCount) && outbox == old(outbox)
      ensures old(inbox[nodeCount]) != [] ==> inbox == old(inbox)[old(nodeCount) := old(inbox[nodeCount])[1..]]
      ensures old(inbox[nodeCount]) == [] ==> inbox == old(inbox)
      ensures grants == old(grants) && currentPage == old(currentPage) && currentOffset == old(currentOffset) && executed == old(executed)
    {
      clientSockets[nodeCount] := client;
      var ok, init := Recv(nodeCount);
      if !ok || init.mtype != SM_INIT {
        return Fatal(InvalidInit);
      }
      SendTo(nodeCount, Make(SM_INIT_REPLY, nodeCount, []));
      nodeCount := nodeCount + 1;
      st := Ok;
    }

    /** `node_init` (allocator.c): accept only an `SM_INIT` first message, and only then
        reply and store the client in slot `nodeCount`. */
    method InitValidatingFirst(client: int) returns (st: Status)
      requires Valid() && 0 <= nodeCount < nNodes
      modifies this, clientSockets
      ensures Valid()
      ensures st == Ok <==> old(inbox[nodeCount]) != [] && old(inbox[nodeCount][0].mtype) == SM_INIT
      ensures st == Ok ==> nodeCount == old(nodeCount) + 1 && clientSockets[old(nodeCount)] == client &&
                           outbox == old(outbox) + [Sent(old(nodeCount), Make(SM_INIT_REPLY, old(nodeCount), []))]
      ensures st == Ok ==> forall i :: 0 <= i < SM_MAX_NODES && i != old(nodeCount) ==> clientSockets[i] == old(clientSockets[i])
      ensures st != Ok ==> st == Fatal(InvalidInit) && nodeCount == old(nodeCount) && outbox == old(outbox)
      ensures st != Ok ==> clientSockets[..] == old(clientSockets[..])
      ensures old(inbox[nodeCount]) != [] ==> inbox == old(inbox)[old(nodeCount) := old(inbox[nodeCount])[1..]]
      ensures old(inbox[nodeCount]) == [] ==> inbox == old(inbox)
      ensures grants == old(grants) && currentPage == old(currentPage) && currentOffset == old(currentOffset) && executed == old(executed)
    {
      var ok, init := Recv(nodeCount);
      if !ok || init.mtype != SM_INIT {
        return Fatal(InvalidInit);
      }
      SendTo(nodeCount, Make(SM_INIT_REPLY, nodeCount, []));
      clientSockets[nodeCount] := client;
      nodeCount := nodeCount + 1;
      st := Ok;
    }

    /** `node_close`: acknowledge, zero the slot, one node fewer. */
    method Close(nid: nat) returns (st: Status)
      requires Valid() && nid < nNodes
      modifies this, clientSockets
      ensures Valid() && st == Ok
      ensures clientSockets[nid] == 0
      ensures forall i :: 0 <= i < SM_MAX_NODES && i != nid ==> clientSockets[i] == old(clientSockets[i])
      ensures clientSockets[..] == old(clientSockets[..])[nid := 0]
      ensures nodeCount == old(nodeCount) - 1
      ensures outbox == old(outbox) + [Sent(nid, Reply(SM_EXIT_REPLY, []))]
      ensures inbox == old(inbox) && grants == old(grants) && executed == old(executed)
      ensures currentPage == old(currentPage) && currentOffset == old(currentOffset)
    {
      SendTo(nid, Reply(SM_EXIT_REPLY, []));
      clientSockets[nid] := 0;
      nodeCount := nodeCount - 1;
      st := Ok;
    }

    /** The effect of `node_allocate` for `nid` from the bump pointer (`page0`, `offset0`),
        the page table `table0`, the outbox `outbox0` and the regions `grants0`: with no
        page left, an empty reply and nothing else; with a size, `nid` becomes the current
        page's writer and a reader, the reply carries one byte of the global offset, and
        the pointer moves past the new region. */
    ghost predicate Allocated(nid: nat, request: Msg, page0: int, offset0: int, table0: seq<MemoryPage>,
                              outbox0: seq<Sent>, grants0: seq<Alloc>, st: Status)
      reads this, pageTable
    {
      if page0 >= SM_MAX_PAGES then
        && st == Ok && outbox == outbox0 + [Sent(nid, Reply(SM_ALOC_REPLY, []))]
        && pageTable[..] == table0 && currentPage == page0 && currentOffset == offset0 && grants == grants0
      else if AllocSize(request).None? then
        && st == Fatal(ShortBody) && outbox == outbox0
        && pageTable[..] == table0 && currentPage == page0 && currentOffset == offset0 && grants == grants0
      else
        var size := AllocSize(request).value;
        var at := Position(page0, offset0);
        && 0 <= page0 < |table0| && nid < |table0[page0].readers|
        && st == Ok
        && pageTable[..] == table0[page0 := table0[page0].(writer := nid, readers := table0[page0].readers[nid := 1])]
        && outbox == outbox0 + [Sent(nid, Reply(SM_ALOC_REPLY, ByteBody(ToByte(at))))]
        && page0 >= 0 && 0 <= offset0 < SM_PAGESIZE
        && (currentPage, currentOffset) == Bump(page0, offset0, size)
        && grants == grants0 + [Alloc(at, size)]
    }

    /** `node_allocate`: while pages remain, make `nid` the current page's writer and a
        reader, reply with the bump pointer's global offset (one byte of it, as the reply
        body holds a single `char`) and advance the pointer by the requested size. With
        no page left, an empty reply and nothing else. */
    method Allocate(nid: nat, request: Msg) returns (st: Status)
      requires Valid() && nid < nNodes
      modifies this, pageTable
      ensures Valid()
      ensures nodeCount == old(nodeCount) && inbox == old(inbox) && executed == old(executed)
      ensures Allocated(nid, request, old(currentPage), old(currentOffset), old(pageTable[..]), old(outbox), old(grants), st)
      ensures PointSends(old(outbox), outbox)
      ensures currentPage >= old(currentPage)
    {
      if currentPage >= SM_MAX_PAGES {
        SendTo(nid, Reply(SM_ALOC_REPLY, []));
        return Ok;
      }
      var request' := AllocSize(request);
      if request'.None? {
        return Fatal(ShortBody);
      }
      var allocSize := request'.value;
      var page := pageTable[currentPage];
      pageTable[currentPage] := page.(writer := nid, readers := page.readers[nid := 1]);
      var offset := currentPage * SM_PAGESIZE + currentOffset;
      SendTo(nid, Reply(SM_ALOC_REPLY, ByteBody(ToByte(offset))));
      BumpKeepsDisjoint(grants, currentPage, currentOffset, allocSize);
      grants := grants + [Alloc(offset, allocSize)];
      var total := offset + allocSize;
      currentPage := total / SM_PAGESIZE;
      currentOffset := total % SM_PAGESIZE;
      st := Ok;
    }

    /** A message handed to the router from within `node_wait`: the handler is chosen by
        the type and applied to the sender the header names. No handler reached from here
        reads a connection or releases a collective. */
    method ExecuteLocal(request: Msg) returns (st: Status)
      requires Valid()
      modifies this, pageTable, clientSockets
      ensures Valid()
      ensures executed == old(executed) + [request]
      ensures inbox == old(inbox) && PointSends(old(outbox), outbox)
      ensures OnlyClosed(old(clientSockets[..]), clientSockets[..])
      ensures !(0 <= request.nid < nNodes) ==> st == Fatal(UnknownNode) && outbox == old(outbox)
      ensures 0 <= request.nid < nNodes && Route(request.mtype) == CloseH ==>
                st == Ok && nodeCount == old(nodeCount) - 1 && clientSockets[..] == old(clientSockets[..])[request.nid := 0] &&
                outbox == old(outbox) + [Sent(request.nid, Reply(SM_EXIT_REPLY, []))] &&
                pageTable[..] == old(pageTable[..]) && grants == old(grants) &&
                currentPage == old(currentPage) && currentOffset == old(currentOffset)
      ensures 0 <= request.nid < nNodes && Route(request.mtype) == AllocateH ==>
                nodeCount == old(nodeCount) && clientSockets[..] == old(clientSockets[..]) &&
                Allocated(request.nid, request, old(currentPage), old(currentOffset), old(pageTable[..]), old(outbox), old(grants), st)
      ensures Route(request.mtype) == InvalidH ==> st.Fatal? && outbox == old(outbox)
      ensures Route(request.mtype) in {BarrierH, CastH, FaultH} ==> st.Fatal? && outbox == old(outbox)
      ensures !(0 <= request.nid < nNodes && Route(request.mtype) in {CloseH, AllocateH}) ==>
                nodeCount == old(nodeCount) && clientSockets[..] == old(clientSockets[..]) &&
                pageTable[..] == old(pageTable[..]) && grants == old(grants) &&
                currentPage == old(currentPage) && currentOffset == old(currentOffset)
    {
      executed := executed + [request];
      if !(0 <= request.nid < nNodes) {
        return Fatal(UnknownNode);
      }
      var nid := request.nid;
      match Route(request.mtype)
      case CloseH => st := Close(nid);
      case AllocateH => st := Allocate(nid, request);
      case FaultH => st := Fatal(NoFaultHandler);
      case InvalidH => st := Fatal(InvalidMessage);
      case BarrierH => st := Fatal(NestedCollective);
      case CastH => st := Fatal(NestedCollective);
    }

    /** `node_wait`'s inner loop for node `i`: receive and execute its messages until one
        of type `mode` arrives, which is returned. `got` is what was read off connection
        `i`, in order; no other connection is read. */
    method AwaitNode(i: nat, mode: int) returns (st: Status, m: Msg, ghost got: seq<Msg>)
      requires Valid() && i < nNodes
      modifies this, pageTable, clientSockets
      ensures Valid()
      ensures ReadOnly(old(inbox), got, inbox, i)
      ensures PointSends(old(outbox), outbox) && OnlyClosed(old(clientSockets[..]), clientSockets[..])
      ensures old(executed) <= executed
      ensures st == Ok ==> Awaited(got, mode) && m == got[|got| - 1]
      ensures st == Ok ==> executed == old(executed) + Front(got)
    {
      got := [];
      while true
        invariant Valid()
        invariant ReadOnly(old(inbox), got, inbox, i)
        invariant PointSends(old(outbox), outbox) && OnlyClosed(old(clientSockets[..]), clientSockets[..])
        invariant forall k :: 0 <= k < |got| ==> !EndsWait(mode, got[k].mtype)
        invariant executed == old(executed) + got
        decreases |inbox[i]|
      {
        var ok;
        ghost var mid := inbox;
        ok, m := Recv(i);
        if !ok {
          return Fatal(RecvFailed), m, got;
        }
        ReadOnlyStep(old(inbox), got, mid, m, inbox, i);
        if EndsWait(mode, m.mtype) {
          assert Front(got + [m]) == got;
          return Ok, m, got + [m];
        }
        got := got + [m];
        ghost var sent, sockets := outbox, clientSockets[..];
        st := ExecuteLocal(m);
        PointSendsTrans(old(outbox), sent, outbox);
        OnlyClosedTrans(old(clientSockets[..]), sockets, clientSockets[..]);
        if st != Ok {
          return;
        }
      }
    }

    /** `node_wait` as evidently intended: for every node but the initiator, in ascending
        order, execute its messages until its request of type `mode` arrives; in cast mode
        the value of `root`'s request replaces `value0`. `drained[j]` is what was read off
        connection `j`. */
    method Wait(nid: nat, mode: int, root: int, value0: int)
      returns (st: Status, value: int, ghost drained: seq<seq<Msg>>)
      requires Valid() && nid < nNodes
      modifies this, pageTable, clientSockets
      ensures Valid()
      ensures |drained| == nNodes && Consumed(old(inbox), drained, inbox)
      ensures PointSends(old(outbox), outbox) && OnlyClosed(old(clientSockets[..]), clientSockets[..])
      ensures old(executed) <= executed
      ensures st == Ok ==> WaitedFor(drained, nNodes, nid, mode)
      ensures st == Ok ==> Captured(drained, value, nNodes, nid, mode, root, value0)
      ensures st == Ok ==> executed == old(executed) + Executed(drained, nNodes)
    {
      value := value0;
      drained := seq(nNodes, _ => []);
      for i := 0 to nNodes
        invariant Valid()
        invariant WaitSoFar(old(inbox), drained, inbox, old(outbox), outbox, old(executed), executed,
                            i, nNodes, nid, mode, root, value0, value)
        invariant OnlyClosed(old(clientSockets[..]), clientSockets[..])
      {
        st, value, drained := WaitOn(i, nid, mode, root, value0, value, old(inbox), old(outbox), old(executed),
                                     old(clientSockets[..]), drained);
        if st != Ok {
          return;
        }
      }
      st := Ok;
    }

    /** The body of `node_wait`'s loop for node `i`: skip the initiator, otherwise wait on
        node `i` and capture the value in cast mode from `root`; what the wait has done so
        far (since `inbox0`, `outbox0` and `executed0`) is carried over to node `i + 1`. */
    method WaitOn(i: nat, nid: nat, mode: int, root: int, value0: int, value: int,
                  ghost inbox0: seq<seq<Msg>>, ghost outbox0: seq<Sent>, ghost executed0: seq<Msg>,
                  ghost sockets0: seq<int>, ghost drained: seq<seq<Msg>>)
      returns (st: Status, value': int, ghost drained': seq<seq<Msg>>)
      requires Valid() && nid < nNodes && i < nNodes
      requires WaitSoFar(inbox0, drained, inbox, outbox0, outbox, executed0, executed, i, nNodes, nid, mode, root, value0, value)
      requires OnlyClosed(sockets0, clientSockets[..])
      modifies this, pageTable, clientSockets
      ensures Valid()
      ensures |drained'| == nNodes && Consumed(inbox0, drained', inbox)
      ensures PointSends(outbox0, outbox) && executed0 <= executed && OnlyClosed(sockets0, clientSockets[..])
      ensures st == Ok ==>
                WaitSoFar(inbox0, drained', inbox, outbox0, outbox, executed0, executed, i + 1, nNodes, nid, mode, root, value0, value')
    {
      ghost var got: seq<Msg> := [];
      ghost var before := executed;
      ghost var sent := outbox;
      ghost var mid, sockets := inbox, clientSockets[..];
      value' := value;
      st := Ok;
      if i != nid {
        var m;
        st, m, got := AwaitNode(i, mode);
        PointSendsTrans(outbox0, sent, outbox);
        OnlyClosedTrans(sockets0, sockets, clientSockets[..]);
        ConsumedStep(inbox0, drained, mid, got, inbox, i);
        if st != Ok {
          drained' := drained[i := got];
          return;
        }
        if mode == SM_CAST && i == root {
          value' := CastValueOr(m, value);
        }
      } else {
        ConsumedStep(inbox0, drained, mid, got, inbox, i);
      }
      WaitStep(drained, i, nid, mode, root, value0, value, got, executed0, before);
      drained' := drained[i := got];
    }

    /** The replies of a collective: `m` to every slot in ascending order. */
    method Release(m: Msg)
      modifies this
      ensures outbox == old(outbox) + Broadcast(nNodes, m)
      ensures nodeCount == old(nodeCount) && inbox == old(inbox) && grants == old(grants) && executed == old(executed)
      ensures currentPage == old(currentPage) && currentOffset == old(currentOffset)
    {
      for i := 0 to nNodes
        invariant outbox == old(outbox) + Broadcast(i, m)
        invariant nodeCount == old(nodeCount) && inbox == old(inbox) && grants == old(grants) && executed == old(executed)
        invariant currentPage == old(currentPage) && currentOffset == old(currentOffset)
      {
        assert Broadcast(i + 1, m) == Broadcast(i, m) + [Sent(i, m)];
        SendTo(i, m);
      }
    }

    /** `node_barrier`: wait for every other node's `SM_BARR`, then send `SM_BARR_REPLY`
        to every node. `waited` is the outbox when the wait ended: until then only point
        replies went out, and nothing is released when the wait fails. */
    method Barrier(nid: nat) returns (st: Status, ghost drained: seq<seq<Msg>>, ghost waited: seq<Sent>)
      requires Valid() && nid < nNodes
      modifies this, pageTable, clientSockets
      ensures Valid()
      ensures |drained| == nNodes && Consumed(old(inbox), drained, inbox)
      ensures PointSends(old(outbox), waited) && OnlyClosed(old(clientSockets[..]), clientSockets[..])
      ensures old(executed) <= executed
      ensures st == Ok ==> WaitedFor(drained, nNodes, nid, SM_BARR)
      ensures st == Ok ==> executed == old(executed) + Executed(drained, nNodes)
      ensures st == Ok ==> outbox == waited + Broadcast(nNodes, Reply(SM_BARR_REPLY, []))
      ensures st != Ok ==> outbox == waited
    {
      var value;
      st, value, drained := Wait(nid, SM_BARR, -1, 0);
      waited := outbox;
      if st != Ok {
        return;
      }
      Release(Reply(SM_BARR_REPLY, []));
    }

    /** `node_cast`: root and value are the request's body bytes 0 and 1; wait for every
        other node's `SM_CAST`, then send every node the root's value. */
    method Cast(nid: nat, request: Msg) returns (st: Status, ghost value: int, ghost drained: seq<seq<Msg>>, ghost waited: seq<Sent>)
      requires Valid() && nid < nNodes
      modifies this, pageTable, clientSockets
      ensures Valid()
      ensures |drained| == nNodes && Consumed(old(inbox), drained, inbox)
      ensures PointSends(old(outbox), waited) && OnlyClosed(old(clientSockets[..]), clientSockets[..])
      ensures old(executed) <= executed
      ensures CastFields(request).None? ==> st == Fatal(ShortBody) && outbox == old(outbox)
      ensures st == Ok ==> CastFields(request).Some? && WaitedFor(drained, nNodes, nid, SM_CAST)
      ensures st == Ok ==> Captured(drained, value, nNodes, nid, SM_CAST, CastFields(request).value.0, CastFields(request).value.1)
      ensures st == Ok ==> executed == old(executed) + Executed(drained, nNodes)
      ensures st == Ok ==> 0 <= value < 256 && outbox == waited + Broadcast(nNodes, Reply(SM_CAST_REPLY, ByteBody(value)))
      ensures st != Ok ==> outbox == waited
    {
      waited := outbox;
      drained := seq(nNodes, _ => []);
      var fields := CastFields(request);
      if fields.None? {
        return Fatal(ShortBody), 0, drained, waited;
      }
      var root, v := fields.value.0, fields.value.1;
      var address;
      st, address, drained := Wait(nid, SM_CAST, root, v);
      value := address;
      waited := outbox;
      if st != Ok {
        return;
      }
      CapturedIsByte(drained, address, nNodes, nid, root, v);
      Release(Reply(SM_CAST_REPLY, ByteBody(address)));
    }

    /** What a barrier or a cast routed from `request` did, from the connections
        `inbox0`, the outbox `outbox0` and the router's log `executed0`: Barrier's and
        Cast's contracts, stated for the request's type. */
    ghost predicate Collective(request: Msg, inbox0: seq<seq<Msg>>, outbox0: seq<Sent>, executed0: seq<Msg>,
                               st: Status, drained: seq<seq<Msg>>, value: int, waited: seq<Sent>)
      requires 0 <= request.nid < nNodes
      reads this
    {
      && |drained| == nNodes && Consumed(inbox0, drained, inbox)
      && PointSends(outbox0, waited) && (st != Ok ==> outbox == waited)
      && (Route(request.mtype) == CastH && CastFields(request).None? ==> st == Fatal(ShortBody))
      && (Route(request.mtype) == BarrierH && st == Ok ==>
            && WaitedFor(drained, nNodes, request.nid, SM_BARR)
            && executed == executed0 + [request] + Executed(drained, nNodes)
            && outbox == waited + Broadcast(nNodes, Reply(SM_BARR_REPLY, [])))
      && (Route(request.mtype) == CastH && st == Ok ==>
            && CastFields(request).Some? && WaitedFor(drained, nNodes, request.nid, SM_CAST)
            && Captured(drained, value, nNodes, request.nid, SM_CAST, CastFields(request).value.0, CastFields(request).value.1)
            && executed == executed0 + [request] + Executed(drained, nNodes)
            && 0 <= value < 256 && outbox == waited + Broadcast(nNodes, Reply(SM_CAST_REPLY, ByteBody(value))))
    }

    /** What `node_execute` did with `request`, from the connections `inbox0`, the outbox
        `outbox0`, the router's log `executed0`, the page table `table0`, the bump pointer
        (`page0`, `offset0`), the regions `grants0`, the socket slots `sockets0` and the
        node count `count0`. The request is logged; only a barrier or a cast reads the
        connections; slots are only ever zeroed; an unknown sender, a fault and a type
        without a handler fail without sending or changing the allocator; a close, an
        allocate, a barrier and a cast have their handlers' effects. */
    ghost predicate Handled(request: Msg, inbox0: seq<seq<Msg>>, outbox0: seq<Sent>, executed0: seq<Msg>,
                            table0: seq<MemoryPage>, page0: int, offset0: int, grants0: seq<Alloc>,
                            sockets0: seq<int>, count0: int,
                            st: Status, drained: seq<seq<Msg>>, value: int, waited: seq<Sent>)
      reads this, pageTable, clientSockets
    {
      var known := 0 <= request.nid < nNodes;
      && executed0 + [request] <= executed
      && OnlyClosed(sockets0, clientSockets[..])
      && (!(known && Route(request.mtype) in {BarrierH, CastH}) ==> inbox == inbox0)
      && (!known ==> st == Fatal(UnknownNode))
      && (Route(request.mtype) in {InvalidH, FaultH} ==> st.Fatal?)
      && (!(known && Route(request.mtype) in {CloseH, AllocateH, BarrierH, CastH}) ==>
            && outbox == outbox0 && nodeCount == count0 && clientSockets[..] == sockets0
            && pageTable[..] == table0 && grants == grants0 && currentPage == page0 && currentOffset == offset0)
      && (known && Route(request.mtype) == CloseH ==>
            && st == Ok && nodeCount == count0 - 1
            && request.nid < |sockets0| && clientSockets[..] == sockets0[request.nid := 0]
            && outbox == outbox0 + [Sent(request.nid, Reply(SM_EXIT_REPLY, []))]
            && pageTable[..] == table0 && grants == grants0 && currentPage == page0 && currentOffset == offset0)
      && (known && Route(request.mtype) == AllocateH ==>
            && nodeCount == count0 && clientSockets[..] == sockets0
            && Allocated(request.nid, request, page0, offset0, table0, outbox0, grants0, st))
      && (known && Route(request.mtype) in {BarrierH, CastH} ==>
            Collective(request, inbox0, outbox0, executed0, st, drained, value, waited))
    }

    /** `node_execute`: route by type; the sender's nid comes from the header. The ghost
        results describe a barrier's or a cast's wait, as Barrier and Cast state them. */
    method Execute(request: Msg)
      returns (st: Status, ghost drained: seq<seq<Msg>>, ghost value: int, ghost waited: seq<Sent>)
      requires Valid()
      modifies this, pageTable, clientSockets
      ensures Valid()
      ensures Handled(request, old(inbox), old(outbox), old(executed), old(pageTable[..]), old(currentPage), old(currentOffset),
                      old(grants), old(clientSockets[..]), old(nodeCount), st, drained, value, waited)
    {
      drained, value, waited := [], 0, outbox;
      if !(0 <= request.nid < nNodes) {
        executed := executed + [request];
        return Fatal(UnknownNode), drained, value, waited;
      }
      match Route(request.mtype)
      case BarrierH =>
        executed := executed + [request];
        st, drained, waited := Barrier(request.nid);
      case CastH =>
        executed := executed + [request];
        st, value, drained, waited := Cast(request.nid, request);
      case _ =>
        st := ExecuteLocal(request);
    }

    /** One round of the serving loop: in slot order, read one message from each open
        slot of `ready` and execute it, stopping at the first failure. The slots read,
        `slots[|slots0|..]`, are ready and ascending, each read as ServeSlot states; a
        round that ends Ok leaves every ready slot it did not read closed. The ghost
        sequences extend the ones given, as Serve describes them. */
    method ServeReady(ready: set<int>, ghost base: seq<Msg>, ghost inbox0: seq<seq<Msg>>,
                      ghost slots0: seq<nat>, ghost at0: seq<int>,
                      ghost served0: seq<Msg>, ghost cuts0: seq<int>, ghost statuses0: seq<Status>)
      returns (st: Status, ghost slots: seq<nat>, ghost at: seq<int>,
               ghost served: seq<Msg>, ghost cuts: seq<int>, ghost statuses: seq<Status>, ghost stop: int)
      requires Valid()
      requires base <= executed && Segments(executed[|base|..], served0, cuts0)
      requires |statuses0| == |served0| && AllOk(statuses0)
      requires Shrunk(inbox0, inbox) && ServedFrom(inbox0, inbox, nNodes, slots0, at0, served0, statuses0)
      modifies this, pageTable, clientSockets
      ensures Valid()
      ensures base <= executed && Segments(executed[|base|..], served, cuts)
      ensures Shrunk(inbox0, inbox) && ServedFrom(inbox0, inbox, nNodes, slots, at, served, statuses)
      ensures OnlyClosed(old(clientSockets[..]), clientSockets[..])
      ensures slots0 <= slots && InRound(ready, slots[|slots0|..], nNodes)
      ensures st == Ok ==> Covered(ready, slots[|slots0|..], clientSockets[..], nNodes)
      ensures st != Ok ==> StoppedAt(ready, slots[|slots0|..], statuses, st, stop)
      ensures statuses0 <= statuses && AllOk(Front(statuses))
      ensures st == Ok ==> AllOk(statuses)
      ensures st != Ok && statuses != [] && statuses[|statuses| - 1] != Ok ==> statuses[|statuses| - 1] == st
      ensures st != Ok && AllOk(statuses) ==> st == Fatal(RecvFailed)
    {
      slots, at, served, cuts, statuses := slots0, at0, served0, cuts0, statuses0;
      stop := 0;
      for i := 0 to nNodes
        invariant Valid()
        invariant ReadySoFar(ready, base, inbox0, old(clientSockets[..]), slots0, statuses0, i, slots, at, served, cuts, statuses)
      {
        if i in ready && clientSockets[i] > 0 {
          st, slots, at, served, cuts, statuses :=
            ServeTurn(i, ready, base, inbox0, old(clientSockets[..]), slots0, statuses0, slots, at, served, cuts, statuses);
          if st != Ok {
            stop := i;
            return;
          }
        } else {
          InRoundWithin(ready, slots[|slots0|..], i, i + 1);
        }
      }
      st := Ok;
      if statuses != [] {
        assert Front(statuses) == statuses[..|statuses| - 1];
      }
    }

    /** A round of the serving loop up to slot `i`, begun with the sockets `sockets0` and
        the reads `slots0`: what ServeReady promises, for the slots below `i`. */
    ghost predicate ReadySoFar(ready: set<int>, base: seq<Msg>, inbox0: seq<seq<Msg>>, sockets0: seq<int>,
                               slots0: seq<nat>, statuses0: seq<Status>, i: nat,
                               slots: seq<nat>, at: seq<int>, served: seq<Msg>, cuts: seq<int>, statuses: seq<Status>)
      reads this, clientSockets
    {
      && base <= executed && Segments(executed[|base|..], served, cuts)
      && |statuses| == |served| && AllOk(statuses) && statuses0 <= statuses
      && Shrunk(inbox0, inbox) && ServedFrom(inbox0, inbox, nNodes, slots, at, served, statuses)
      && OnlyClosed(sockets0, clientSockets[..])
      && slots0 <= slots && InRound(ready, slots[|slots0|..], i)
      && Covered(ready, slots[|slots0|..], clientSockets[..], i)
    }

    /** ServeReady's turn for a ready, open slot `i`: serve it, and carry the round over
        to slot `i + 1`, or end it with what ServeReady promises on a failure. */
    method ServeTurn(i: nat, ready: set<int>, ghost base: seq<Msg>, ghost inbox0: seq<seq<Msg>>, ghost sockets0: seq<int>,
                     ghost slots0: seq<nat>, ghost statuses0: seq<Status>,
                     ghost slots: seq<nat>, ghost at: seq<int>,
                     ghost served: seq<Msg>, ghost cuts: seq<int>, ghost statuses: seq<Status>)
      returns (st: Status, ghost slots': seq<nat>, ghost at': seq<int>,
               ghost served': seq<Msg>, ghost cuts': seq<int>, ghost statuses': seq<Status>)
      requires Valid() && i < nNodes && i in ready && clientSockets[i] > 0
      requires ReadySoFar(ready, base, inbox0, sockets0, slots0, statuses0, i, slots, at, served, cuts, statuses)
      modifies this, pageTable, clientSockets
      ensures Valid()
      ensures st == Ok ==> ReadySoFar(ready, base, inbox0, sockets0, slots0, statuses0, i + 1, slots', at', served', cuts', statuses')
      ensures st != Ok ==>
                && base <= executed && Segments(executed[|base|..], served', cuts')
                && Shrunk(inbox0, inbox) && ServedFrom(inbox0, inbox, nNodes, slots', at', served', statuses')
                && OnlyClosed(sockets0, clientSockets[..])
                && slots0 <= slots' && InRound(ready, slots'[|slots0|..], nNodes)
                && StoppedAt(ready, slots'[|slots0|..], statuses', st, i)
                && statuses0 <= statuses' && AllOk(Front(statuses'))
                && (statuses' != [] && statuses'[|statuses'| - 1] != Ok ==> statuses'[|statuses'| - 1] == st)
                && (AllOk(statuses') ==> st == Fatal(RecvFailed))
    {
      ghost var turn, sockets, read := slots[|slots0|..], clientSockets[..], |slots|;
      ghost var drained, value, waited;
      st, slots', at', served', cuts', statuses', drained, value, waited := ServeSlot(i, base, inbox0, slots, at, served, cuts, statuses);
      OnlyClosedTrans(sockets0, sockets, clientSockets[..]);
      CoveredKept(ready, turn, sockets, clientSockets[..], i);
      if |slots'| > read {
        assert slots'[|slots0|..] == turn + [i];
        InRoundStep(ready, turn, i);
        CoveredStep(ready, turn, clientSockets[..], i);
      } else {
        InRoundWithin(ready, turn, i, i + 1);
        if turn != [] {
          assert TurnInRound(ready, turn, i, |turn| - 1);
        }
      }
      if st != Ok {
        InRoundWithin(ready, slots'[|slots0|..], i + 1, nNodes);
      }
    }

    /** Where a round of `ready` that read `turn` stopped with the failure `st`: at the
        ready slot `i`, every open ready slot below it having been read. Either `i` was
        read last and `st` is its handler's result, the last of `statuses`, or `i` is open
        with nothing left on its connection and the read failed. */
    ghost predicate StoppedAt(ready: set<int>, turn: seq<nat>, statuses: seq<Status>, st: Status, i: int)
      reads this, clientSockets
    {
      && 0 <= i < nNodes && i in ready
      && InRound(ready, turn, i + 1) && Covered(ready, turn, clientSockets[..], i)
      && if turn != [] && turn[|turn| - 1] == i then statuses != [] && statuses[|statuses| - 1] == st
         else i < |inbox| && i < clientSockets.Length && st == Fatal(RecvFailed) && clientSockets[i] > 0 && inbox[i] == []
    }

    /** The serving loop's turn for an open slot `i`: read one message and execute it.
        An empty connection ends the round with nothing read and no status. Otherwise the
        connection's head is read and answered as Answers states, heads the next segment
        of the router's log, and is recorded with its slot, its position on the slot's
        connection since `inbox0` and its handler's result. */
    method ServeSlot(i: nat, ghost base: seq<Msg>, ghost inbox0: seq<seq<Msg>>,
                     ghost slots: seq<nat>, ghost at: seq<int>,
                     ghost served: seq<Msg>, ghost cuts: seq<int>, ghost statuses: seq<Status>)
      returns (st: Status, ghost slots': seq<nat>, ghost at': seq<int>,
               ghost served': seq<Msg>, ghost cuts': seq<int>, ghost statuses': seq<Status>,
               ghost drained: seq<seq<Msg>>, ghost value: int, ghost waited: seq<Sent>)
      requires Valid() && i < nNodes
      requires base <= executed && Segments(executed[|base|..], served, cuts)
      requires |statuses| == |served| && AllOk(statuses)
      requires Shrunk(inbox0, inbox) && ServedFrom(inbox0, inbox, nNodes, slots, at, served, statuses)
      modifies this, pageTable, clientSockets
      ensures Valid()
      ensures base <= executed && Segments(executed[|base|..], served', cuts')
      ensures Shrunk(inbox0, inbox) && ServedFrom(inbox0, inbox, nNodes, slots', at', served', statuses')
      ensures OnlyClosed(old(clientSockets[..]), clientSockets[..])
      ensures old(inbox[i]) == [] ==>
                st == Fatal(RecvFailed) && inbox == old(inbox) && clientSockets[..] == old(clientSockets[..]) &&
                slots' == slots && at' == at && served' == served && statuses' == statuses
      ensures old(inbox[i]) != [] ==>
                slots' == slots + [i] && at' == at + [|inbox0[i]| - |old(inbox[i])|] &&
                served' == served + [old(inbox[i][0])] && statuses' == statuses + [st] &&
                Answers(nNodes, old(inbox[i][0]), st)
      ensures old(inbox[i]) != [] ==>
                Handled(old(inbox[i][0]), old(inbox)[i := old(inbox[i])[1..]], old(outbox), old(executed), old(pageTable[..]),
                        old(currentPage), old(currentOffset), old(grants), old(clientSockets[..]), old(nodeCount),
                        st, drained, value, waited)
      ensures AllOk(Front(statuses'))
      ensures st == Ok ==> AllOk(statuses')
      ensures st != Ok && statuses' != [] && statuses'[|statuses'| - 1] != Ok ==> statuses'[|statuses'| - 1] == st
      ensures st != Ok && AllOk(statuses') ==> st == Fatal(RecvFailed)
    {
      ghost var mid := inbox;
      var ok, m := Recv(i);
      if !ok {
        TurnStatuses(statuses, statuses, Fatal(RecvFailed));
        return Fatal(RecvFailed), slots, at, served, cuts, statuses, [], 0, [];
      }
      ghost var popped, before := inbox, executed;
      st, drained, value, waited := Execute(m);
      if 0 <= m.nid < nNodes && Route(m.mtype) in {BarrierH, CastH} {
        ConsumedShrunk(popped, drained, inbox);
      } else {
        ShrunkRefl(inbox);
      }
      ServedFromStep(inbox0, mid, popped, inbox, nNodes, slots, at, served, statuses, i, st);
      SegmentsExtend(base, before, executed, served, cuts, m);
      slots', at' := slots + [i], at + [|inbox0[i]| - |mid[i]|];
      served', cuts', statuses' := served + [m], cuts + [|before| - |base|], statuses + [st];
      TurnStatuses(statuses, statuses', st);
    }

    /** The serving loop: while a node is counted, wait for the next set of ready
        sockets (`rounds`, in order) and execute one message from each open ready slot,
        in slot order. `turns[q]` are the slots round `q` read: ready and ascending, and
        every ready slot it did not read is closed. All reads in order are `slots`: the
        k-th is `served[k]`, found at position `at[k]` of that slot's connection as the
        loop found it and since taken off it; it heads its own segment of the router's
        log, and `statuses[k]` is its handler's result, as Answers requires: every one
        but the last is Ok, and a handler's failure ends the loop with that failure. */
    method Serve(rounds: seq<set<int>>)
      returns (outcome: Outcome, ghost turns: seq<seq<nat>>, ghost slots: seq<nat>, ghost at: seq<int>, ghost stop: int,
               ghost served: seq<Msg>, ghost cuts: seq<int>, ghost statuses: seq<Status>)
      requires Valid()
      modifies this, pageTable, clientSockets
      ensures Valid()
      ensures outcome == Finished ==> nodeCount <= 0
      ensures outcome == OutOfInput ==> nodeCount > 0 && |turns| == |rounds|
      ensures |turns| <= |rounds|
      ensures forall q :: 0 <= q < |turns| ==> InRound(rounds[q], turns[q], nNodes)
      ensures forall q :: 0 <= q < |turns| ==> Covered(rounds[q], turns[q], clientSockets[..], nNodes)
      ensures Flatten(turns) <= slots && (!outcome.Failed? ==> Flatten(turns) == slots)
      ensures outcome.Failed? ==> |turns| < |rounds| && InRound(rounds[|turns|], slots[|Flatten(turns)|..], nNodes)
      ensures outcome.Failed? ==> StoppedAt(rounds[|turns|], slots[|Flatten(turns)|..], statuses, Fatal(outcome.failure), stop)
      ensures Shrunk(old(inbox), inbox) && ServedFrom(old(inbox), inbox, nNodes, slots, at, served, statuses)
      ensures old(executed) <= executed && Segments(executed[|old(executed)|..], served, cuts)
      ensures |statuses| == |served| && AllOk(Front(statuses))
      ensures !outcome.Failed? ==> AllOk(statuses)
      ensures outcome.Failed? && statuses != [] && statuses[|statuses| - 1] != Ok ==>
                statuses[|statuses| - 1] == Fatal(outcome.failure)
      ensures outcome.Failed? && AllOk(statuses) ==> outcome.failure == RecvFailed
    {
      turns, slots, at, served, cuts, statuses := [], [], [], [], [], [];
      stop := 0;
      ShrunkRefl(inbox);
      var r := 0;
      while nodeCount > 0
        invariant Valid() && |turns| == r
        invariant ServeSoFar(rounds, old(executed), old(inbox), turns, slots, at, served, cuts, statuses)
        invariant AllOk(statuses) && Flatten(turns) == slots
        decreases |rounds| - r
      {
        if r == |rounds| {
          return OutOfInput, turns, slots, at, stop, served, cuts, statuses;
        }
        var st;
        st, turns, slots, at, served, cuts, statuses, stop :=
          ServeRound(rounds, r, old(executed), old(inbox), turns, slots, at, served, cuts, statuses);
        if st != Ok {
          return Failed(st.failure), turns, slots, at, stop, served, cuts, statuses;
        }
        r := r + 1;
      }
      outcome := Finished;
    }

    /** The serving loop after the rounds `turns`, from the router's log `executed0` and
        the connections `inbox0`: what Serve promises for the rounds so far. */
    ghost predicate ServeSoFar(rounds: seq<set<int>>, executed0: seq<Msg>, inbox0: seq<seq<Msg>>,
                               turns: seq<seq<nat>>, slots: seq<nat>, at: seq<int>,
                               served: seq<Msg>, cuts: seq<int>, statuses: seq<Status>)
      reads this, clientSockets
    {
      && |turns| <= |rounds|
      && executed0 <= executed && Segments(executed[|executed0|..], served, cuts)
      && |statuses| == |served|
      && Shrunk(inbox0, inbox) && ServedFrom(inbox0, inbox, nNodes, slots, at, served, statuses)
      && Flatten(turns) <= slots
      && (forall q :: 0 <= q < |turns| ==> InRound(rounds[q], turns[q], nNodes))
      && (forall q :: 0 <= q < |turns| ==> Covered(rounds[q], turns[q], clientSockets[..], nNodes))
    }

    /** Serve's round `r`: serve the ready set `rounds[r]` and add what it read as the next
        round, or end the loop with a partial round on a failure. */
    method ServeRound(rounds: seq<set<int>>, r: nat, ghost executed0: seq<Msg>, ghost inbox0: seq<seq<Msg>>,
                      ghost turns: seq<seq<nat>>, ghost slots: seq<nat>, ghost at: seq<int>,
                      ghost served: seq<Msg>, ghost cuts: seq<int>, ghost statuses: seq<Status>)
      returns (st: Status, ghost turns': seq<seq<nat>>, ghost slots': seq<nat>, ghost at': seq<int>,
               ghost served': seq<Msg>, ghost cuts': seq<int>, ghost statuses': seq<Status>, ghost stop: int)
      requires Valid() && r == |turns| < |rounds|
      requires ServeSoFar(rounds, executed0, inbox0, turns, slots, at, served, cuts, statuses)
      requires AllOk(statuses) && Flatten(turns) == slots
      modifies this, pageTable, clientSockets
      ensures Valid()
      ensures ServeSoFar(rounds, executed0, inbox0, turns', slots', at', served', cuts', statuses')
      ensures st == Ok ==> |turns'| == r + 1 && AllOk(statuses') && Flatten(turns') == slots'
      ensures st != Ok ==> turns' == turns && InRound(rounds[r], slots'[|Flatten(turns')|..], nNodes)
      ensures st != Ok ==> StoppedAt(rounds[r], slots'[|Flatten(turns')|..], statuses', st, stop)
      ensures st != Ok ==> AllOk(Front(statuses'))
      ensures st != Ok && statuses' != [] && statuses'[|statuses'| - 1] != Ok ==> statuses'[|statuses'| - 1] == st
      ensures st != Ok && AllOk(statuses') ==> st == Fatal(RecvFailed)
    {
      ghost var sockets := clientSockets[..];
      st, slots', at', served', cuts', statuses', stop := ServeReady(rounds[r], executed0, inbox0, slots, at, served, cuts, statuses);
      forall q | 0 <= q < r ensures Covered(rounds[q], turns[q], clientSockets[..], nNodes) {
        assert Covered(rounds[q], turns[q], sockets, nNodes);
        CoveredKept(rounds[q], turns[q], sockets, clientSockets[..], nNodes);
      }
      if st != Ok {
        turns' := turns;
        return;
      }
      ghost var turn := slots'[|slots|..];
      assert (turns + [turn])[..r] == turns && slots + turn == slots';
      turns' := turns + [turn];
      forall q | 0 <= q < r + 1 ensures InRound(rounds[q], turns'[q], nNodes) && Covered(rounds[q], turns'[q], clientSockets[..], nNodes) {
        if q < r {
          assert InRound(rounds[q], turns[q], nNodes);
        }
      }
    }

    /** The accept phase: register connections until `nNodes` nodes are counted.
        `clients[k]` is what the k-th `accept` returned. */
    method AcceptAll(clients: seq<int>) returns (st: Status)
      requires Valid() && 0 <= nodeCount <= nNodes
      modifies this, clientSockets
      ensures Valid()
      ensures st == Ok ==> nodeCount == nNodes && nNodes - old(nodeCount) <= |clients|
      ensures st == Ok ==> forall j :: old(nodeCount) <= j < nNodes ==> clientSockets[j] == clients[j - old(nodeCount)]
    {
      var k := 0;
      while nodeCount < nNodes
        invariant Valid() && 0 <= k <= |clients| && nodeCount == old(nodeCount) + k && nodeCount <= nNodes
        invariant forall j :: old(nodeCount) <= j < nodeCount ==> clientSockets[j] == clients[j - old(nodeCount)]
        decreases nNodes - nodeCount
      {
        if k == |clients| {
          return Fatal(NoConnection);
        }
        if clients[k] < 0 {
          return Fatal(AcceptFailed);
        }
        st := Init(clients[k]);
        if st != Ok {
          return;
        }
        k := k + 1;
      }
      st := Ok;
    }

    /** `allocate`: the accept phase, then the serving loop. */
    method Run(clients: seq<int>, rounds: seq<set<int>>) returns (outcome: Outcome)
      requires Valid() && 0 <= nodeCount <= nNodes
      modifies this, pageTable, clientSockets
      ensures Valid()
      ensures outcome == Finished ==> nodeCount <= 0
    {
      var st := AcceptAll(clients);
      if st != Ok {
        return Failed(st.failure);
      }
      ghost var turns, slots, at, stop, served, cuts, statuses;
      outcome, turns, slots, at, stop, served, cuts, statuses := Serve(rounds);
    }
  }

  /** A captured cast value is a body byte or the initiator's own. */
  lemma CapturedIsByte(drained: seq<seq<Msg>>, value: int, n: nat, nid: nat, root: int, value0: Byte)
    requires n <= |drained| && Captured(drained, value, n, nid, SM_CAST, root, value0)
    ensures 0 <= value < 256
  {
  }
}
