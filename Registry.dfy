/** The earliest iteration of the allocator: a table of registered nodes. Each request
    arrives on a fresh connection as a line of text; "init" registers a node and
    "close nid=<n>" removes one. The serving loop ends once no node is registered. */
module Registry {
  import opened Common

  /** `node_t`: a registered node. */
  datatype Node = Node(nid: int)

  /** A reply written to connection `client`. */
  datatype Sent = Sent(client: int, text: string)

  /** One accepted connection: what `accept` returned and the text read from it. */
  datatype Request = Request(client: int, text: string)

  datatype Failure = TableFull | BadRequest | UnknownNode | AcceptFailed | NoConnection

  datatype Status = Ok | Fatal(failure: Failure)

  // ---------------------------------------------------------------- decimal text

  predicate IsDigit(c: char) {
    '0' <= c <= '9'
  }

  predicate AllDigits(s: string) {
    forall i :: 0 <= i < |s| ==> IsDigit(s[i])
  }

  /** `printf`'s `%d` of a non-negative value: its decimal digits, most significant first. */
  function Decimal(n: nat): (s: string)
    ensures s != [] && AllDigits(s)
    decreases n
  {
    var last := ('0' as int + n % 10) as char;
    if n < 10 then [last] else Decimal(n / 10) + [last]
  }

  /** The value a run of decimal digits denotes. */
  function DigitsValue(s: string): nat
    requires AllDigits(s)
    decreases |s|
  {
    if s == [] then 0
    else DigitsValue(s[..|s| - 1]) * 10 + (s[|s| - 1] as int - '0' as int)
  }

  /** Reading back the digits `Decimal` writes gives the number. */
  lemma {:induction false} DecimalRoundTrip(n: nat)
    ensures DigitsValue(Decimal(n)) == n
    decreases n
  {
    if n >= 10 {
      DecimalRoundTrip(n / 10);
      var s := Decimal(n);
      assert s[..|s| - 1] == Decimal(n / 10);
    }
  }

  /** The length of the run of digits `s` starts with. */
  function DigitRun(s: string): (k: nat)
    ensures k <= |s| && AllDigits(s[..k])
    ensures k < |s| ==> !IsDigit(s[k])
    decreases |s|
  {
    if s != [] && IsDigit(s[0]) then
      var k := DigitRun(s[1..]);
      assert s[..k + 1] == [s[0]] + s[1..][..k];
      k + 1
    else 0
  }

  /** A run of digits followed by a non-digit is read to its end and no further. */
  lemma {:induction false} DigitRunOf(d: string, rest: string)
    requires AllDigits(d) && (rest == [] || !IsDigit(rest[0]))
    ensures DigitRun(d + rest) == |d|
    decreases |d|
  {
    if d != [] {
      assert (d + rest)[1..] == d[1..] + rest;
      DigitRunOf(d[1..], rest);
    }
  }

  predicate IsSpace(c: char) {
    c == ' ' || c == '\t' || c == '\n' || c == '\r' || c == '\U{000B}' || c == '\U{000C}'
  }

  /** `scanf`'s `%d`: leading white space, an optional sign, then the longest run of
      digits, of which there must be at least one. */
  function ScanInt(s: string): Option<int>
    decreases |s|
  {
    if s != [] && IsSpace(s[0]) then ScanInt(s[1..])
    else if s != [] && (s[0] == '-' || s[0] == '+') then
      var k := DigitRun(s[1..]);
      if k == 0 then None
      else if s[0] == '-' then Some(0 - DigitsValue(s[1..][..k]) as int)
      else Some(DigitsValue(s[1..][..k]))
    else
      var k := DigitRun(s);
      if k == 0 then None else Some(DigitsValue(s[..k]))
  }

  /** A written number is scanned back whenever a non-digit (or nothing) follows it. */
  lemma ScanDecimal(n: nat, rest: string)
    requires rest == [] || !IsDigit(rest[0])
    ensures ScanInt(Decimal(n) + rest) == Some(n)
  {
    var d := Decimal(n);
    DigitRunOf(d, rest);
    assert (d + rest)[..|d|] == d;
    DecimalRoundTrip(n);
  }

  predicate AllSpace(s: string) {
    forall i :: 0 <= i < |s| ==> IsSpace(s[i])
  }

  /** A white-space directive of a `scanf` format: it consumes every leading white-space
      character, possibly none. */
  function SkipSpace(s: string): (r: string)
    ensures |r| <= |s| && r == s[|s| - |r|..]
    ensures r == [] || !IsSpace(r[0])
    decreases |s|
  {
    if s != [] && IsSpace(s[0]) then SkipSpace(s[1..]) else s
  }

  /** Skipping white space passes over a run of it and stops at the first other character. */
  lemma {:induction false} SkipSpaceOf(sp: string, t: string)
    requires AllSpace(sp) && (t == [] || !IsSpace(t[0]))
    ensures SkipSpace(sp + t) == t
    decreases |sp|
  {
    if sp != [] {
      assert (sp + t)[1..] == sp[1..] + t;
      SkipSpaceOf(sp[1..], t);
    }
  }

  /** The close request a node sends. */
  const CLOSE_PREFIX: string := "close nid="

  /** `sscanf(buffer, "close nid=%d", &client_id)`: the literal "close", the format's
      space (any run of white space, possibly empty), the literal "nid=", then `%d`. */
  function ScanCloseNid(text: string): Option<int> {
    if |text| >= 5 && text[..5] == "close" then
      var t := SkipSpace(text[5..]);
      if |t| >= 4 && t[..4] == "nid=" then ScanInt(t[4..]) else None
    else None
  }

  /** A close request for node `n` names `n`, whatever white space separates "close" from
      "nid=" and whatever non-digit text follows the number. */
  lemma ScanCloseNidRoundTrip(text: string, n: nat, sp: string, rest: string)
    requires AllSpace(sp)
    requires rest == [] || !IsDigit(rest[0])
    requires text == "close" + sp + "nid=" + Decimal(n) + rest
    ensures ScanCloseNid(text) == Some(n)
  {
    var c, m, d := "close", "nid=", Decimal(n);
    var t := m + (d + rest);
    ConcatAssoc(c + sp + m, d, rest);
    ConcatAssoc(c + sp, m, d + rest);
    ConcatAssoc(c, sp, t);
    SplitAt(c, sp + t);
    assert text[..5] == c && text[5..] == sp + t;
    assert t[0] == 'n';
    SkipSpaceOf(sp, t);
    SplitAt(m, d + rest);
    assert t[..4] == m && t[4..] == d + rest;
    ScanDecimal(n, rest);
  }

  /** The node's own request names its node. */
  lemma CloseSpellingCanonical(n: nat)
    ensures ScanCloseNid(CLOSE_PREFIX + Decimal(n)) == Some(n)
  {
    var d := Decimal(n);
    assert "close" + " " + "nid=" == CLOSE_PREFIX;
    assert CLOSE_PREFIX + d + [] == CLOSE_PREFIX + d;
    ScanCloseNidRoundTrip(CLOSE_PREFIX + d, n, " ", []);
  }

  /** With no space at all between "close" and "nid=" the request still names its node. */
  lemma CloseWithoutSpace(n: nat)
    ensures ScanCloseNid("closenid=" + Decimal(n)) == Some(n)
  {
    var d := Decimal(n);
    assert "close" + "" + "nid=" == "closenid=";
    assert "closenid=" + d + [] == "closenid=" + d;
    ScanCloseNidRoundTrip("closenid=" + d, n, "", []);
  }

  /** The registration reply: the new node's nid and the new count. */
  function InitReplyText(nid: nat, count: nat): string {
    "nid: " + Decimal(nid) + ", nodes: " + Decimal(count) + "\n"
  }

  /** A node reading its reply with `%d` after "nid: " recovers its nid. */
  lemma InitReplyNamesNode(nid: nat, count: nat)
    ensures ScanInt(InitReplyText(nid, count)[5..]) == Some(nid)
  {
    var rest := ", nodes: " + Decimal(count) + "\n";
    assert InitReplyText(nid, count)[5..] == Decimal(nid) + rest;
    ScanDecimal(nid, rest);
  }

  // ---------------------------------------------------------------- routing

  datatype Command = InitCmd | CloseCmd | Ignored

  /** The test as written at allocator.c:33-35: `strstr(buffer, "close") == 0` holds
      when "close" does NOT occur. */
  function RouteAsWritten(text: string): Command {
    if text == "init" then InitCmd
    else if !Contains(text, "close") then CloseCmd
    else Ignored
  }

  /** The test as evidently intended: a text containing "close" closes. */
  function Route(text: string): Command {
    if text == "init" then InitCmd
    else if Contains(text, "close") then CloseCmd
    else Ignored
  }

  /** Only exactly "init" registers; a text closes exactly when "close" occurs in it
      somewhere; everything else is ignored. */
  lemma RouteMeans(text: string)
    ensures Route(text) == InitCmd <==> text == "init"
    ensures Route(text) == CloseCmd <==> text != "init" && exists i :: OccursAt(text, "close", i)
    ensures Route(text) == Ignored <==> text != "init" && forall i :: !OccursAt(text, "close", i)
  {
    ContainsAt(text, "close");
  }

  /** As written, a node's close request is ignored, while any other text ("exit")
      closes whatever nid its garbage parse yields. */
  lemma AsWrittenRouteInverted(n: nat)
    ensures RouteAsWritten(CLOSE_PREFIX + Decimal(n)) == Ignored
    ensures RouteAsWritten("exit") == CloseCmd
    ensures Route(CLOSE_PREFIX + Decimal(n)) == CloseCmd && Route("exit") == Ignored
  {
    var text := CLOSE_PREFIX + Decimal(n);
    assert text[..5] == "close";
    assert text != "init" by { assert |text| > 4; }
  }

  /** The slots `allocator_init`'s reset loop writes as written (`i <= n_proc`). */
  function ResetSlotsAsWritten(nProc: nat): (slots: seq<int>)
    ensures |slots| == nProc + 1
  {
    seq(nProc + 1, i => i)
  }

  /** The last slot written is one past the `n_proc`-entry list. */
  lemma AsWrittenResetOverruns(nProc: nat)
    ensures exists k :: 0 <= k < |ResetSlotsAsWritten(nProc)| && ResetSlotsAsWritten(nProc)[k] >= nProc
  {
    assert ResetSlotsAsWritten(nProc)[nProc] == nProc;
  }

  const ACK: string := "ACK"

  /** The byte count `node_close` passes to `send` as written: `strlen(buffer)`, the
      length of the request, not of "ACK". */
  function AckLengthAsWritten(request: string): nat {
    |request|
  }

  /** Every close request is longer than the "ACK" literal and its terminator, so the
      `send` reads past the literal. */
  lemma AsWrittenAckOverreads(n: nat)
    ensures AckLengthAsWritten(CLOSE_PREFIX + Decimal(n)) > |ACK| + 1
  {
  }

  // ---------------------------------------------------------------- the table as a value

  /** The node list, the count of running nodes and the replies sent so far. */
  datatype Table = Table(slots: seq<Option<Node>>, count: int, outbox: seq<Sent>)

  /** A registered node sits in the slot of its own nid, and the count is at most the
      number of slots. */
  ghost predicate TableOk(t: Table) {
    && t.count <= |t.slots|
    && forall i :: 0 <= i < |t.slots| && t.slots[i].Some? ==> t.slots[i].value.nid == i
  }

  /** `node_init` on the table. */
  function Register(t: Table, client: int): (Status, Table)
    requires 0 <= t.count
  {
    if t.count >= |t.slots| then (Fatal(TableFull), t)
    else (Ok, Table(t.slots[t.count := Some(Node(t.count))], t.count + 1,
                    t.outbox + [Sent(client, InitReplyText(t.count, t.count + 1))]))
  }

  /** `node_close` on the table. */
  function Unregister(t: Table, client: int, text: string): (Status, Table) {
    match ScanCloseNid(text)
    case None => (Fatal(BadRequest), t)
    case Some(id) =>
      if !(0 <= id < |t.slots|) then (Fatal(UnknownNode), t)
      else (Ok, Table(t.slots[id := None], t.count - 1, t.outbox + [Sent(client, ACK)]))
  }

  /** One accepted connection's request, routed by its text. */
  function Handle(t: Table, r: Request): (Status, Table)
    requires 0 <= t.count
  {
    match Route(r.text)
    case InitCmd => Register(t, r.client)
    case CloseCmd => Unregister(t, r.client, r.text)
    case Ignored => (Ok, t)
  }

  /** `allocate`'s loop over the accepted connections: stop at a failed `accept`, at a
      request that fails, or once no node is counted after a request. */
  function Session(t: Table, requests: seq<Request>): (r: (Status, Table))
    requires 0 <= t.count
    ensures r.0 == Ok ==> r.1.count <= 0
    ensures TableOk(t) ==> TableOk(r.1)
    decreases |requests|
  {
    if requests == [] then (Fatal(NoConnection), t)
    else if requests[0].client < 0 then (Fatal(AcceptFailed), t)
    else
      var (st, t') := Handle(t, requests[0]);
      HandleKeepsTable(t, requests[0]);
      if st != Ok then (st, t')
      else if t'.count <= 0 then (Ok, t')
      else Session(t', requests[1..])
  }

  /** Handling a request keeps every registered node in the slot of its nid. */
  lemma HandleKeepsTable(t: Table, r: Request)
    requires 0 <= t.count
    ensures TableOk(t) ==> TableOk(Handle(t, r).1)
  {
    var t' := Handle(t, r).1;
    if TableOk(t) && Route(r.text) == InitCmd && t.count < |t.slots| {
      forall i | 0 <= i < |t'.slots| && t'.slots[i].Some? ensures t'.slots[i].value.nid == i {
        if i != t.count {
          assert t'.slots[i] == t.slots[i];
        }
      }
    }
  }

  /** A node that registers on an empty table and then closes itself ends the session:
      it is told nid 0 of 1 nodes, acknowledged, and its slot is empty again, however
      many slots the table has. */
  lemma RegisterThenClose(nProc: nat, c1: int, c2: int)
    requires nProc >= 1 && c1 >= 0 && c2 >= 0
    ensures var t := Table(seq(nProc, _ => None), 0, []);
            var requests := [Request(c1, "init"), Request(c2, CLOSE_PREFIX + Decimal(0))];
            Session(t, requests)
              == (Ok, Table(seq(nProc, _ => None), 0, [Sent(c1, InitReplyText(0, 1)), Sent(c2, ACK)]))
  {
    var t := Table(seq(nProc, _ => None), 0, []);
    var close := Request(c2, CLOSE_PREFIX + Decimal(0));
    var requests := [Request(c1, "init"), close];
    var t1 := Table(t.slots[0 := Some(Node(0))], 1, [Sent(c1, InitReplyText(0, 1))]);
    assert Route("init") == InitCmd;
    assert t.outbox + [Sent(c1, InitReplyText(0, 1))] == [Sent(c1, InitReplyText(0, 1))];
    assert Register(t, c1) == (Ok, t1);
    assert Handle(t, requests[0]) == (Ok, t1);
    assert requests[1..] == [close];
    AsWrittenRouteInverted(0);
    CloseSpellingCanonical(0);
    assert t1.slots[0 := None] == seq(nProc, _ => None);
    assert t1.outbox + [Sent(c2, ACK)] == [Sent(c1, InitReplyText(0, 1)), Sent(c2, ACK)];
    assert ScanCloseNid(close.text) == Some(0);
    assert Unregister(t1, c2, close.text) == (Ok, Table(t1.slots[0 := None], 0, t1.outbox + [Sent(c2, ACK)]));
    assert Handle(t1, close) == (Ok, Table(seq(nProc, _ => None), 0, [Sent(c1, InitReplyText(0, 1)), Sent(c2, ACK)]));
  }

  // ---------------------------------------------------------------- the node table

  /** `allocator_t` of this iteration: the node list and the count of running nodes. */
  class NodeTable {
    /** `metadata->n_proc`: the number of slots. */
    const nProc: nat
    /** `node_list` */
    const nodeList: array<Option<Node>>
    /** `n_nodes` */
    var nNodes: int
    var outbox: seq<Sent>

    /** A registered node sits in the slot of its own nid. */
    ghost predicate Valid()
      reads this, nodeList
    {
      nodeList.Length == nProc && TableOk(Snapshot())
    }

    /** The table as a value. */
    ghost function Snapshot(): Table
      reads this, nodeList
    {
      Table(nodeList[..], nNodes, outbox)
    }

    /** `allocator_init`'s list reset, bounded by the list's length: every slot empty, no
        node counted. */
    constructor (nProc: nat)
      ensures Valid() && this.nProc == nProc
      ensures forall i :: 0 <= i < nProc ==> nodeList[i] == None
      ensures nNodes == 0 && outbox == []
    {
      this.nProc := nProc;
      nodeList := new Option<Node>[nProc];
      nNodes := 0;
      outbox := [];
      new;
      for i := 0 to nProc
        invariant forall k :: 0 <= k < i ==> nodeList[k] == None
        invariant this.nProc == nProc && nodeList.Length == nProc && nNodes == 0 && outbox == []
      {
        nodeList[i] := None;
      }
    }

    /** `node_init`: the new node's nid is the count before it; it is stored in that slot,
        counted, and told its nid and the new count. A full list is refused. */
    method Init(client: int) returns (st: Status)
      requires Valid() && 0 <= nNodes
      modifies this, nodeList
      ensures Valid()
      ensures old(nNodes) >= nProc ==>
                st == Fatal(TableFull) && nNodes == old(nNodes) &&
                outbox == old(outbox) && nodeList[..] == old(nodeList[..])
      ensures old(nNodes) < nProc ==>
                && st == Ok
                && nodeList[old(nNodes)] == Some(Node(old(nNodes)))
                && (forall i :: 0 <= i < nProc && i != old(nNodes) ==> nodeList[i] == old(nodeList[i]))
                && nNodes == old(nNodes) + 1
                && outbox == old(outbox) + [Sent(client, InitReplyText(old(nNodes), nNodes))]
      ensures (st, Snapshot()) == Register(old(Snapshot()), client)
    {
      if nNodes >= nProc {
        return Fatal(TableFull);
      }
      var node := Node(nNodes);
      nodeList[nNodes] := Some(node);
      nNodes := nNodes + 1;
      outbox := outbox + [Sent(client, InitReplyText(node.nid, nNodes))];
      st := Ok;
    }

    /** `node_close`: read the nid from the request, empty only that slot, count one node
        fewer and acknowledge. A request naming no nid, or a nid outside the list, is
        refused. */
    method Close(client: int, text: string) returns (st: Status)
      requires Valid()
      modifies this, nodeList
      ensures Valid()
      ensures ScanCloseNid(text).None? ==> st == Fatal(BadRequest)
      ensures ScanCloseNid(text).Some? && !(0 <= ScanCloseNid(text).value < nProc) ==> st == Fatal(UnknownNode)
      ensures st != Ok ==> nNodes == old(nNodes) && outbox == old(outbox) && nodeList[..] == old(nodeList[..])
      ensures st == Ok ==>
                var id := ScanCloseNid(text).value;
                && ScanCloseNid(text).Some? && 0 <= id < nProc
                && nodeList[id] == None
                && (forall i :: 0 <= i < nProc && i != id ==> nodeList[i] == old(nodeList[i]))
                && nNodes == old(nNodes) - 1
                && outbox == old(outbox) + [Sent(client, ACK)]
      ensures (st, Snapshot()) == Unregister(old(Snapshot()), client, text)
    {
      var parsed := ScanCloseNid(text);
      if parsed.None? {
        return Fatal(BadRequest);
      }
      var clientId := parsed.value;
      if !(0 <= clientId < nProc) {
        return Fatal(UnknownNode);
      }
      ghost var slots := nodeList[..];
      nodeList[clientId] := None;
      assert nodeList[..] == slots[clientId := None];
      nNodes := nNodes - 1;
      outbox := outbox + [Sent(client, ACK)];
      st := Ok;
    }

    /** `allocate`: handle one connection at a time until, after some request, no node is
        counted. `requests[k]` is the k-th accepted connection and the text read from it.
        The outcome and the final table are the session's. */
    method Allocate(requests: seq<Request>) returns (st: Status)
      requires Valid() && 0 <= nNodes
      modifies this, nodeList
      ensures Valid()
      ensures (st, Snapshot()) == Session(old(Snapshot()), requests)
      ensures st == Ok ==> nNodes <= 0
    {
      var k := 0;
      while true
        invariant Valid() && 0 <= nNodes && k <= |requests|
        invariant Session(Snapshot(), requests[k..]) == Session(old(Snapshot()), requests)
        decreases |requests| - k
      {
        if k == |requests| {
          return Fatal(NoConnection);
        }
        var request := requests[k];
        if request.client < 0 {
          return Fatal(AcceptFailed);
        }
        ghost var t := Snapshot();
        match Route(request.text) {
          case InitCmd => st := Init(request.client);
          case CloseCmd => st := Close(request.client, request.text);
          case Ignored => st := Ok;
        }
        assert (st, Snapshot()) == Handle(t, request);
        assert requests[k..][0] == request && requests[k..][1..] == requests[k + 1..];
        if st != Ok {
          return st;
        }
        k := k + 1;
        if nNodes <= 0 {
          return Ok;
        }
      }
    }
  }
}
