/**
 What the sniffer tells the agent (`capture_worker.py` and `capture.py`): packets, ticks with exact counts, and the last
 word; and how counted packets add up by protocol and by conversation.
 */
module CaptureMessages {
  import opened Collections
  import opened Wrappers

  // ----- conversations -------------------------------------------------------------------

  type Host = string

  datatype Packet = Packet(proto: string, src: Host, sport: Option<nat>, dst: Host, dport: Option<nat>)

  datatype End = End(host: Host, port: nat)

  datatype FlowKey = FlowKey(proto: string, lo: End, hi: End)

  /** The order of strings by code points. */
  predicate TextLeq(a: string, b: string)
    decreases |a|
  {
    if a == [] then true
    else if b == [] then false
    else if a[0] != b[0] then a[0] < b[0]
    else TextLeq(a[1..], b[1..])
  }

  lemma {:induction false} TextLeqOrders(a: string, b: string)
    ensures TextLeq(a, b) || TextLeq(b, a)
    ensures TextLeq(a, b) && TextLeq(b, a) ==> a == b
    decreases |a|
  {
    if a != [] && b != [] && a[0] == b[0] {
      TextLeqOrders(a[1..], b[1..]);
      assert a == [a[0]] + a[1..] && b == [b[0]] + b[1..];
    }
  }

  predicate EndLeq(a: End, b: End) {
    if a.host == b.host then a.port <= b.port else TextLeq(a.host, b.host)
  }

  function Port(port: Option<nat>): nat {
    if port.Some? then port.value else 0
  }

  function Source(p: Packet): End { End(p.src, Port(p.sport)) }

  function Target(p: Packet): End { End(p.dst, Port(p.dport)) }

  function KeyOf(p: Packet): FlowKey {
    if EndLeq(Source(p), Target(p)) then FlowKey(p.proto, Source(p), Target(p))
    else FlowKey(p.proto, Target(p), Source(p))
  }

  /** Two packets share a key exactly when they are of one protocol between the same two ends, either way. */
  lemma KeyIsConversation(p: Packet, q: Packet)
    ensures KeyOf(p) == KeyOf(q) <==>
      && p.proto == q.proto
      && ((p.src == q.src && Port(p.sport) == Port(q.sport) && p.dst == q.dst && Port(p.dport) == Port(q.dport))
          || (p.src == q.dst && Port(p.sport) == Port(q.dport) && p.dst == q.src && Port(p.dport) == Port(q.sport)))
  {
    TextLeqOrders(p.src, p.dst);
    TextLeqOrders(q.src, q.dst);
  }

  /** A key names the protocol and the two ends, the lower one first; a missing port is 0. */
  lemma KeyHoldsEnds(p: Packet)
    ensures var key := KeyOf(p);
      var source := End(p.src, if p.sport.Some? then p.sport.value else 0);
      var target := End(p.dst, if p.dport.Some? then p.dport.value else 0);
      && key.proto == p.proto && EndLeq(key.lo, key.hi)
      && ((key.lo == source && key.hi == target) || (key.lo == target && key.hi == source))
  {
    TextLeqOrders(p.src, p.dst);
  }

  // ----- counts --------------------------------------------------------------------------

  /** A frame that passed the filter. */
  datatype Frame = Frame(packet: Packet, size: nat, outgoing: bool)

  datatype Row = Row(pkts: nat, bytes: nat)

  datatype Flow = Flow(pkts: nat, bytes: nat, sent: nat, received: nat)

  type Protocols = map<string, Row>
  type Flows = map<FlowKey, Flow>

  const NO_ROW := Row(0, 0)
  const NO_FLOW := Flow(0, 0, 0, 0)

  function AddRow(a: Row, b: Row): Row {
    Row(a.pkts + b.pkts, a.bytes + b.bytes)
  }

  function AddFlow(a: Flow, b: Flow): Flow {
    Flow(a.pkts + b.pkts, a.bytes + b.bytes, a.sent + b.sent, a.received + b.received)
  }

  function RowAt(rows: Protocols, name: string): Row {
    if name in rows then rows[name] else NO_ROW
  }

  function FlowAt(flows: Flows, key: FlowKey): Flow {
    if key in flows then flows[key] else NO_FLOW
  }

  function RowOf(f: Frame): Row { Row(1, f.size) }

  function FlowOf(f: Frame): Flow {
    Flow(1, f.size, if f.outgoing then 1 else 0, if f.outgoing then 0 else 1)
  }

  function Total(frames: seq<Frame>): Row {
    if frames == [] then NO_ROW else AddRow(Total(frames[..|frames| - 1]), RowOf(frames[|frames| - 1]))
  }

  function CountRow(rows: Protocols, f: Frame): Protocols {
    rows[f.packet.proto := AddRow(RowAt(rows, f.packet.proto), RowOf(f))]
  }

  function CountFlow(flows: Flows, f: Frame): Flows {
    flows[KeyOf(f.packet) := AddFlow(FlowAt(flows, KeyOf(f.packet)), FlowOf(f))]
  }

  function ByProto(frames: seq<Frame>): Protocols {
    if frames == [] then map[] else CountRow(ByProto(frames[..|frames| - 1]), frames[|frames| - 1])
  }

  function ByFlow(frames: seq<Frame>): Flows {
    if frames == [] then map[] else CountFlow(ByFlow(frames[..|frames| - 1]), frames[|frames| - 1])
  }

  function MergeRows(a: Protocols, b: Protocols): Protocols {
    map k | k in a.Keys + b.Keys :: AddRow(RowAt(a, k), RowAt(b, k))
  }

  function MergeFlows(a: Flows, b: Flows): Flows {
    map k | k in a.Keys + b.Keys :: AddFlow(FlowAt(a, k), FlowAt(b, k))
  }

  lemma AddRowAnyOrder(a: Row, b: Row, c: Row)
    ensures AddRow(AddRow(a, b), c) == AddRow(a, AddRow(b, c)) == AddRow(AddRow(a, c), b)
    ensures AddRow(a, NO_ROW) == a
  {
  }

  lemma {:induction false} TotalOfParts(a: seq<Frame>, b: seq<Frame>)
    ensures Total(a + b) == AddRow(Total(a), Total(b))
    decreases |b|
  {
    hide AddRow, RowOf;
    if b == [] {
      assert a + b == a;
      AddRowAnyOrder(Total(a), NO_ROW, NO_ROW);
    } else {
      var c, f := b[..|b| - 1], b[|b| - 1];
      assert (a + b)[..|a + b| - 1] == a + c;
      TotalOfParts(a, c);
      AddRowAnyOrder(Total(a), Total(c), RowOf(f));
    }
  }

  lemma {:induction false} ProtocolsOfParts(a: seq<Frame>, b: seq<Frame>)
    ensures ByProto(a + b) == MergeRows(ByProto(a), ByProto(b))
    decreases |b|
  {
    hide CountRow, MergeRows;
    if b == [] {
      assert a + b == a;
      MergeWithNothing(ByProto(a), map[]);
    } else {
      var c, f := b[..|b| - 1], b[|b| - 1];
      assert (a + b)[..|a + b| - 1] == a + c;
      ProtocolsOfParts(a, c);
      CountAfterMerge(ByProto(a), ByProto(c), f);
    }
  }

  lemma {:induction false} FlowsOfParts(a: seq<Frame>, b: seq<Frame>)
    ensures ByFlow(a + b) == MergeFlows(ByFlow(a), ByFlow(b))
    decreases |b|
  {
    hide CountFlow, MergeFlows;
    if b == [] {
      assert a + b == a;
      MergeWithNothing(map[], ByFlow(a));
    } else {
      var c, f := b[..|b| - 1], b[|b| - 1];
      assert (a + b)[..|a + b| - 1] == a + c;
      FlowsOfParts(a, c);
      CountAfterMergeFlows(ByFlow(a), ByFlow(c), f);
    }
  }

  lemma MergeWithNothing(rows: Protocols, flows: Flows)
    ensures MergeRows(rows, map[]) == rows && MergeFlows(flows, map[]) == flows
  {
  }

  lemma CountAfterMerge(a: Protocols, b: Protocols, f: Frame)
    ensures CountRow(MergeRows(a, b), f) == MergeRows(a, CountRow(b, f))
  {
    hide RowOf;
  }

  lemma CountAfterMergeFlows(a: Flows, b: Flows, f: Frame)
    ensures CountFlow(MergeFlows(a, b), f) == MergeFlows(a, CountFlow(b, f))
  {
    hide FlowOf, KeyOf;
  }

  // ----- what is counted -------------------------------------------------------------------

  function Bytes(frames: seq<Frame>): nat
    decreases |frames|
  {
    if frames == [] then 0 else Bytes(frames[..|frames| - 1]) + frames[|frames| - 1].size
  }

  /** The frames of one conversation, in order. */
  function OfFlow(frames: seq<Frame>, key: FlowKey): seq<Frame>
    decreases |frames|
  {
    if frames == [] then []
    else
      var last := frames[|frames| - 1];
      OfFlow(frames[..|frames| - 1], key) + if KeyOf(last.packet) == key then [last] else []
  }

  function OfProtocol(frames: seq<Frame>, name: string): seq<Frame>
    decreases |frames|
  {
    if frames == [] then []
    else
      var last := frames[|frames| - 1];
      OfProtocol(frames[..|frames| - 1], name) + if last.packet.proto == name then [last] else []
  }

  /** The frames that this host sent, or those it received. */
  function Going(frames: seq<Frame>, outgoing: bool): seq<Frame>
    decreases |frames|
  {
    if frames == [] then []
    else
      var last := frames[|frames| - 1];
      Going(frames[..|frames| - 1], outgoing) + if last.outgoing == outgoing then [last] else []
  }

  lemma OneMoreFrame(frames: seq<Frame>, f: Frame)
    ensures Bytes(frames + [f]) == Bytes(frames) + f.size
    ensures Going(frames + [f], true) == Going(frames, true) + if f.outgoing then [f] else []
    ensures Going(frames + [f], false) == Going(frames, false) + if f.outgoing then [] else [f]
  {
    assert (frames + [f])[..|frames|] == frames;
  }

  lemma NothingCounted()
    ensures Bytes([]) == 0 && Going([], true) == Going([], false) == []
  {
  }

  lemma FlowOneMore(flows: Flows, mine: seq<Frame>, f: Frame, key: FlowKey)
    requires FlowAt(flows, key) == Flow(|mine|, Bytes(mine), |Going(mine, true)|, |Going(mine, false)|)
    ensures var more := if KeyOf(f.packet) == key then mine + [f] else mine;
      && (key in CountFlow(flows, f) <==> key in flows || KeyOf(f.packet) == key)
      && FlowAt(CountFlow(flows, f), key) == Flow(|more|, Bytes(more), |Going(more, true)|, |Going(more, false)|)
  {
    hide KeyOf, Bytes, Going;
    OneMoreFrame(mine, f);
  }

  /** Of a conversation the table says how many frames it has, how many bytes, and how many frames went each way. */
  lemma {:induction false} FlowIsCounted(frames: seq<Frame>, key: FlowKey)
    ensures var (flows, mine) := (ByFlow(frames), OfFlow(frames, key));
      && (key in flows <==> mine != [])
      && FlowAt(flows, key) == Flow(|mine|, Bytes(mine), |Going(mine, true)|, |Going(mine, false)|)
    decreases |frames|
  {
    hide CountFlow, Bytes, Going;
    if frames == [] {
      NothingCounted();
    } else {
      var before, last := frames[..|frames| - 1], frames[|frames| - 1];
      FlowIsCounted(before, key);
      FlowOneMore(ByFlow(before), OfFlow(before, key), last, key);
      assert KeyOf(last.packet) != key ==> OfFlow(before, key) + [] == OfFlow(before, key);
    }
  }

  /** Of a protocol, and of everything together, how many frames and how many bytes. */
  lemma {:induction false} ProtocolIsCounted(frames: seq<Frame>, name: string)
    ensures var (rows, mine) := (ByProto(frames), OfProtocol(frames, name));
      && (name in rows <==> mine != [])
      && RowAt(rows, name) == Row(|mine|, Bytes(mine))
    ensures Total(frames) == Row(|frames|, Bytes(frames))
    decreases |frames|
  {
    hide Bytes, Going;
    if frames == [] {
      NothingCounted();
    } else {
      var before, last := frames[..|frames| - 1], frames[|frames| - 1];
      ProtocolIsCounted(before, name);
      OneMoreFrame(OfProtocol(before, name), last);
      OneMoreFrame(before, last);
      assert before + [last] == frames;
      assert last.packet.proto != name ==> OfProtocol(before, name) + [] == OfProtocol(before, name);
    }
  }

  // ----- sums over a table ---------------------------------------------------------------

  ghost function SumRows(rows: Protocols): Row
    decreases |rows|
  {
    if rows == map[] then NO_ROW
    else
      var k :| k in rows;
      AddRow(SumRows(rows - {k}), rows[k])
  }

  /** The sum may be taken in any order. */
  lemma {:induction false} SumRowsPick(rows: Protocols, k: string)
    requires k in rows
    ensures SumRows(rows) == AddRow(SumRows(rows - {k}), rows[k])
    decreases |rows|
  {
    var j :| j in rows && SumRows(rows) == AddRow(SumRows(rows - {j}), rows[j]);
    if j != k {
      assert rows - {j} - {k} == rows - {k} - {j};
      SumRowsPick(rows - {j}, k);
      SumRowsPick(rows - {k}, j);
      var rest := SumRows(rows - {j} - {k});
      assert SumRows(rows - {j}) == AddRow(rest, rows[k]);
      assert SumRows(rows - {k}) == AddRow(rest, rows[j]);
      AddRowAnyOrder(rest, rows[j], rows[k]);
    }
  }

  lemma SumRowsCount(rows: Protocols, f: Frame)
    ensures SumRows(CountRow(rows, f)) == AddRow(SumRows(rows), RowOf(f))
  {
    hide RowOf, SumRows;
    var k, after := f.packet.proto, CountRow(rows, f);
    SumRowsPick(after, k);
    assert after - {k} == rows - {k};
    if k in rows {
      SumRowsPick(rows, k);
    } else {
      assert rows - {k} == rows;
    }
  }

  /** Every packet is counted for exactly one protocol. */
  lemma {:induction false} ProtocolsAddUp(frames: seq<Frame>)
    ensures SumRows(ByProto(frames)) == Total(frames)
    ensures Total(frames).pkts == |frames|
    decreases |frames|
  {
    if frames != [] {
      ProtocolsAddUp(frames[..|frames| - 1]);
      SumRowsCount(ByProto(frames[..|frames| - 1]), frames[|frames| - 1]);
    }
  }

  predicate Directed(flow: Flow) {
    flow.sent + flow.received == flow.pkts
  }

  lemma {:induction false} FlowsAreDirected(frames: seq<Frame>)
    ensures forall k <- ByFlow(frames).Keys :: Directed(ByFlow(frames)[k])
    decreases |frames|
  {
    if frames != [] {
      FlowsAreDirected(frames[..|frames| - 1]);
    }
  }

  // ----- messages ------------------------------------------------------------------------

  const MAX_TICK_FLOWS: nat := 150

  type FlowList = seq<(FlowKey, Flow)>

  datatype Message =
    | Listed(packet: Packet, size: nat)
    | Tick(total: Row, protos: Protocols, skipped: nat, flows: FlowList)
    | LastWord(reason: string)

  /** The largest conversations, largest first; those of one size may stand in any order. */
  ghost predicate Top(flows: Flows, list: FlowList) {
    && |list| == Min(|flows|, MAX_TICK_FLOWS)
    && (forall i :: 0 <= i < |list| ==> list[i].0 in flows && flows[list[i].0] == list[i].1)
    && (forall i, j :: 0 <= i < j < |list| ==> list[i].0 != list[j].0 && list[i].1.bytes >= list[j].1.bytes)
    && (forall k <- flows.Keys :: (exists i :: 0 <= i < |list| && list[i].0 == k) ||
                                  (forall i :: 0 <= i < |list| ==> list[i].1.bytes >= flows[k].bytes))
  }
}
