/**
 What the agent keeps of a capture (`capture.py`, `_apply` and `snapshot`): the totals, which account for every packet
 the sniffer counted, and a ring of the latest packets from which polls read what is new.
 */
module CaptureTotals {
  import opened CaptureMessages
  import opened CaptureWorker
  import opened Collections
  import opened Wrappers

  const MAX_PACKETS: nat := 3000
  const MAX_SERIES: nat := 600
  const MAX_KEPT_FLOWS: nat := 1000

  datatype Status = Capturing | Done | Stopped | Error

  /** A listed packet with its number. */
  datatype Numbered = Numbered(n: nat, packet: Packet, size: nat)

  datatype Capture = Capture(
    status: Status, finished: bool, error: Option<string>,
    packets: seq<Numbered>, last: nat, series: seq<Row>,
    totals: Row, unlisted: nat, protocols: Protocols, flows: Flows)

  const FRESH := Capture(Capturing, false, None, [], 0, [], NO_ROW, 0, map[], map[])

  /** The last `size` elements. */
  function LastOf<T>(run: seq<T>, size: nat): (r: seq<T>)
    ensures |r| == Min(|run|, size)
  {
    if |run| <= size then run else run[|run| - size..]
  }

  lemma LastOfNothing<T>(size: nat)
    ensures LastOf<T>([], size) == []
  {
  }

  lemma LastOfMore<T>(all: seq<T>, x: T, size: nat)
    ensures LastOf(LastOf(all, size) + [x], size) == LastOf(all + [x], size)
  {
  }

  /** A conversation that is new when a thousand are kept is left out. */
  function KeepFlow(flows: Flows, key: FlowKey, flow: Flow): Flows {
    if key !in flows && |flows| >= MAX_KEPT_FLOWS then flows else flows[key := AddFlow(FlowAt(flows, key), flow)]
  }

  function KeepFlows(flows: Flows, list: FlowList): Flows
    decreases |list|
  {
    if list == [] then flows
    else KeepFlow(KeepFlows(flows, list[..|list| - 1]), list[|list| - 1].0, list[|list| - 1].1)
  }

  function Apply(c: Capture, m: Message): Capture {
    match m
    case Listed(packet, size) =>
      c.(last := c.last + 1, packets := LastOf(c.packets + [Numbered(c.last + 1, packet, size)], MAX_PACKETS))
    case Tick(total, protos, skipped, flows) =>
      c.(series := LastOf(c.series + [total], MAX_SERIES),
         totals := AddRow(c.totals, total),
         unlisted := c.unlisted + skipped,
         protocols := MergeRows(c.protocols, protos),
         flows := KeepFlows(c.flows, flows))
    case LastWord(reason) =>
      if reason == "finished" then c.(status := Done, finished := true)
      else if reason == "stopped" then c.(status := Stopped, finished := true)
      else c.(status := Error, finished := true, error := Some(reason))
  }

  function ApplyAll(c: Capture, out: seq<Message>): Capture
    decreases |out|
  {
    if out == [] then c else Apply(ApplyAll(c, out[..|out| - 1]), out[|out| - 1])
  }

  // ----- nothing counted is lost ---------------------------------------------------------

  /** The frames counted before the last tick. */
  function Reported(log: Log): seq<Frame>
    decreases |log|
  {
    if log == [] then []
    else
      match log[|log| - 1]
      case Counted(_, _) => Reported(log[..|log| - 1])
      case Ticked => Reported(log[..|log| - 1]) + Recent(log[..|log| - 1])
  }

  ghost predicate AllDirected(flows: Flows) {
    forall k <- flows.Keys :: Directed(flows[k])
  }

  /** The tables hold exactly what was reported; what is listed or unlisted runs ahead by what was listed since. */
  ghost predicate Balanced(c: Capture, log: Log) {
    && c.totals == Total(Reported(log))
    && c.protocols == ByProto(Reported(log))
    && c.last + c.unlisted == c.totals.pkts + RecentListed(log)
    && AllDirected(c.flows)
  }

  lemma {:induction false} KeepsDirected(flows: Flows, list: FlowList)
    requires AllDirected(flows) && forall i :: 0 <= i < |list| ==> Directed(list[i].1)
    ensures AllDirected(KeepFlows(flows, list))
    decreases |list|
  {
    if list != [] {
      KeepsDirected(flows, list[..|list| - 1]);
    }
  }

  lemma BalancedTick(c: Capture, log: Log, m: Message)
    requires Balanced(c, log) && Reports(m, log)
    ensures Balanced(Apply(c, m), log + [Ticked])
  {
    hide MergeRows, KeepFlows, AllDirected;
    var after := log + [Ticked];
    assert after[..|after| - 1] == log;
    TotalOfParts(Reported(log), Recent(log));
    ProtocolsOfParts(Reported(log), Recent(log));
    ProtocolsAddUp(Recent(log));
    FlowsAreDirected(Recent(log));
    KeepsDirected(c.flows, m.flows);
  }

  lemma BalancedCounted(c: Capture, log: Log, f: Frame, listed: bool)
    requires Balanced(c, log)
    ensures Balanced(if listed then Apply(c, Listed(f.packet, f.size)) else c, log + [Counted(f, listed)])
  {
    var after := log + [Counted(f, listed)];
    assert after[..|after| - 1] == log;
  }

  lemma {:induction false} RunIsBalanced(log: Log, out: seq<Message>)
    requires Emits(log, out)
    ensures Balanced(ApplyAll(FRESH, out), log)
    decreases |log|
  {
    hide Balanced, Apply, Reports;
    if log == [] {
      NothingIsBalanced();
    } else {
      var before := Front(log);
      match Last(log)
      case Ticked =>
        RunIsBalanced(before, Front(out));
        BalancedTick(ApplyAll(FRESH, Front(out)), before, Last(out));
        assert before + [Ticked] == log;
      case Counted(f, listed) =>
        RunIsBalanced(before, if listed then Front(out) else out);
        BalancedCounted(ApplyAll(FRESH, if listed then Front(out) else out), before, f, listed);
        assert before + [Counted(f, listed)] == log;
    }
  }

  lemma NothingIsBalanced()
    ensures Balanced(FRESH, [])
  {
  }

  /**
   Right after a tick is applied, what is listed and what is not make up the total, and so do the protocols, in packets
   and in bytes; and every conversation went out or came in.
   */
  lemma TickBalances(log: Log, out: seq<Message>)
    requires Emits(log, out) && log != [] && Last(log) == Ticked
    ensures var c := ApplyAll(FRESH, out);
      && c.last + c.unlisted == c.totals.pkts
      && SumRows(c.protocols) == c.totals
      && AllDirected(c.flows)
  {
    RunIsBalanced(log, out);
    ProtocolsAddUp(Reported(log));
  }

  /** Everything that is counted up to the tick that ends the log is in the tables, and they balance. */
  ghost predicate Complete(c: Capture, log: Log) {
    && log != [] && Last(log) == Ticked
    && c.totals == Total(Reported(log)) && c.protocols == ByProto(Reported(log))
    && c.last + c.unlisted == c.totals.pkts == |Reported(log)|
    && SumRows(c.protocols) == c.totals
    && AllDirected(c.flows)
  }

  /** For every run of the sniffer, right after each of its ticks is applied. */
  lemma EveryTickBalances(turns: seq<Turn>, start: Clock, maxPps: nat, reason: string, out: seq<Message>, k: nat)
    returns (log: Log)
    requires IsOutput(turns, start, maxPps, reason, out) && 0 < k <= |out| && out[k - 1].Tick?
    ensures log <= LogOf(turns, start, maxPps).1 && Emits(log, out[..k])
    ensures Complete(ApplyAll(FRESH, out[..k]), log)
  {
    hide LogOf, Apply;
    assert k < |out| && Front(out)[..k] == out[..k];
    log := EmitsCut(LogOf(turns, start, maxPps).1, Front(out), k);
    TickBalances(log, out[..k]);
    RunIsBalanced(log, out[..k]);
    ProtocolsAddUp(Reported(log));
  }

  // ----- conversations -------------------------------------------------------------------

  /** No tick saw more conversations than it can name, and all together are no more than are kept. */
  ghost predicate Small(log: Log)
    decreases |log|
  {
    log != [] ==>
      && Small(Front(log))
      && |ByFlow(Reported(log))| <= MAX_KEPT_FLOWS
      && (Last(log) == Ticked ==> |ByFlow(Recent(Front(log)))| <= MAX_TICK_FLOWS)
  }

  function KeysOf(list: FlowList): set<FlowKey> {
    set i | 0 <= i < |list| :: list[i].0
  }

  function Restrict(flows: Flows, keys: set<FlowKey>): Flows {
    map k | k in flows && k in keys :: flows[k]
  }

  /** Entries of a table, each at most once. */
  ghost predicate From(flows: Flows, list: FlowList) {
    && (forall i :: 0 <= i < |list| ==> list[i].0 in flows && flows[list[i].0] == list[i].1)
    && (forall i, j :: 0 <= i < j < |list| ==> list[i].0 != list[j].0)
  }

  lemma KeysOfLonger(flows: Flows, list: FlowList)
    requires From(flows, list) && list != []
    ensures KeysOf(list) == KeysOf(Front(list)) + {Last(list).0} && Last(list).0 !in KeysOf(Front(list))
    ensures From(flows, Front(list))
  {
    forall k | k in KeysOf(list) ensures k in KeysOf(Front(list)) + {Last(list).0} {
      var i :| 0 <= i < |list| && list[i].0 == k;
      if i < |list| - 1 {
        assert Front(list)[i].0 == k;
      }
    }
    assert forall i :: 0 <= i < |list| - 1 ==> Front(list)[i] == list[i];
    assert list[|list| - 1].0 in KeysOf(list);
  }

  lemma KeepIsMerge(kept: Flows, flows: Flows, keys: set<FlowKey>, key: FlowKey)
    requires key in flows && key !in keys && |MergeFlows(kept, flows)| <= MAX_KEPT_FLOWS
    ensures KeepFlow(MergeFlows(kept, Restrict(flows, keys)), key, flows[key]) ==
      MergeFlows(kept, Restrict(flows, keys + {key}))
  {
    hide AddFlow;
    var before := MergeFlows(kept, Restrict(flows, keys));
    if key !in before {
      SubsetSize(before.Keys, MergeFlows(kept, flows).Keys);
    }
    AddNoFlow(FlowAt(kept, key));
    MergeRestrictedMore(kept, flows, keys, key);
  }

  lemma MergeRestrictedMore(kept: Flows, flows: Flows, keys: set<FlowKey>, key: FlowKey)
    requires key in flows && key !in keys
    ensures MergeFlows(kept, Restrict(flows, keys + {key})) ==
      MergeFlows(kept, Restrict(flows, keys))[key := AddFlow(FlowAt(kept, key), flows[key])]
    ensures FlowAt(MergeFlows(kept, Restrict(flows, keys)), key) == FlowAt(kept, key)
  {
    hide AddFlow;
    AddNoFlow(FlowAt(kept, key));
    var more, less := Restrict(flows, keys + {key}), Restrict(flows, keys);
    assert more == less[key := flows[key]];
  }

  lemma AddNoFlow(flow: Flow)
    ensures AddFlow(flow, NO_FLOW) == AddFlow(NO_FLOW, flow) == flow
  {
  }

  lemma {:induction false} KeptIsMerge(kept: Flows, flows: Flows, list: FlowList)
    requires From(flows, list) && |MergeFlows(kept, flows)| <= MAX_KEPT_FLOWS
    ensures KeepFlows(kept, list) == MergeFlows(kept, Restrict(flows, KeysOf(list)))
    decreases |list|
  {
    hide KeepFlow, MergeFlows, From, KeysOf;
    if list == [] {
      MergeWithNothing(map[], kept);
      NoKeys();
      assert Restrict(flows, {}) == map[];
    } else {
      KeysOfLonger(flows, list);
      KeptIsMerge(kept, flows, Front(list));
      LastFrom(flows, list);
      KeepIsMerge(kept, flows, KeysOf(Front(list)), Last(list).0);
    }
  }

  lemma NoKeys()
    ensures KeysOf([]) == {}
  {
  }

  lemma LastFrom(flows: Flows, list: FlowList)
    requires From(flows, list) && list != []
    ensures Last(list).0 in flows && flows[Last(list).0] == Last(list).1
  {
  }

  lemma {:induction false} KeysCount(flows: Flows, list: FlowList)
    requires From(flows, list)
    ensures |KeysOf(list)| == |list|
    decreases |list|
  {
    hide From;
    if list == [] {
      assert KeysOf(list) == {};
    } else {
      KeysOfLonger(flows, list);
      KeysCount(flows, Front(list));
    }
  }

  /** A tick that can name every conversation names every conversation. */
  lemma TopOfFew(flows: Flows, list: FlowList)
    requires Top(flows, list) && |flows| <= MAX_TICK_FLOWS
    ensures From(flows, list) && Restrict(flows, KeysOf(list)) == flows
  {
    KeysCount(flows, list);
    assert KeysOf(list) <= flows.Keys && |flows.Keys| == |flows|;
    SubsetSize(KeysOf(list), flows.Keys);
  }

  /** While that is so, the table of conversations is that of every frame reported. */
  lemma {:induction false} FlowsAreExact(log: Log, out: seq<Message>)
    requires Emits(log, out) && Small(log)
    ensures ApplyAll(FRESH, out).flows == ByFlow(Reported(log))
    decreases |log|
  {
    hide Reports, ByFlow, KeepFlow, MergeFlows;
    if log == [] {
      NoFlows();
    } else {
      var before := Front(log);
      match Last(log)
      case Ticked =>
        FlowsAreExact(before, Front(out));
        TickAddsFlows(before, Last(out), ApplyAll(FRESH, Front(out)).flows);
      case Counted(f, listed) =>
        FlowsAreExact(before, if listed then Front(out) else out);
    }
  }

  lemma NoFlows()
    ensures ByFlow([]) == map[]
  {
  }

  lemma TickAddsFlows(log: Log, m: Message, flows: Flows)
    requires Reports(m, log) && flows == ByFlow(Reported(log))
    requires |ByFlow(Recent(log))| <= MAX_TICK_FLOWS && |ByFlow(Reported(log) + Recent(log))| <= MAX_KEPT_FLOWS
    ensures m.Tick? && KeepFlows(flows, m.flows) == ByFlow(Reported(log) + Recent(log))
  {
    hide ByFlow, KeepFlow, MergeFlows, Top;
    FlowsOfParts(Reported(log), Recent(log));
    TopOfFew(ByFlow(Recent(log)), m.flows);
    KeptIsMerge(flows, ByFlow(Recent(log)), m.flows);
  }

  /** All that the rows of a tick say of one conversation. */
  function Named(list: FlowList, key: FlowKey): (Flow, bool)
    decreases |list|
  {
    if list == [] then (NO_FLOW, false)
    else
      var (flow, named) := Named(Front(list), key);
      if Last(list).0 == key then (AddFlow(flow, Last(list).1), true) else (flow, named)
  }

  /** All that a run says of one conversation, and whether it says anything. */
  function Told(out: seq<Message>, key: FlowKey): (Flow, bool)
    decreases |out|
  {
    if out == [] then (NO_FLOW, false)
    else
      var (flow, told) := Told(out[..|out| - 1], key);
      match out[|out| - 1]
      case Tick(_, _, _, list) => (AddFlow(flow, Named(list, key).0), told || Named(list, key).1)
      case _ => (flow, told)
  }

  /** What the table says of a conversation that was told of: everything, or nothing because a thousand others came first. */
  ghost predicate AllOrNothing(flows: Flows, key: FlowKey, flow: Flow, told: bool) {
    && |flows| <= MAX_KEPT_FLOWS
    && (key in flows ==> told && flows[key] == flow)
    && (key !in flows && told ==> |flows| == MAX_KEPT_FLOWS)
    && (!told ==> flow == NO_FLOW)
  }

  lemma OneMoreKey<K, V>(table: map<K, V>, k: K, v: V)
    ensures |table[k := v]| == |table| + if k in table then 0 else 1
  {
    assert |table[k := v]| == |table[k := v].Keys| && |table| == |table.Keys|;
    assert table[k := v].Keys == table.Keys + {k};
    if k in table {
      assert table.Keys + {k} == table.Keys;
    }
  }

  lemma KeepFlowAllOrNothing(flows: Flows, key: FlowKey, sum: Flow, told: bool, other: FlowKey, flow: Flow)
    requires AllOrNothing(flows, key, sum, told)
    ensures AllOrNothing(KeepFlow(flows, other, flow), key,
      if other == key then AddFlow(sum, flow) else sum, told || other == key)
  {
    hide AddFlow;
    AddNoFlow(flow);
    OneMoreKey(flows, other, AddFlow(FlowAt(flows, other), flow));
  }

  lemma {:induction false} KeepFlowsAllOrNothing(flows: Flows, key: FlowKey, sum: Flow, told: bool, list: FlowList)
    requires AllOrNothing(flows, key, sum, told)
    ensures AllOrNothing(KeepFlows(flows, list), key, AddFlow(sum, Named(list, key).0), told || Named(list, key).1)
    decreases |list|
  {
    hide AllOrNothing, KeepFlow, AddFlow;
    AddNoFlow(sum);
    if list != [] {
      var (flow, named) := Named(Front(list), key);
      KeepFlowsAllOrNothing(flows, key, sum, told, Front(list));
      KeepFlowAllOrNothing(KeepFlows(flows, Front(list)), key, AddFlow(sum, flow), told || named,
        Last(list).0, Last(list).1);
      AddFlowAnyOrder(sum, flow, Last(list).1);
    }
  }

  lemma AddFlowAnyOrder(a: Flow, b: Flow, c: Flow)
    ensures AddFlow(AddFlow(a, b), c) == AddFlow(a, AddFlow(b, c))
  {
  }

  lemma NothingTold(key: FlowKey)
    ensures AllOrNothing(map[], key, NO_FLOW, false)
  {
  }

  /** Only a tick touches the conversations. */
  lemma FlowsAfter(c: Capture, m: Message)
    ensures Apply(c, m).flows == if m.Tick? then KeepFlows(c.flows, m.flows) else c.flows
  {
    hide KeepFlows, MergeRows;
  }

  /**
   The table never holds more than a thousand conversations. One that it holds is there with everything ever told of
   it; one that was told of and is not there came when a thousand others were kept.
   */
  lemma {:induction false} FlowsAllOrNothing(out: seq<Message>, key: FlowKey)
    ensures AllOrNothing(ApplyAll(FRESH, out).flows, key, Told(out, key).0, Told(out, key).1)
    decreases |out|
  {
    hide KeepFlows, Named, Apply, AllOrNothing, AddFlow;
    if out == [] {
      assert AllOrNothing(map[], key, NO_FLOW, false) by { NothingTold(key); }
    } else {
      FlowsAllOrNothing(out[..|out| - 1], key);
      FlowsAfter(ApplyAll(FRESH, out[..|out| - 1]), out[|out| - 1]);
      if out[|out| - 1].Tick? {
        var (flow, told) := Told(out[..|out| - 1], key);
        KeepFlowsAllOrNothing(ApplyAll(FRESH, out[..|out| - 1]).flows, key, flow, told, out[|out| - 1].flows);
      }
    }
  }

  lemma {:induction false} KeptStay(flows: Flows, list: FlowList)
    ensures flows.Keys <= KeepFlows(flows, list).Keys
    decreases |list|
  {
    if list != [] {
      KeptStay(flows, Front(list));
    }
  }

  /** A conversation that is kept stays, whatever comes after. */
  lemma {:induction false} FlowsStay(out: seq<Message>, k: nat)
    requires k <= |out|
    ensures ApplyAll(FRESH, out[..k]).flows.Keys <= ApplyAll(FRESH, out).flows.Keys
    decreases |out|
  {
    hide KeepFlows, MergeRows;
    if k == |out| {
      assert out[..k] == out;
    } else {
      var before := out[..|out| - 1];
      assert before[..k] == out[..k];
      FlowsStay(before, k);
      if out[|out| - 1].Tick? {
        KeptStay(ApplyAll(FRESH, before).flows, out[|out| - 1].flows);
      }
    }
  }

  // ----- the graph -----------------------------------------------------------------------

  /** What each tick of a run counted. */
  function TickTotals(out: seq<Message>): seq<Row>
    decreases |out|
  {
    if out == [] then []
    else
      TickTotals(out[..|out| - 1]) +
      match out[|out| - 1]
      case Tick(total, _, _, _) => [total]
      case _ => []
  }

  /** The graph shows the last 600 ticks, or all of them, each with what it counted. */
  lemma {:induction false} SeriesIsLatest(out: seq<Message>)
    ensures ApplyAll(FRESH, out).series == LastOf(TickTotals(out), MAX_SERIES)
    decreases |out|
  {
    hide MergeRows, KeepFlows, LastOf;
    if out == [] {
      LastOfNothing<Row>(MAX_SERIES);
    } else {
      var before := out[..|out| - 1];
      SeriesIsLatest(before);
      match out[|out| - 1]
      case Tick(total, _, _, _) => LastOfMore(TickTotals(before), total, MAX_SERIES);
      case _ => assert TickTotals(out) == TickTotals(before);
    }
  }

  // ----- the ring and the polls ----------------------------------------------------------

  /** The packets listed by a run, numbered from one. */
  function ListedIn(out: seq<Message>): seq<Numbered>
    decreases |out|
  {
    if out == [] then []
    else
      var before := ListedIn(out[..|out| - 1]);
      match out[|out| - 1]
      case Listed(packet, size) => before + [Numbered(|before| + 1, packet, size)]
      case _ => before
  }

  lemma {:induction false} NumberedInOrder(out: seq<Message>)
    ensures forall i :: 0 <= i < |ListedIn(out)| ==> ListedIn(out)[i].n == i + 1
    decreases |out|
  {
    if out != [] {
      NumberedInOrder(out[..|out| - 1]);
    }
  }

  /** The ring holds the last 3,000 packets listed, or all of them, with their consecutive numbers. */
  lemma {:induction false} RingIsLatest(out: seq<Message>)
    ensures var c := ApplyAll(FRESH, out);
      c.last == |ListedIn(out)| && c.packets == LastOf(ListedIn(out), MAX_PACKETS)
    decreases |out|
  {
    hide MergeRows, KeepFlows, LastOf;
    if out == [] {
      LastOfNothing<Numbered>(MAX_PACKETS);
    } else {
      var before := out[..|out| - 1];
      RingIsLatest(before);
      match out[|out| - 1]
      case Listed(packet, size) => 
        LastOfMore(ListedIn(before), Numbered(|ListedIn(before)| + 1, packet, size), MAX_PACKETS);
      case _ =>
    }
  }

  function NewerThan(packets: seq<Numbered>, after: nat): seq<Numbered>
    decreases |packets|
  {
    if packets == [] then []
    else
      NewerThan(packets[..|packets| - 1], after)
      + if packets[|packets| - 1].n > after then [packets[|packets| - 1]] else []
  }

  /** The packets of a snapshot; a limit of zero takes all, as the slice from minus zero does. */
  function Polled(c: Capture, after: nat, limit: nat): seq<Numbered> {
    var newer := NewerThan(c.packets, after);
    if limit == 0 then newer else LastOf(newer, limit)
  }

  /** How many of so many packets, numbered from `first`, are not newer. */
  function Older(count: nat, first: nat, after: nat): (n: nat)
    ensures n <= count
  {
    if after < first then 0 else Min(after - first + 1, count)
  }

  lemma TailOfMore(front: seq<Numbered>, p: Numbered, first: nat, after: nat)
    requires p.n == first + |front|
    ensures (front + [p])[Older(|front| + 1, first, after)..] ==
      front[Older(|front|, first, after)..] + if p.n > after then [p] else []
  {
  }

  lemma {:induction false} NewerThanIsTail(packets: seq<Numbered>, first: nat, after: nat)
    requires forall i :: 0 <= i < |packets| ==> packets[i].n == first + i
    ensures NewerThan(packets, after) == packets[Older(|packets|, first, after)..]
    decreases |packets|
  {
    if packets != [] {
      var front, p := packets[..|packets| - 1], packets[|packets| - 1];
      NewerThanIsTail(front, first, after);
      TailOfMore(front, p, first, after);
      assert packets == front + [p];
    }
  }

  /**
   A poll gets exactly the packets listed after the one it names, except what the ring no longer holds; so one that
   names the last packet of the poll before, while at most 3,000 have been listed since, misses nothing.
   */
  lemma PollMissesNothing(out: seq<Message>, after: nat, limit: nat)
    requires after <= |ListedIn(out)| && (limit == 0 || limit >= MAX_PACKETS)
    ensures var all := ListedIn(out);
      Polled(ApplyAll(FRESH, out), after, limit) == all[if |all| <= after + MAX_PACKETS then after else |all| - MAX_PACKETS..]
  {
    hide ListedIn, ApplyAll, NewerThan;
    RingIsLatest(out);
    NumberedInOrder(out);
    NewerInRing(ListedIn(out), after);
  }

  lemma NewerInRing(all: seq<Numbered>, after: nat)
    requires after <= |all| && forall i :: 0 <= i < |all| ==> all[i].n == i + 1
    ensures NewerThan(LastOf(all, MAX_PACKETS), after) ==
      all[if |all| <= after + MAX_PACKETS then after else |all| - MAX_PACKETS..]
  {
    hide NewerThan;
    var ring := LastOf(all, MAX_PACKETS);
    NewerThanIsTail(ring, |all| - |ring| + 1, after);
  }
}
