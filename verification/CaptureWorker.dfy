/**
 The loop of the sniffer (`capture_worker.py`, `run`): it counts every frame that passes the filter, lists as many as
 the limit per second allows and reports the counts once a second.
 */
module CaptureWorker {
  import opened CaptureMessages
  import opened Collections
  import opened Wrappers

  /** One round of the loop: the time it starts, and the frame it counts, if it reads one that passes the filter. */
  datatype Turn = Turn(mono: real, frame: Option<Frame>)

  datatype Event = Counted(frame: Frame, listed: bool) | Ticked

  type Log = seq<Event>

  datatype Clock = Clock(secondStart: real, sent: nat, tickAt: real)

  function TickStep(c: Clock, mono: real): (Clock, Log) {
    if mono >= c.tickAt then (c.(tickAt := mono + 1.0), [Ticked]) else (c, [])
  }

  function CountStep(c: Clock, turn: Turn, maxPps: nat): (Clock, Log) {
    if turn.frame.None? then (c, [])
    else
      var d := if turn.mono - c.secondStart >= 1.0 then c.(secondStart := turn.mono, sent := 0) else c;
      if d.sent >= maxPps then (d, [Counted(turn.frame.value, false)])
      else (d.(sent := d.sent + 1), [Counted(turn.frame.value, true)])
  }

  /** What the rounds amount to. */
  function LogOf(turns: seq<Turn>, start: Clock, maxPps: nat): (Clock, Log)
    decreases |turns|
  {
    if turns == [] then (start, [])
    else
      var (c, before) := LogOf(turns[..|turns| - 1], start, maxPps);
      var turn := turns[|turns| - 1];
      var (d, ticked) := TickStep(c, turn.mono);
      var (e, counted) := CountStep(d, turn, maxPps);
      (e, before + ticked + counted)
  }

  /** The frames counted since the last tick. */
  function Recent(log: Log): seq<Frame>
    decreases |log|
  {
    if log == [] then []
    else
      match log[|log| - 1]
      case Ticked => []
      case Counted(frame, _) => Recent(log[..|log| - 1]) + [frame]
  }

  /** How many of them were listed. */
  function RecentListed(log: Log): (n: nat)
    ensures n <= |Recent(log)|
    decreases |log|
  {
    if log == [] then 0
    else
      match log[|log| - 1]
      case Ticked => 0
      case Counted(_, listed) => RecentListed(log[..|log| - 1]) + if listed then 1 else 0
  }

  /** A tick with the exact counts of what was counted since the one before, and its largest conversations. */
  ghost predicate Reports(m: Message, log: Log) {
    && m.Tick?
    && m.total == Total(Recent(log))
    && m.protos == ByProto(Recent(log))
    && m.skipped == |Recent(log)| - RecentListed(log)
    && Top(ByFlow(Recent(log)), m.flows)
  }

  /** The messages for a log: one for each frame that is listed, one for each tick, in order. */
  ghost predicate Emits(log: Log, out: seq<Message>)
    decreases |log|
  {
    if log == [] then out == []
    else
      match Last(log)
      case Ticked => out != [] && Reports(Last(out), Front(log)) && Emits(Front(log), Front(out))
      case Counted(f, true) => out != [] && Last(out) == Listed(f.packet, f.size) && Emits(Front(log), Front(out))
      case Counted(_, false) => Emits(Front(log), out)
  }

  lemma EmitsTick(log: Log, out: seq<Message>, m: Message)
    requires Emits(log, out) && Reports(m, log)
    ensures Emits(log + [Ticked], out + [m])
  {
    assert Front(log + [Ticked]) == log && Front(out + [m]) == out;
  }

  lemma EmitsCounted(log: Log, out: seq<Message>, f: Frame, listed: bool)
    requires Emits(log, out)
    ensures Emits(log + [Counted(f, listed)], if listed then out + [Listed(f.packet, f.size)] else out)
  {
    assert Front(log + [Counted(f, listed)]) == log;
    assert Front(out + [Listed(f.packet, f.size)]) == out;
  }

  /** What has been written up to any message is the output of the log up to it. */
  lemma {:induction false} EmitsCut(log: Log, out: seq<Message>, k: nat) returns (shorter: Log)
    requires Emits(log, out) && k <= |out|
    ensures shorter <= log && Emits(shorter, out[..k])
    ensures k > 0 && out[k - 1].Tick? ==> shorter != [] && Last(shorter) == Ticked
    decreases |log|
  {
    hide Reports;
    if k == 0 {
      shorter := [];
    } else if Last(log).Counted? && !Last(log).listed {
      shorter := EmitsCut(Front(log), out, k);
    } else if k == |out| {
      shorter := log;
      assert out[..k] == out;
    } else {
      shorter := EmitsCut(Front(log), Front(out), k);
      assert Front(out)[..k] == out[..k];
    }
  }

  /** What a run of the sniffer writes: the output of its log, and its last word. */
  ghost predicate IsOutput(turns: seq<Turn>, start: Clock, maxPps: nat, reason: string, out: seq<Message>) {
    out != [] && Last(out) == LastWord(reason) && Emits(LogOf(turns, start, maxPps).1, Front(out))
  }

  lemma LogOfNext(turns: seq<Turn>, n: nat, start: Clock, maxPps: nat, clock: Clock, log: Log)
    requires n < |turns| && LogOf(turns[..n], start, maxPps) == (clock, log)
    ensures var (d, ticked) := TickStep(clock, turns[n].mono);
      var (e, counted) := CountStep(d, turns[n], maxPps);
      && LogOf(turns[..n + 1], start, maxPps) == (e, log + ticked + counted)
      && (turns[n].frame.None? ==> LogOf(turns[..n + 1], start, maxPps) == (d, log + ticked))
  {
    assert turns[..n + 1][..n] == turns[..n];
    assert forall more :: log + more + [] == log + more;
  }

  // ----- the limit per second ------------------------------------------------------------

  function ListedIn(log: Log): nat
    decreases |log|
  {
    if log == [] then 0
    else ListedIn(log[..|log| - 1]) + if log[|log| - 1].Counted? && log[|log| - 1].listed then 1 else 0
  }

  lemma {:induction false} ListedInParts(a: Log, b: Log)
    ensures ListedIn(a + b) == ListedIn(a) + ListedIn(b)
    decreases |b|
  {
    if b == [] {
      assert a + b == a;
    } else {
      assert (a + b)[..|a + b| - 1] == a + b[..|b| - 1];
      ListedInParts(a, b[..|b| - 1]);
    }
  }

  /** How many frames the first `n` rounds listed. */
  function ListedBy(turns: seq<Turn>, n: nat, start: Clock, maxPps: nat): nat
    requires n <= |turns|
  {
    ListedIn(LogOf(turns[..n], start, maxPps).1)
  }

  /** After `n` rounds the current second started with round `j` at time `t`, and everything listed since is counted. */
  ghost predicate Second(turns: seq<Turn>, n: nat, start: Clock, maxPps: nat, j: nat, t: real)
    requires n <= |turns|
  {
    var c := LogOf(turns[..n], start, maxPps).0;
    && j <= n
    && t == c.secondStart && ((j == 0 && t == start.secondStart) || (j < n && t == turns[j].mono))
    && c.sent == ListedBy(turns, n, start, maxPps) - ListedBy(turns, j, start, maxPps) <= maxPps
  }

  lemma ListedOfNext(turns: seq<Turn>, n: nat, start: Clock, maxPps: nat)
    requires n < |turns|
    ensures var (c, log) := LogOf(turns[..n], start, maxPps);
      var d := TickStep(c, turns[n].mono).0;
      var (e, counted) := CountStep(d, turns[n], maxPps);
      && LogOf(turns[..n + 1], start, maxPps).0 == e
      && ListedBy(turns, n + 1, start, maxPps) == ListedBy(turns, n, start, maxPps) + ListedIn(counted)
  {
    var (c, log) := LogOf(turns[..n], start, maxPps);
    var (d, ticked) := TickStep(c, turns[n].mono);
    var (e, counted) := CountStep(d, turns[n], maxPps);
    LogOfNext(turns, n, start, maxPps, c, log);
    ListedInParts(log + ticked, counted);
    ListedInParts(log, ticked);
    assert ticked == [] || ticked == [Ticked];
    assert ListedIn([Ticked]) == 0;
  }

  lemma {:induction false} SecondStarted(turns: seq<Turn>, n: nat, start: Clock, maxPps: nat) returns (j: nat, t: real)
    requires n <= |turns| && start.sent == 0
    ensures Second(turns, n, start, maxPps, j, t)
    decreases n
  {
    if n == 0 {
      j, t := 0, start.secondStart;
      assert turns[..0] == [];
    } else {
      hide LogOf, ListedIn, ListedBy, TickStep;
      j, t := SecondStarted(turns, n - 1, start, maxPps);
      ListedOfNext(turns, n - 1, start, maxPps);
      var turn, c := turns[n - 1], LogOf(turns[..n - 1], start, maxPps).0;
      TickKeepsSecond(c, turn.mono);
      if turn.frame.Some? {
        ListedInOne(turn.frame.value);
        if turn.mono - c.secondStart >= 1.0 {
          j, t := n - 1, turn.mono;
        }
      } else {
        ListedInNone();
      }
    }
  }

  lemma TickKeepsSecond(c: Clock, mono: real)
    ensures TickStep(c, mono).0.secondStart == c.secondStart && TickStep(c, mono).0.sent == c.sent
  {
  }

  lemma ListedInOne(f: Frame)
    ensures ListedIn([Counted(f, true)]) == 1 && ListedIn([Counted(f, false)]) == 0
  {
  }

  lemma ListedInNone()
    ensures ListedIn([]) == 0
  {
  }

  /** A frame is left out of the list only when the full number has been listed since a moment less than a second ago. */
  lemma SkippedOnlyWhenFull(turns: seq<Turn>, i: nat, start: Clock, maxPps: nat) returns (j: nat, since: real)
    requires i < |turns| && start.sent == 0 && maxPps > 0 && turns[i].frame.Some?
    requires ListedBy(turns, i + 1, start, maxPps) == ListedBy(turns, i, start, maxPps)
    ensures j <= i && turns[i].mono - since < 1.0 && ((j == 0 && since == start.secondStart) || since == turns[j].mono)
    ensures ListedBy(turns, i, start, maxPps) - ListedBy(turns, j, start, maxPps) == maxPps
  {
    hide LogOf, ListedIn;
    j, since := SecondStarted(turns, i, start, maxPps);
    ListedOfNext(turns, i, start, maxPps);
    ListedInOne(turns[i].frame.value);
  }

  // ----- a tick a second -----------------------------------------------------------------

  function TickedIn(log: Log): nat
    decreases |log|
  {
    if log == [] then 0 else TickedIn(log[..|log| - 1]) + if log[|log| - 1].Ticked? then 1 else 0
  }

  lemma {:induction false} TickedInParts(a: Log, b: Log)
    ensures TickedIn(a + b) == TickedIn(a) + TickedIn(b)
    decreases |b|
  {
    if b == [] {
      assert a + b == a;
    } else {
      assert (a + b)[..|a + b| - 1] == a + b[..|b| - 1];
      TickedInParts(a, b[..|b| - 1]);
    }
  }

  /** Whether round `i` ticks. */
  ghost predicate Ticks(turns: seq<Turn>, i: nat, start: Clock, maxPps: nat)
    requires i < |turns|
  {
    TickedIn(LogOf(turns[..i + 1], start, maxPps).1) != TickedIn(LogOf(turns[..i], start, maxPps).1)
  }

  lemma TickedInOne(f: Frame, listed: bool)
    ensures TickedIn([]) == 0 && TickedIn([Ticked]) == 1 && TickedIn([Counted(f, listed)]) == 0
  {
  }

  /** What one round does: it ticks when its time has come, and then counts the frame it reads. */
  lemma RoundInClock(turns: seq<Turn>, i: nat, start: Clock, maxPps: nat)
    requires i < |turns|
    ensures var ((c, before), (d, after)) := (LogOf(turns[..i], start, maxPps), LogOf(turns[..i + 1], start, maxPps));
      && (Ticks(turns, i, start, maxPps) <==> turns[i].mono >= c.tickAt)
      && d.tickAt == (if turns[i].mono >= c.tickAt then turns[i].mono + 1.0 else c.tickAt)
      && exists listed ::
           after == before + (if turns[i].mono >= c.tickAt then [Ticked] else [])
             + (if turns[i].frame.Some? then [Counted(turns[i].frame.value, listed)] else [])
  {
    hide LogOf, TickedIn;
    var (c, before) := LogOf(turns[..i], start, maxPps);
    var (d, ticked) := TickStep(c, turns[i].mono);
    var (e, counted) := CountStep(d, turns[i], maxPps);
    LogOfNext(turns, i, start, maxPps, c, before);
    TickedInParts(before + ticked, counted);
    TickedInParts(before, ticked);
    var listed := turns[i].frame.Some? && counted == [Counted(turns[i].frame.value, true)];
    if turns[i].frame.Some? {
      TickedInOne(turns[i].frame.value, listed);
      assert counted == [Counted(turns[i].frame.value, listed)];
    } else {
      TickedInNone();
    }
  }

  lemma TickedInNone()
    ensures TickedIn([]) == 0 && TickedIn([Ticked]) == 1
  {
  }

  /** The next tick is due a second after the last one. */
  ghost predicate NextTick(turns: seq<Turn>, n: nat, start: Clock, maxPps: nat, at: real)
    requires n <= |turns|
  {
    && at >= start.tickAt
    && (forall j | 0 <= j < n && Ticks(turns, j, start, maxPps) :: at >= turns[j].mono + 1.0)
    && (at == start.tickAt || exists j | 0 <= j < n && Ticks(turns, j, start, maxPps) :: at == turns[j].mono + 1.0)
  }

  lemma NextTickStep(turns: seq<Turn>, n: nat, start: Clock, maxPps: nat, at: real)
    requires n < |turns| && NextTick(turns, n, start, maxPps, at)
    requires Ticks(turns, n, start, maxPps) <==> turns[n].mono >= at
    ensures NextTick(turns, n + 1, start, maxPps, if turns[n].mono >= at then turns[n].mono + 1.0 else at)
  {
    hide Ticks;
    if turns[n].mono < at && at != start.tickAt {
      var j :| 0 <= j < n && Ticks(turns, j, start, maxPps) && at == turns[j].mono + 1.0;
      assert 0 <= j < n + 1;
    }
  }

  lemma FirstTick(turns: seq<Turn>, start: Clock, maxPps: nat)
    ensures NextTick(turns, 0, start, maxPps, LogOf(turns[..0], start, maxPps).0.tickAt)
  {
    assert turns[..0] == [];
    assert LogOf([], start, maxPps).0 == start;
    hide LogOf, Ticks;
  }

  lemma {:induction false} TickIsNext(turns: seq<Turn>, n: nat, start: Clock, maxPps: nat)
    requires n <= |turns|
    ensures NextTick(turns, n, start, maxPps, LogOf(turns[..n], start, maxPps).0.tickAt)
    decreases n
  {
    hide Ticks, NextTick;
    if n == 0 {
      FirstTick(turns, start, maxPps);
    } else {
      hide LogOf;
      TickIsNext(turns, n - 1, start, maxPps);
      RoundInClock(turns, n - 1, start, maxPps);
      NextTickStep(turns, n - 1, start, maxPps, LogOf(turns[..n - 1], start, maxPps).0.tickAt);
    }
  }

  /**
   A round ticks exactly when the first second is over and every earlier tick was a second ago or more; the tick comes
   before the frame the round reads, which therefore waits for the next one.
   */
  lemma TicksOnceASecond(turns: seq<Turn>, i: nat, start: Clock, maxPps: nat) returns (listed: bool)
    requires i < |turns|
    ensures Ticks(turns, i, start, maxPps) <==>
      && turns[i].mono >= start.tickAt
      && forall j | 0 <= j < i && Ticks(turns, j, start, maxPps) :: turns[i].mono >= turns[j].mono + 1.0
    ensures LogOf(turns[..i + 1], start, maxPps).1 ==
      LogOf(turns[..i], start, maxPps).1
        + (if Ticks(turns, i, start, maxPps) then [Ticked] else [])
        + (if turns[i].frame.Some? then [Counted(turns[i].frame.value, listed)] else [])
  {
    hide LogOf, Ticks;
    TickIsNext(turns, i, start, maxPps);
    RoundInClock(turns, i, start, maxPps);
    var ((c, before), (d, after)) := (LogOf(turns[..i], start, maxPps), LogOf(turns[..i + 1], start, maxPps));
    listed :|
      after == before + (if turns[i].mono >= c.tickAt then [Ticked] else [])
        + (if turns[i].frame.Some? then [Counted(turns[i].frame.value, listed)] else []);
  }

  // ----- the largest conversations -------------------------------------------------------

  lemma {:induction false} LargestExists(flows: Flows) returns (key: FlowKey)
    requires flows != map[]
    ensures key in flows && forall k <- flows.Keys :: flows[key].bytes >= flows[k].bytes
    decreases |flows|
  {
    key :| key in flows;
    var rest := flows - {key};
    assert forall k <- flows.Keys :: k == key || k in rest;
    if rest != map[] {
      var other := LargestExists(rest);
      if flows[other].bytes > flows[key].bytes {
        key := other;
      }
    }
  }

  ghost predicate Names(list: FlowList, key: FlowKey) {
    exists i :: 0 <= i < |list| && list[i].0 == key
  }

  lemma NamesOfLonger(list: FlowList, entry: (FlowKey, Flow), key: FlowKey)
    ensures Names(list + [entry], key) <==> Names(list, key) || entry.0 == key
  {
    var more := list + [entry];
    if Names(list, key) {
      var i :| 0 <= i < |list| && list[i].0 == key;
      assert more[i].0 == key;
    } else if entry.0 == key {
      assert more[|list|].0 == key;
    }
  }

  /** What is taken so far is the top of the table, and what is left is no larger. */
  ghost predicate Taking(flows: Flows, rest: Flows, list: FlowList) {
    && rest.Keys <= flows.Keys && (forall k <- rest.Keys :: rest[k] == flows[k])
    && |list| + |rest| == |flows|
    && (forall i :: 0 <= i < |list| ==> list[i].0 in flows && list[i].0 !in rest && flows[list[i].0] == list[i].1)
    && (forall k <- flows.Keys :: k in rest || Names(list, k))
    && (forall i, j :: 0 <= i < j < |list| ==> list[i].0 != list[j].0 && list[i].1.bytes >= list[j].1.bytes)
    && (forall i, k :: 0 <= i < |list| && k in rest ==> list[i].1.bytes >= rest[k].bytes)
  }

  lemma TakingStep(flows: Flows, rest: Flows, list: FlowList, key: FlowKey)
    requires Taking(flows, rest, list) && key in rest && forall k <- rest.Keys :: rest[key].bytes >= rest[k].bytes
    ensures Taking(flows, rest - {key}, list + [(key, rest[key])])
  {
    var more, left := list + [(key, rest[key])], rest - {key};
    assert left.Keys == rest.Keys - {key};
    assert |left.Keys| == |left| && |rest.Keys| == |rest|;
    hide Names;
    forall k | k in flows.Keys && k !in left ensures Names(more, k) {
      NamesOfLonger(list, (key, rest[key]), k);
    }
  }

  method TopFlows(flows: Flows) returns (list: FlowList)
    ensures Top(flows, list)
  {
    list := [];
    var rest := flows;
    while rest != map[] && |list| < MAX_TICK_FLOWS
      invariant Taking(flows, rest, list) && |list| <= MAX_TICK_FLOWS
      decreases |rest|
    {
      hide Taking;
      ghost var largest := LargestExists(rest);
      var key :| key in rest && forall k <- rest.Keys :: rest[key].bytes >= rest[k].bytes;
      TakingStep(flows, rest, list, key);
      list := list + [(key, rest[key])];
      rest := rest - {key};
    }
  }

  // ----- the loop ------------------------------------------------------------------------

  /** The local variables of the loop that count. */
  datatype Counters = Counters(total: Row, protos: Protocols, flows: Flows, skipped: nat)

  const ZERO := Counters(NO_ROW, map[], map[], 0)

  /** They hold what was counted since the last tick. */
  ghost predicate Counts(log: Log, c: Counters) {
    && c.total == Total(Recent(log))
    && c.protos == ByProto(Recent(log))
    && c.flows == ByFlow(Recent(log))
    && c.skipped == |Recent(log)| - RecentListed(log)
  }

  lemma CountsAfterTick(log: Log)
    ensures Counts(log + [Ticked], ZERO)
  {
  }

  function CountIn(c: Counters, f: Frame, listed: bool): Counters {
    Counters(AddRow(c.total, RowOf(f)), CountRow(c.protos, f), CountFlow(c.flows, f), c.skipped + if listed then 0 else 1)
  }

  lemma CountsOneMore(log: Log, c: Counters, f: Frame, listed: bool)
    requires Counts(log, c)
    ensures Counts(log + [Counted(f, listed)], CountIn(c, f, listed))
  {
    hide AddRow, CountRow, CountFlow, RowOf, Recent, RecentListed;
    RecentOfMore(log, f, listed);
    assert (Recent(log) + [f])[..|Recent(log)|] == Recent(log);
  }

  lemma RecentOfMore(log: Log, f: Frame, listed: bool)
    ensures var after := log + [Counted(f, listed)];
      Recent(after) == Recent(log) + [f] && RecentListed(after) == RecentListed(log) + if listed then 1 else 0
  {
    var after := log + [Counted(f, listed)];
    assert after[..|after| - 1] == log;
  }

  lemma TickReports(log: Log, c: Counters, top: FlowList)
    requires Counts(log, c) && Top(c.flows, top)
    ensures Reports(Tick(c.total, c.protos, c.skipped, top), log)
  {
  }

  lemma NothingYet(turns: seq<Turn>, start: Clock, maxPps: nat)
    ensures LogOf(turns[..0], start, maxPps) == (start, [])
    ensures Counts([], ZERO) && Emits([], [])
  {
  }

  /** The part of a round that reports, if a report is due. */
  method Report(counters: Counters, clock: Clock, mono: real, out: seq<Message>, ghost log: Log)
    returns (counters': Counters, clock': Clock, out': seq<Message>, ghost log': Log)
    requires Counts(log, counters) && Emits(log, out)
    ensures Counts(log', counters') && Emits(log', out')
    ensures clock' == TickStep(clock, mono).0 && log' == log + TickStep(clock, mono).1
  {
    counters', clock', out', log' := counters, clock, out, log;
    if mono >= clock.tickAt {
      hide Counts, Emits, Reports;
      var top := TopFlows(counters.flows);
      var tick := Tick(counters.total, counters.protos, counters.skipped, top);
      TickReports(log, counters, top);
      EmitsTick(log, out, tick);
      CountsAfterTick(log);
      counters', clock', out', log' := ZERO, clock.(tickAt := mono + 1.0), out + [tick], log + [Ticked];
    }
  }

  /** The part of a round that counts a frame and lists it, unless enough are listed this second. */
  method Count(counters: Counters, clock: Clock, turn: Turn, maxPps: nat, out: seq<Message>, ghost log: Log)
    returns (counters': Counters, clock': Clock, out': seq<Message>, ghost log': Log)
    requires Counts(log, counters) && Emits(log, out) && turn.frame.Some?
    ensures Counts(log', counters') && Emits(log', out')
    ensures clock' == CountStep(clock, turn, maxPps).0 && log' == log + CountStep(clock, turn, maxPps).1
  {
    hide Counts, Emits, Reports;
    var f := turn.frame.value;
    var total, protos, flows := AddRow(counters.total, RowOf(f)), CountRow(counters.protos, f), CountFlow(counters.flows, f);
    var skipped := counters.skipped;
    clock', out' := clock, out;
    if turn.mono - clock'.secondStart >= 1.0 {
      clock' := clock'.(secondStart := turn.mono, sent := 0);
    }
    ghost var listed := clock'.sent < maxPps;
    if clock'.sent >= maxPps {
      skipped := skipped + 1;
    } else {
      clock' := clock'.(sent := clock'.sent + 1);
      out' := out' + [Listed(f.packet, f.size)];
    }
    counters' := Counters(total, protos, flows, skipped);
    log' := log + [Counted(f, listed)];
    CountsOneMore(log, counters, f, listed);
    EmitsCounted(log, out, f, listed);
  }

  /** Runs until the deadline, or until something else ends the last of the given rounds (`interruption`). */
  method Run(turns: seq<Turn>, deadline: real, start: Clock, maxPps: nat, interruption: string)
    returns (out: seq<Message>, n: nat)
    ensures n <= |turns| && (forall i :: 0 <= i < n ==> turns[i].mono < deadline)
    ensures n < |turns| ==> turns[n].mono >= deadline
    ensures IsOutput(turns[..n], start, maxPps, if n < |turns| then "finished" else interruption, out)
  {
    hide LogOf, Counts, Emits, TickStep, CountStep;
    var counters, clock, reason := ZERO, start, interruption;
    ghost var log: Log := [];
    out, n := [], 0;
    NothingYet(turns, start, maxPps);
    while n < |turns|
      invariant n <= |turns| && (forall i :: 0 <= i < n ==> turns[i].mono < deadline)
      invariant (clock, log) == LogOf(turns[..n], start, maxPps)
      invariant Counts(log, counters) && Emits(log, out)
      invariant reason == interruption
    {
      var turn := turns[n];
      if turn.mono >= deadline {
        reason := "finished";
        break;
      }
      LogOfNext(turns, n, start, maxPps, clock, log);
      counters, clock, out, log := Report(counters, clock, turn.mono, out, log);
      if turn.frame.Some? {
        counters, clock, out, log := Count(counters, clock, turn, maxPps, out, log);
      }
      n := n + 1;
    }
    out := out + [LastWord(reason)];
  }
}
