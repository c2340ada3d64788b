/**
 The sequence tracking of the capture worker (`capture_worker.py`, class `TcpHealth`): per direction it keeps the
 next expected sequence number mod 2^32 and the last pure acknowledgement, and flags what looks wrong.
 */
module TcpHealth {
  import opened Collections
  import opened Wrappers

  const WORD := 0x1_0000_0000
  const HALF := 0x8000_0000
  const MAX := 50_000

  /** Source address and port, destination address and port. */
  type Key = (string, nat, string, nat)

  datatype Issue = Reset | ZeroWindow | Retransmit | Gap | DupAck

  /** A TCP packet; its sequence number may be unbounded, the worker sees it mod 2^32. */
  datatype Packet = Packet(
    key: Key, number: int, ack: nat, win: nat, plen: nat, isSyn: bool, isFin: bool, isRst: bool, isAck: bool)

  type Marker = (nat, nat)

  datatype Record = Record(next: Option<int>, marker: Option<Marker>, dups: nat)

  const FRESH := Record(None, None, 0)

  // ----- one packet -----------------------------------------------------------------

  function Signed(diff: int): int {
    (diff + HALF) % WORD - HALF
  }

  /** How much sequence space a packet takes. */
  function Span(p: Packet): nat {
    p.plen + (if p.isSyn then 1 else 0) + (if p.isFin then 1 else 0)
  }

  predicate HasData(p: Packet) { Span(p) > 0 && !p.isRst }

  predicate IsPureAck(p: Packet) { p.isAck && Span(p) == 0 && !p.isRst }

  predicate IsKeepAlive(p: Packet, behind: int) {
    p.plen <= 1 && !p.isSyn && !p.isFin && behind == -1
  }

  function FlagIssues(p: Packet): seq<Issue> {
    if p.isRst then [Reset] else if p.win == 0 && !p.isSyn then [ZeroWindow] else []
  }

  /** Whether data `behind` what was expected is a retransmission or leaves a gap. */
  function OrderIssues(p: Packet, behind: int): seq<Issue> {
    if behind < 0 then (if IsKeepAlive(p, behind) then [] else [Retransmit])
    else if behind > 0 then [Gap] else []
  }

  function TrackNext(next: Option<int>, p: Packet): (Option<int>, seq<Issue>) {
    if !HasData(p) then (next, [])
    else
      var end := (p.number + Span(p)) % WORD;
      if next.None? then (Some(end), [])
      else
        var behind := Signed(p.number - next.value);
        (if behind < 0 && Signed(end - next.value) <= 0 then next else Some(end), OrderIssues(p, behind))
  }

  function TrackAck(marker: Option<Marker>, dups: nat, p: Packet): (Option<Marker>, nat, seq<Issue>) {
    if !IsPureAck(p) then (marker, dups, [])
    else if marker == Some((p.ack, p.win)) then (marker, dups + 1, if dups + 1 >= 2 then [DupAck] else [])
    else (Some((p.ack, p.win)), 0, [])
  }

  /** One packet against the record of its direction. */
  function Track(r: Record, p: Packet): (Record, seq<Issue>) {
    var (next, order) := TrackNext(r.next, p);
    var (marker, dups, acks) := TrackAck(r.marker, r.dups, p);
    (Record(next, marker, dups), FlagIssues(p) + order + acks)
  }

  // ----- the table ------------------------------------------------------------------

  type Table = map<Key, Record>

  /** The table a packet of this direction finds: a new direction empties a full one first. */
  function Admit(table: Table, key: Key): Table {
    if key in table then table
    else if |table| >= MAX then map[key := FRESH]
    else table[key := FRESH]
  }

  function Observe(table: Table, p: Packet): (Table, seq<Issue>) {
    var admitted := Admit(table, p.key);
    var (r, issues) := Track(admitted[p.key], p);
    (admitted[p.key := r], issues)
  }

  /** The middle of `check`: the data of a packet against what was expected. */
  method CheckSequence(expected: Option<int>, p: Packet, found: seq<Issue>) returns (next: Option<int>, issues: seq<Issue>)
    ensures next == TrackNext(expected, p).0 && issues == found + TrackNext(expected, p).1
  {
    hide Signed;
    next, issues := expected, found;
    var span := p.plen + (if p.isSyn then 1 else 0) + (if p.isFin then 1 else 0);
    if span != 0 && !p.isRst {
      var end := (p.number + span) % WORD;
      if next.None? {
        next := Some(end);
      } else {
        var behind := Signed(p.number - next.value);
        if behind < 0 {
          if !(p.plen <= 1 && !p.isSyn && !p.isFin && behind == -1) {
            issues := issues + [Retransmit];
          }
          if Signed(end - next.value) > 0 {
            next := Some(end);
          }
        } else {
          if behind > 0 {
            issues := issues + [Gap];
          }
          next := Some(end);
        }
      }
    }
  }

  /** The end of `check`: a pure acknowledgement against the last one. */
  method CheckAck(last: Option<Marker>, count: nat, p: Packet, found: seq<Issue>)
    returns (marker: Option<Marker>, dups: nat, issues: seq<Issue>)
    ensures var t := TrackAck(last, count, p); marker == t.0 && dups == t.1 && issues == found + t.2
  {
    marker, dups, issues := last, count, found;
    if p.isAck && !(Span(p) != 0 || p.isRst) {
      if marker == Some((p.ack, p.win)) {
        dups := dups + 1;
        if dups >= 2 {
          issues := issues + [DupAck];
        }
      } else {
        marker, dups := Some((p.ack, p.win)), 0;
      }
    }
  }

  class Health {
    var state: Table

    constructor ()
      ensures state == map[]
    {
      state := map[];
    }

    /** `check`, on a decoded TCP packet. */
    method Check(p: Packet) returns (issues: seq<Issue>)
      modifies this
      ensures (state, issues) == Observe(old(state), p)
      ensures Reset in issues <==> p.isRst
      ensures ZeroWindow in issues <==> !p.isRst && !p.isSyn && p.win == 0
      ensures |old(state)| <= MAX ==> |state| <= MAX
    {
      hide TrackNext, TrackAck;
      if |state| <= MAX {
        AdmitIsBounded(state, p.key);
      }
      var key := p.key;
      if key !in state {
        if |state| >= MAX {
          state := map[];
        }
        state := state[key := FRESH];
      }
      assert state == Admit(old(state), key);
      var r := state[key];
      issues := [];
      if p.isRst {
        issues := issues + [Reset];
      } else if p.win == 0 && !p.isSyn {
        issues := issues + [ZeroWindow];
      }
      assert issues == FlagIssues(p);
      var next, marker, dups;
      next, issues := CheckSequence(r.next, p, issues);
      marker, dups, issues := CheckAck(r.marker, r.dups, p, issues);
      assert (Record(next, marker, dups), issues) == Track(r, p);
      FlagsAreReported(r, p);
      ReplacedKeepsSize(state, key, Record(next, marker, dups));
      state := state[key := Record(next, marker, dups)];
    }
  }

  /** A reset is reported as such and as nothing else about its window; a zero window for all but a SYN. */
  lemma FlagsAreReported(r: Record, p: Packet)
    ensures Reset in Track(r, p).1 <==> p.isRst
    ensures ZeroWindow in Track(r, p).1 <==> !p.isRst && !p.isSyn && p.win == 0
  {
  }

  lemma ReplacedKeepsSize(table: Table, key: Key, r: Record)
    requires key in table
    ensures |table[key := r]| == |table|
  {
    assert table[key := r].Keys == table.Keys;
    assert |table.Keys| == |table| && |table[key := r].Keys| == |table[key := r]|;
  }

  lemma AdmitIsBounded(table: Table, key: Key)
    requires |table| <= MAX
    ensures |Admit(table, key)| <= MAX && key in Admit(table, key)
  {
    if key !in table && |table| < MAX {
      assert table[key := FRESH].Keys == table.Keys + {key};
    }
  }

  // ----- directions do not disturb each other -----------------------------------------

  type Trace = seq<Packet>

  /** The table after a whole trace. */
  function TableAfter(trace: Trace): Table
    decreases |trace|
  {
    if trace == [] then map[] else Observe(TableAfter(trace[..|trace| - 1]), trace[|trace| - 1]).0
  }

  function RecordAfter(trace: Trace): Record
    decreases |trace|
  {
    if trace == [] then FRESH else Track(RecordAfter(trace[..|trace| - 1]), trace[|trace| - 1]).0
  }

  /** The packets of one direction, in order. */
  function Direction(trace: Trace, key: Key): Trace
    decreases |trace|
  {
    if trace == [] then []
    else
      var last := trace[|trace| - 1];
      Direction(trace[..|trace| - 1], key) + if last.key == key then [last] else []
  }

  function KeysOf(trace: Trace): set<Key> {
    set p | p in trace :: p.key
  }

  lemma {:induction false} TableIsBounded(trace: Trace)
    ensures |TableAfter(trace)| <= MAX
    decreases |trace|
  {
    if trace != [] {
      TableIsBounded(trace[..|trace| - 1]);
      AdmitIsBounded(TableAfter(trace[..|trace| - 1]), trace[|trace| - 1].key);
    }
  }

  lemma ObserveWithRoom(table: Table, p: Packet, r: Record)
    requires if p.key in table then table[p.key] == r else |table| < MAX && r == FRESH
    ensures Observe(table, p) == (table[p.key := Track(r, p).0], Track(r, p).1)
  {
    hide Track;
    if p.key !in table {
      assert table[p.key := FRESH][p.key := Track(r, p).0] == table[p.key := Track(r, p).0];
    }
  }

  lemma KeysOfLast(before: Trace, last: Packet)
    ensures KeysOf(before + [last]) == KeysOf(before) + {last.key}
    ensures |KeysOf(before)| <= |KeysOf(before + [last])|
    ensures last.key !in KeysOf(before) ==> |KeysOf(before + [last])| == |KeysOf(before)| + 1
  {
    var trace := before + [last];
    assert forall p :: p in trace <==> p in before || p == last;
    SubsetSize(KeysOf(before), KeysOf(trace));
  }

  /** With no more directions than the table holds, each record is the one its direction alone would leave. */
  lemma {:induction false} TableIsPerDirection(trace: Trace)
    requires |KeysOf(trace)| <= MAX
    ensures TableAfter(trace).Keys == KeysOf(trace)
    ensures forall key :: key in TableAfter(trace) ==> TableAfter(trace)[key] == RecordAfter(Direction(trace, key))
    decreases |trace|
  {
    hide Observe, Track, KeysOf;
    if trace == [] {
      assert KeysOf(trace) == {} by { NoKeys(); }
    } else {
      var before, last := trace[..|trace| - 1], trace[|trace| - 1];
      assert before + [last] == trace;
      KeysOfLast(before, last);
      TableIsPerDirection(before);
      NextIsPerDirection(before, last);
      DirectionOfLast(before, last);
      var table, r := TableAfter(before), RecordAfter(Direction(before, last.key));
      assert TableAfter(trace) == table[last.key := Track(r, last).0];
      forall key | key in TableAfter(trace) ensures TableAfter(trace)[key] == RecordAfter(Direction(trace, key)) {
        if key != last.key {
          assert Direction(trace, key) == Direction(before, key);
        }
      }
    }
  }

  lemma NoKeys()
    ensures KeysOf([]) == {}
  {
  }

  lemma NextIsPerDirection(before: Trace, p: Packet)
    requires |KeysOf(before + [p])| <= MAX && TableAfter(before).Keys == KeysOf(before)
    requires forall key :: key in TableAfter(before) ==> TableAfter(before)[key] == RecordAfter(Direction(before, key))
    ensures var r := RecordAfter(Direction(before, p.key));
      Observe(TableAfter(before), p) == (TableAfter(before)[p.key := Track(r, p).0], Track(r, p).1)
  {
    KeysOfLast(before, p);
    if p.key !in TableAfter(before) {
      NothingBefore(before, p.key);
      assert |TableAfter(before)| == |TableAfter(before).Keys|;
    }
    ObserveWithRoom(TableAfter(before), p, RecordAfter(Direction(before, p.key)));
  }

  lemma {:induction false} NothingBefore(trace: Trace, key: Key)
    requires key !in KeysOf(trace)
    ensures Direction(trace, key) == []
    decreases |trace|
  {
    if trace != [] {
      var before, last := trace[..|trace| - 1], trace[|trace| - 1];
      assert last in trace && forall p :: p in before ==> p in trace;
      NothingBefore(before, key);
    }
  }

  lemma DirectionOfLast(before: Trace, last: Packet)
    ensures Direction(before + [last], last.key) == Direction(before, last.key) + [last]
    ensures RecordAfter(Direction(before, last.key) + [last]) == Track(RecordAfter(Direction(before, last.key)), last).0
  {
    assert (before + [last])[..|before|] == before;
    var own := Direction(before, last.key);
    assert (own + [last])[..|own|] == own;
  }

  /**
   Isolation: what is reported for a packet is what its own direction's packets alone would have reported for it,
   as long as the trace names no more directions than the table holds.
   */
  lemma IssuesArePerDirection(before: Trace, p: Packet)
    requires |KeysOf(before + [p])| <= MAX
    ensures Observe(TableAfter(before), p).1 == Track(RecordAfter(Direction(before, p.key)), p).1
  {
    KeysOfLast(before, p);
    TableIsPerDirection(before);
    NextIsPerDirection(before, p);
  }

  // ----- duplicate acknowledgements ----------------------------------------------------

  /** The pure acknowledgements of a direction, in order; nothing else counts for duplicates. */
  function Acks(trace: Trace): seq<Marker>
    decreases |trace|
  {
    if trace == [] then []
    else
      var last := trace[|trace| - 1];
      Acks(trace[..|trace| - 1]) + if IsPureAck(last) then [(last.ack, last.win)] else []
  }

  /** How many of the newest acknowledgements are equal. */
  function TailRun(acks: seq<Marker>): nat
    decreases |acks|
  {
    if |acks| <= 1 then |acks|
    else if acks[|acks| - 1] == acks[|acks| - 2] then 1 + TailRun(acks[..|acks| - 1])
    else 1
  }

  lemma TailRunOfThree(acks: seq<Marker>)
    ensures TailRun(acks) >= 3 <==>
      |acks| >= 3 && acks[|acks| - 1] == acks[|acks| - 2] == acks[|acks| - 3]
  {
    if |acks| >= 2 {
      var shorter := acks[..|acks| - 1];
      assert shorter[|shorter| - 1] == acks[|acks| - 2];
      if |shorter| >= 2 {
        assert shorter[|shorter| - 2] == acks[|acks| - 3];
        assert TailRun(shorter[..|shorter| - 1]) >= 1;
      }
    }
  }

  /** A record's acknowledgements are the last of the direction, and how often it came again just before. */
  predicate KeepsAcks(r: Record, acks: seq<Marker>) {
    if acks == [] then r.marker == None && r.dups == 0
    else r.marker == Some(acks[|acks| - 1]) && r.dups == TailRun(acks) - 1
  }

  lemma KeepsOneMoreAck(r: Record, acks: seq<Marker>, p: Packet)
    requires KeepsAcks(r, acks)
    ensures KeepsAcks(Track(r, p).0, if IsPureAck(p) then acks + [(p.ack, p.win)] else acks)
  {
    hide TrackNext, FlagIssues, IsPureAck, TailRun;
    if IsPureAck(p) {
      RunGrows(acks, (p.ack, p.win));
    }
  }

  lemma {:induction false} RecordKeepsAcks(trace: Trace)
    ensures KeepsAcks(RecordAfter(trace), Acks(trace))
    decreases |trace|
  {
    if trace != [] {
      hide KeepsAcks, Track, IsPureAck;
      var before, last := trace[..|trace| - 1], trace[|trace| - 1];
      RecordKeepsAcks(before);
      KeepsOneMoreAck(RecordAfter(before), Acks(before), last);
      assert Acks(before) + [] == Acks(before);
    }
  }

  /** "dup-ack" is reported exactly from the third equal acknowledgement in a row on. */
  lemma DupAckFromThirdOn(before: Trace, p: Packet)
    ensures var acks := Acks(before + [p]);
      DupAck in Track(RecordAfter(before), p).1 <==>
        p.isAck && p.plen == 0 && !p.isSyn && !p.isFin && !p.isRst
          && |acks| >= 3 && acks[|acks| - 1] == acks[|acks| - 2] == acks[|acks| - 3]
  {
    hide Track, TailRun, RecordAfter;
    var r, earlier := RecordAfter(before), Acks(before);
    RecordKeepsAcks(before);
    OnlyAcksAreDups(r, p);
    assert (before + [p])[..|before|] == before;
    if IsPureAck(p) {
      RunGrows(earlier, (p.ack, p.win));
      TailRunOfThree(earlier + [(p.ack, p.win)]);
    }
  }

  lemma OnlyAcksAreDups(r: Record, p: Packet)
    ensures DupAck in Track(r, p).1 <==> IsPureAck(p) && r.marker == Some((p.ack, p.win)) && r.dups + 1 >= 2
  {
  }

  lemma RunGrows(earlier: seq<Marker>, m: Marker)
    ensures TailRun(earlier + [m]) == if earlier != [] && earlier[|earlier| - 1] == m then TailRun(earlier) + 1 else 1
  {
    assert (earlier + [m])[..|earlier|] == earlier;
  }

  // ----- the unbounded tracker --------------------------------------------------------

  /** The highest end of any data in a trace whose sequence numbers do not wrap. */
  function HighEnd(trace: Trace): Option<int>
    decreases |trace|
  {
    if trace == [] then None
    else
      var high, last := HighEnd(trace[..|trace| - 1]), trace[|trace| - 1];
      var end := last.number + Span(last);
      if !HasData(last) then high
      else if high.None? || end > high.value then Some(end) else high
  }

  /** Data up to, and not including, `end`: a SYN and a FIN take one number each, and a reset carries none. */
  predicate DataUpTo(p: Packet, end: int) {
    && !p.isRst && (p.plen > 0 || p.isSyn || p.isFin)
    && end == p.number + p.plen
         + (if p.isSyn && p.isFin then 2 else if p.isSyn || p.isFin then 1 else 0)
  }

  lemma {:induction false} HighEndIsHighest(trace: Trace)
    ensures HighEnd(trace).None? <==> forall p, end :: p in trace ==> !DataUpTo(p, end)
    ensures HighEnd(trace).Some? ==>
      && (exists p :: p in trace && DataUpTo(p, HighEnd(trace).value))
      && (forall p, end :: p in trace && DataUpTo(p, end) ==> end <= HighEnd(trace).value)
    decreases |trace|
  {
    if trace != [] {
      var before, last := trace[..|trace| - 1], trace[|trace| - 1];
      HighEndIsHighest(before);
      assert HasData(last) <==> DataUpTo(last, last.number + Span(last));
      assert forall p :: p in trace <==> p in before || p == last;
    }
  }

  /** Data that starts within half the sequence space of the highest end before it, and is not that long itself. */
  predicate Near(high: Option<int>, p: Packet) {
    HasData(p) ==> Span(p) < HALF && (high.Some? ==> -HALF <= p.number - high.value < HALF)
  }

  ghost predicate AllNear(trace: Trace) {
    forall i {:trigger trace[i]} :: 0 <= i < |trace| ==> Near(HighEnd(trace[..i]), trace[i])
  }

  /** The packet as it travels: only the low 32 bits of the sequence number. */
  function OnWire(p: Packet): Packet {
    p.(number := p.number % WORD)
  }

  function OnWireAll(trace: Trace): (r: Trace)
    ensures |r| == |trace| && forall i :: 0 <= i < |trace| ==> r[i] == OnWire(trace[i])
  {
    seq(|trace|, i requires 0 <= i < |trace| => OnWire(trace[i]))
  }

  function Wrap(x: Option<int>): Option<int> {
    match x case None => None case Some(v) => Some(v % WORD)
  }

  /** Signed distance mod 2^32 is the true distance, when that is within half the space. */
  lemma SignedIsTrue(a: int, b: int)
    requires -HALF <= a - b < HALF
    ensures Signed(a % WORD - b % WORD) == a - b
  {
    var x := a - b + HALF;
    var d := a % WORD - b % WORD + HALF;
    assert d == x - WORD * (a / WORD - b / WORD);
    ModShift(x, a / WORD - b / WORD);
  }

  lemma ModShift(x: int, k: int)
    requires 0 <= x < WORD
    ensures (x - WORD * k) % WORD == x
  {
    var y := x - WORD * k;
    assert y == WORD * (y / WORD) + y % WORD;
    var q := y / WORD + k;
    assert x == WORD * q + y % WORD;
    assert q == 0;
  }

  lemma EndWraps(p: Packet)
    ensures (p.number % WORD + Span(p)) % WORD == (p.number + Span(p)) % WORD
  {
    var q := p.number / WORD;
    var x := p.number % WORD + Span(p);
    assert p.number + Span(p) == x + WORD * q;
    var r := x % WORD;
    ModShift(r, -(x / WORD) - q);
    assert r - WORD * (-(x / WORD) - q) == x + WORD * q;
  }

  /** What the unbounded tracker says about the order of a packet's data. */
  function TrueOrder(high: Option<int>, p: Packet): seq<Issue> {
    if !HasData(p) || high.None? then [] else OrderIssues(p, p.number - high.value)
  }

  lemma TrackNextIsTrue(high: Option<int>, p: Packet, before: Trace)
    requires high == HighEnd(before) && Near(high, p)
    ensures TrackNext(Wrap(high), OnWire(p)) == (Wrap(HighEnd(before + [p])), TrueOrder(high, p))
  {
    assert (before + [p])[..|before|] == before;
    if HasData(p) {
      EndWraps(p);
      if high.Some? {
        SignedIsTrue(p.number, high.value);
        if p.number < high.value {
          SignedIsTrue(p.number + Span(p), high.value);
        }
      }
    }
  }

  lemma TrackParts(r: Record, p: Packet)
    ensures var (after, issues) := Track(r, p);
      && after.next == TrackNext(r.next, p).0
      && (Retransmit in issues <==> Retransmit in TrackNext(r.next, p).1)
      && (Gap in issues <==> Gap in TrackNext(r.next, p).1)
  {
    hide TrackNext;
  }

  lemma {:induction false} NextIsHighEnd(trace: Trace)
    requires AllNear(trace)
    ensures RecordAfter(OnWireAll(trace)).next == Wrap(HighEnd(trace))
    decreases |trace|
  {
    hide TrackNext, TrackAck, FlagIssues, Track, HighEnd, Near;
    if trace != [] {
      var before, last := trace[..|trace| - 1], trace[|trace| - 1];
      assert before + [last] == trace;
      AllNearBefore(before, last);
      NextIsHighEnd(before);
      TrackNextIsTrue(HighEnd(before), last, before);
      assert OnWireAll(trace)[..|before|] == OnWireAll(before);
      TrackParts(RecordAfter(OnWireAll(before)), OnWire(last));
    } else {
      HighEndOfNothing();
    }
  }

  lemma HighEndOfNothing()
    ensures HighEnd([]) == None
  {
  }

  lemma AllNearBefore(before: Trace, p: Packet)
    requires AllNear(before + [p])
    ensures AllNear(before) && Near(HighEnd(before), p)
  {
    hide Near, HighEnd;
    var trace := before + [p];
    assert trace[|before|] == p && trace[..|before|] == before;
    forall i | 0 <= i < |before| ensures Near(HighEnd(before[..i]), before[i]) {
      assert before[i] == trace[i] && before[..i] == trace[..i];
    }
  }

  lemma TrueOrderIssues(high: Option<int>, p: Packet)
    ensures Retransmit in TrueOrder(high, p) <==>
      HasData(p) && high.Some? && p.number < high.value && !IsKeepAlive(p, p.number - high.value)
    ensures Gap in TrueOrder(high, p) <==> HasData(p) && high.Some? && p.number > high.value
  {
  }

  /**
   Refinement: on one direction whose true sequence numbers stay near the highest end seen, the 32-bit tracker
   expects that end mod 2^32, reports a retransmission exactly for data that starts below it (but for a keep-alive
   probe) and a gap exactly for data that starts above it.
   */
  lemma TrackerRefinesUnbounded(before: Trace, p: Packet)
    requires AllNear(before + [p])
    ensures var (r, issues) := Track(RecordAfter(OnWireAll(before)), OnWire(p)); var high := HighEnd(before);
      && r.next == Wrap(HighEnd(before + [p]))
      && (Retransmit in issues <==>
           && !p.isRst && (p.plen > 0 || p.isSyn || p.isFin) && high.Some? && p.number < high.value
           && !(p.plen <= 1 && !p.isSyn && !p.isFin && p.number + 1 == high.value))
      && (Gap in issues <==>
           !p.isRst && (p.plen > 0 || p.isSyn || p.isFin) && high.Some? && p.number > high.value)
  {
    AllNearBefore(before, p);
    hide TrackNext, Track, HighEnd, Near, TrueOrder, OnWire, Wrap, RecordAfter;
    TrueOrderIssues(HighEnd(before), p);
    NextIsHighEnd(before);
    TrackNextIsTrue(HighEnd(before), p, before);
    TrackParts(RecordAfter(OnWireAll(before)), OnWire(p));
  }
}
