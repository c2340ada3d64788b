/**
 The bounded list of findings of the network watch (`netwatch.py`, `_raise` and `_evict`): which findings a run of
 sightings may leave, as a relation, because entries with equal times may go in either order.
 */
module NetwatchFindings {
  import opened Collections
  import opened NetwatchHistory

  const MAX_FINDINGS: nat := 200
  const MAX_INFO_FINDINGS: nat := 60

  datatype Finding = Finding(severity: Severity, at: int, last: int, count: nat)

  type Findings = map<Subject, Finding>

  function Rank(severity: Severity): nat {
    match severity
    case Info => 0
    case Warn => 1
    case Bad => 2
  }

  function Notes(findings: Findings): set<Subject> {
    set k | k in findings && findings[k].severity.Info?
  }

  function Alerts(findings: Findings): set<Subject> {
    set k | k in findings && !findings[k].severity.Info?
  }

  predicate Bounded(findings: Findings) {
    |findings| <= MAX_FINDINGS && |Notes(findings)| <= MAX_INFO_FINDINGS
  }

  /** What a table is thinned out by: the less it matters and the older it is, the lower. */
  datatype Score = Score(rank: nat, at: int) {
    predicate Leq(other: Score) {
      rank < other.rank || (rank == other.rank && at <= other.at)
    }
  }

  function ScoreOf(f: Finding): Score { Score(Rank(f.severity), f.last) }

  function FindingScores(findings: Findings): (scores: map<Subject, Score>)
    ensures scores.Keys == findings.Keys
  {
    map k | k in findings :: ScoreOf(findings[k])
  }

  function NoteScores(findings: Findings): (scores: map<Subject, Score>)
    ensures scores.Keys == Notes(findings)
  {
    map k | k in findings && findings[k].severity.Info? :: ScoreOf(findings[k])
  }

  /** The lowest entries of a table, as many as it takes to leave `size` of them. */
  ghost predicate Dropped<K(!new)>(scores: map<K, Score>, gone: set<K>, size: nat) {
    && gone <= scores.Keys
    && |scores| - |gone| == Min(|scores|, size)
    && (forall g <- gone, k <- scores.Keys - gone :: scores[g].Leq(scores[k]))
  }

  /** The findings left by an eviction: never more than the limits, never fewer than they ask for, lowest out first. */
  ghost predicate Evicted(before: Findings, after: Findings) {
    && after.Keys <= before.Keys
    && (forall k <- after.Keys :: after[k] == before[k])
    && |after| == Min(MAX_FINDINGS, |Alerts(before)| + Min(MAX_INFO_FINDINGS, |Notes(before)|))
    && |Notes(after)| <= MAX_INFO_FINDINGS
    && (forall gone <- before.Keys - after.Keys, kept <- after.Keys :: ScoreOf(before[gone]).Leq(ScoreOf(before[kept])))
  }

  function Again(f: Finding, now: int): Finding {
    f.(last := now, count := f.count + 1)
  }

  /** A sighting of something already found updates it; anything new is added and may push others out. */
  ghost predicate Raised(before: Findings, s: Sighting, after: Findings) {
    if s.about in before then after == before[s.about := Again(before[s.about], s.now)]
    else Evicted(before[s.about := Finding(s.severity, s.now, s.now, 1)], after)
  }

  ghost predicate RaisedAll(before: Findings, sighted: seq<Sighting>, after: Findings)
    decreases |sighted|
  {
    if sighted == [] then after == before
    else exists between :: RaisedAll(before, Front(sighted), between) && Raised(between, Last(sighted), after)
  }

  // ----- one sighting -------------------------------------------------------------------

  lemma Halves(findings: Findings)
    ensures |findings| == |Alerts(findings)| + |Notes(findings)|
    ensures Alerts(findings) + Notes(findings) == findings.Keys
  {
    assert Alerts(findings) + Notes(findings) == findings.Keys;
    assert Alerts(findings) !! Notes(findings);
  }

  /** An alert is pushed out only when nothing but alerts is left, and as many as there are places. */
  lemma AlertGone(before: Findings, after: Findings, k: Subject)
    requires Evicted(before, after) && k in Alerts(before) && k !in after
    ensures |Alerts(before)| > MAX_FINDINGS
  {
    forall n | n in after.Keys ensures !after[n].severity.Info? {
      assert k in before.Keys - after.Keys;
      assert ScoreOf(before[k]).Leq(ScoreOf(before[n]));
    }
    assert Notes(after) == {};
    Halves(after);
    assert Alerts(after) <= Alerts(before) && k !in Alerts(after);
    SubsetSize(Alerts(after), Alerts(before));
  }

  /** As long as there are no more alerts than places, only notes are pushed out. */
  lemma AlertsSurvive(before: Findings, after: Findings)
    requires Evicted(before, after) && |Alerts(before)| <= MAX_FINDINGS
    ensures Alerts(before) == Alerts(after)
  {
    forall k | k in Alerts(before) ensures k in after {
      if k !in after {
        AlertGone(before, after, k);
      }
    }
    assert forall k :: k in Alerts(before) <==> k in Alerts(after);
  }

  lemma AlertsOfAdded(before: Findings, s: Sighting)
    requires s.about !in before
    ensures var added := before[s.about := Finding(s.severity, s.now, s.now, 1)];
      && Alerts(added) == Alerts(before) + (if s.severity.Info? then {} else {s.about})
      && Notes(added) == Notes(before) + (if s.severity.Info? then {s.about} else {})
  {
  }

  lemma RaisedIsBounded(before: Findings, s: Sighting, after: Findings)
    requires Bounded(before) && Raised(before, s, after)
    ensures Bounded(after)
  {
    if s.about in before {
      assert after.Keys == before.Keys;
      assert Notes(after) == Notes(before);
    }
  }

  /** No note ever evicts an alert. */
  lemma NotesPushOutOnlyNotes(before: Findings, s: Sighting, after: Findings)
    requires Bounded(before) && Raised(before, s, after) && s.severity.Info?
    ensures forall k <- Alerts(before) :: k in after && (k != s.about ==> after[k] == before[k])
  {
    if s.about !in before {
      var added := before[s.about := Finding(s.severity, s.now, s.now, 1)];
      AlertsOfAdded(before, s);
      Halves(before);
      AlertsSurvive(added, after);
      forall k | k in Alerts(before) ensures k in after && after[k] == before[k] {
        assert k in Alerts(after);
      }
    }
  }

  /** A bad finding goes only when every finding left is bad and was sighted no earlier. */
  lemma BadGoesLast(before: Findings, s: Sighting, after: Findings, gone: Subject)
    requires Raised(before, s, after) && gone in before && gone !in after && before[gone].severity.Bad?
    ensures forall k <- after.Keys :: after[k].severity.Bad? && before[gone].last <= after[k].last
  {
    var added := before[s.about := Finding(s.severity, s.now, s.now, 1)];
    forall k | k in after.Keys ensures after[k].severity.Bad? && before[gone].last <= after[k].last {
      assert gone in added.Keys - after.Keys;
      assert ScoreOf(added[gone]).Leq(ScoreOf(added[k]));
    }
  }

  // ----- whole runs ----------------------------------------------------------------------

  /** From an empty list, every run keeps both limits. */
  lemma {:induction false} RunsAreBounded(before: Findings, sighted: seq<Sighting>, after: Findings)
    requires Bounded(before) && RaisedAll(before, sighted, after)
    ensures Bounded(after)
    decreases |sighted|
  {
    if sighted != [] {
      var between :| RaisedAll(before, Front(sighted), between) && Raised(between, Last(sighted), after);
      RunsAreBounded(before, Front(sighted), between);
      RaisedIsBounded(between, Last(sighted), after);
    }
  }

  function SeverityOf(about: Subject): Severity {
    match about
    case NewDevice(_) => Info
    case GatewayChanged(_, _) => Bad
    case Moved(_, _) => Info
    case Conflict(_, _) => Warn
    case SecondServer(_) => Warn
  }

  predicate Graded(sighted: seq<Sighting>) {
    forall s <- sighted :: s.severity == SeverityOf(s.about)
  }

  /** The things a run gives an alert about. */
  function AlertedIn(sighted: seq<Sighting>): set<Subject> {
    set s | s in sighted && !s.severity.Info? :: s.about
  }

  function SightingsOf(sighted: seq<Sighting>, about: Subject): seq<Sighting>
    decreases |sighted|
  {
    if sighted == [] then []
    else
      var last := Last(sighted);
      SightingsOf(Front(sighted), about) + if last.about == about then [last] else []
  }

  /** What a finding that was never pushed out says of its sightings. */
  function Account(sightings: seq<Sighting>): Finding
    requires sightings != []
  {
    Finding(sightings[0].severity, sightings[0].now, sightings[|sightings| - 1].now, |sightings|)
  }

  ghost predicate Accounts(findings: Findings, sighted: seq<Sighting>) {
    && Alerts(findings) == AlertedIn(sighted)
    && (forall k <- Alerts(findings) ::
          var sightings := SightingsOf(sighted, k); sightings != [] && findings[k] == Account(sightings))
  }

  lemma AlertedStep(sighted: seq<Sighting>)
    requires sighted != []
    ensures var last := Last(sighted);
      AlertedIn(sighted) ==
      AlertedIn(Front(sighted)) + (if last.severity.Info? then {} else {last.about})
  {
    assert forall s :: s in sighted <==> s in Front(sighted) || s == Last(sighted);
  }

  lemma {:induction false} NeverSighted(sighted: seq<Sighting>, about: Subject)
    requires forall s <- sighted :: s.about != about
    ensures SightingsOf(sighted, about) == []
    decreases |sighted|
  {
    if sighted != [] {
      NeverSighted(Front(sighted), about);
    }
  }

  lemma AccountStep(between: Findings, sighted: seq<Sighting>, after: Findings, k: Subject)
    requires sighted != [] && Graded(sighted) && k in Alerts(after)
    requires Accounts(between, Front(sighted)) && Raised(between, Last(sighted), after)
    requires forall k <- between.Keys :: between[k].severity == SeverityOf(k)
    ensures var sightings := SightingsOf(sighted, k); sightings != [] && after[k] == Account(sightings)
  {
    hide Evicted, Min;
    var earlier, s := Front(sighted), Last(sighted);
    if k != s.about {
      KeptAsIs(between, s, after, k);
    } else if k in between {
      var before := SightingsOf(earlier, k);
      assert SightingsOf(sighted, k) == before + [s];
    } else {
      IsAdded(between, s, after);
      NeverSightedAlert(between, earlier, s);
      assert SightingsOf(sighted, k) == [s];
    }
  }

  lemma KeptAsIs(before: Findings, s: Sighting, after: Findings, k: Subject)
    requires Raised(before, s, after) && k in after && k != s.about
    ensures k in before && after[k] == before[k]
  {
  }

  lemma IsAdded(before: Findings, s: Sighting, after: Findings)
    requires Raised(before, s, after) && s.about in after && s.about !in before
    ensures after[s.about] == Finding(s.severity, s.now, s.now, 1)
  {
  }

  lemma NeverSightedAlert(between: Findings, earlier: seq<Sighting>, s: Sighting)
    requires Accounts(between, earlier) && Graded(earlier) && s.about !in between && !SeverityOf(s.about).Info?
    ensures SightingsOf(earlier, s.about) == []
  {
    forall t | t in earlier ensures t.about != s.about {
      if !t.severity.Info? {
        assert t.about in AlertedIn(earlier);
      }
    }
    NeverSighted(earlier, s.about);
  }

  lemma AlertsStep(between: Findings, s: Sighting, after: Findings)
    requires Raised(between, s, after) && s.severity == SeverityOf(s.about)
    requires forall k <- between.Keys :: between[k].severity == SeverityOf(k)
    requires |Alerts(between) + (if s.severity.Info? then {} else {s.about})| <= MAX_FINDINGS
    ensures Alerts(after) == Alerts(between) + (if s.severity.Info? then {} else {s.about})
    ensures forall k <- after.Keys :: after[k].severity == SeverityOf(k)
  {
    hide Alerts, Min;
    if s.about in between {
      AlertsOfAgain(between, s.about, s.now);
      if !s.severity.Info? {
        AlertIsListed(between, s.about);
      }
    } else {
      var added := between[s.about := Finding(s.severity, s.now, s.now, 1)];
      AlertsOfAdded(between, s);
      AlertsSurvive(added, after);
    }
  }

  lemma AlertsOfAgain(findings: Findings, k: Subject, now: int)
    requires k in findings
    ensures Alerts(findings[k := Again(findings[k], now)]) == Alerts(findings)
  {
  }

  lemma AlertIsListed(findings: Findings, k: Subject)
    requires k in findings && !findings[k].severity.Info?
    ensures Alerts(findings) == Alerts(findings) + {k}
  {
  }

  lemma AccountsStep(between: Findings, sighted: seq<Sighting>, after: Findings)
    requires sighted != [] && Graded(sighted) && |AlertedIn(sighted)| <= MAX_FINDINGS
    requires Accounts(between, Front(sighted)) && Raised(between, Last(sighted), after)
    requires forall k <- between.Keys :: between[k].severity == SeverityOf(k)
    ensures Accounts(after, sighted) && (forall k <- after.Keys :: after[k].severity == SeverityOf(k))
  {
    hide Raised, SightingsOf, Account;
    var s := Last(sighted);
    AlertedStep(sighted);
    AlertsStep(between, s, after);
    forall k | k in Alerts(after)
      ensures var sightings := SightingsOf(sighted, k); sightings != [] && after[k] == Account(sightings)
    {
      AccountStep(between, sighted, after, k);
    }
  }

  /**
   Whatever the flood of notes: while a run gives alerts about at most 200 things, each of them is still listed, with
   the time of its first and last sighting and the number of its sightings.
   */
  lemma {:induction false} NoAlertIsLost(sighted: seq<Sighting>, findings: Findings)
    requires RaisedAll(map[], sighted, findings) && Graded(sighted) && |AlertedIn(sighted)| <= MAX_FINDINGS
    ensures Accounts(findings, sighted) && (forall k <- findings.Keys :: findings[k].severity == SeverityOf(k))
    decreases |sighted|
  {
    if sighted != [] {
      var earlier := Front(sighted);
      var between :| RaisedAll(map[], earlier, between) && Raised(between, Last(sighted), findings);
      AlertedStep(sighted);
      SubsetSize(AlertedIn(earlier), AlertedIn(sighted));
      NoAlertIsLost(earlier, between);
      AccountsStep(between, sighted, findings);
    }
  }
}
