/**
 Control and counting together: whatever starts, stops and other readers do in between, a job holds what its own helper
 told while it was the current one, so its counts balance at every tick.
 */
module CaptureRuns {
  import opened CaptureControl
  import opened CaptureMessages
  import opened CaptureTotals
  import opened CaptureWorker
  import opened Collections
  import opened Wrappers

  /** A capture without its status. */
  function Figures(c: Capture): Capture {
    c.(status := Capturing, finished := false, error := None)
  }

  predicate Takes(s: State, a: Action, j: JobId) {
    a.Take? && a.job == j && j in s.readers && s.readers[j].Reading? && s.shared.IsCurrent(j)
  }

  /** The messages of a job's helper that were applied. */
  function Taken(actions: seq<Action>, j: JobId): seq<Message>
    decreases |actions|
  {
    if actions == [] then []
    else
      var before, a := actions[..|actions| - 1], actions[|actions| - 1];
      Taken(before, j) + if Takes(After(INIT, before), a, j) then [a.m] else []
  }

  lemma ApplyFigures(c: Capture, d: Capture, m: Message)
    requires Figures(c) == Figures(d)
    ensures Figures(Apply(c, m)) == Figures(Apply(d, m))
  {
    hide MergeRows, KeepFlows, LastOf;
  }

  lemma StepOnJob(s: State, a: Action, j: JobId)
    requires Inv(s) && j < |s.shared.jobs|
    ensures j < |Step(s, a).shared.jobs|
    ensures Figures(Step(s, a).shared.jobs[j]) ==
      Figures(if Takes(s, a, j) then Apply(s.shared.jobs[j], a.m) else s.shared.jobs[j])
  {
    hide OneHolder, RoomToPublish, KnownJobs, EndedWithReader, Apply;
  }

  lemma StepOnNew(s: State, a: Action, j: JobId)
    requires Inv(s) && j >= |s.shared.jobs|
    ensures !Takes(s, a, j) && (j < |Step(s, a).shared.jobs| ==> Step(s, a).shared.jobs[j] == FRESH)
  {
    hide OneHolder, RoomToPublish, EndedWithReader, Apply;
  }

  lemma {:induction false} JobHoldsItsMessages(actions: seq<Action>, j: JobId)
    ensures var jobs := After(INIT, actions).shared.jobs;
      if j < |jobs| then Figures(jobs[j]) == Figures(ApplyAll(FRESH, Taken(actions, j))) else Taken(actions, j) == []
    decreases |actions|
  {
    hide Step, Inv, Figures, Apply;
    if actions != [] {
      var before, a := actions[..|actions| - 1], actions[|actions| - 1];
      var s, taken := After(INIT, before), Taken(before, j);
      JobHoldsItsMessages(before, j);
      InitFits();
      RunKeepsInv(INIT, before);
      if j < |s.shared.jobs| {
        StepOnJob(s, a, j);
        if Takes(s, a, j) {
          assert (taken + [a.m])[..|taken|] == taken;
          ApplyFigures(s.shared.jobs[j], ApplyAll(FRESH, taken), a.m);
        } else {
          assert taken + [] == taken;
        }
      } else {
        StepOnNew(s, a, j);
      }
    }
  }

  /**
   In every interleaving, a job that has been fed the beginning of a sniffer's output up to a tick is complete: it holds
   exactly what the sniffer had counted by then, and its counts balance.
   */
  lemma EveryJobBalances(actions: seq<Action>, j: JobId,
    turns: seq<Turn>, start: Clock, maxPps: nat, reason: string, out: seq<Message>) returns (log: Log)
    requires j < |After(INIT, actions).shared.jobs|
    requires IsOutput(turns, start, maxPps, reason, out) && Taken(actions, j) <= out
    requires Taken(actions, j) != [] && Last(Taken(actions, j)).Tick?
    ensures log <= LogOf(turns, start, maxPps).1 && Emits(log, Taken(actions, j))
    ensures Complete(After(INIT, actions).shared.jobs[j], log)
  {
    hide Emits, Apply, Step, LogOf, IsOutput;
    var taken := Taken(actions, j);
    JobHoldsItsMessages(actions, j);
    assert out[..|taken|] == taken;
    log := EveryTickBalances(turns, start, maxPps, reason, out, |taken|);
  }
}
