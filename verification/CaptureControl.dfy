/**
 One capture at a time (`capture.py`): requests to start and stop and the readers of the helpers' output run in threads
 that share the current job and a reservation flag. Each region under the lock is one step, and between two steps of a
 thread any steps of others may happen.
 */
module CaptureControl {
  import opened CaptureMessages
  import opened CaptureTotals
  import opened Wrappers

  type JobId = nat
  type Thread = nat

  /** What the lock protects: the jobs published so far, which one is the current one, and the reservation. */
  datatype Shared = Shared(jobs: seq<Capture>, current: Option<JobId>, starting: bool) {
    predicate IsCurrent(j: JobId) {
      j < |jobs| && current == Some(j)
    }

    /** The given job is the current one and captures. */
    predicate Runs(j: JobId) {
      IsCurrent(j) && jobs[j].status.Capturing?
    }

    predicate Busy() {
      current.Some? && Runs(current.value)
    }
  }

  // ----- the regions under the lock ------------------------------------------------------

  function ReserveRegion(s: Shared): (Shared, bool) {
    if s.starting || s.Busy() then (s, false) else (s.(starting := true), true)
  }

  function PublishRegion(s: Shared): Shared {
    s.(jobs := s.jobs + [FRESH], current := Some(|s.jobs|))
  }

  function ReleaseRegion(s: Shared): Shared {
    s.(starting := false)
  }

  function ApplyRegion(s: Shared, j: JobId, m: Message): Shared {
    if s.IsCurrent(j) then s.(jobs := s.jobs[j := Apply(s.jobs[j], m)]) else s
  }

  function FailRegion(s: Shared, j: JobId, reason: string): Shared {
    if s.Runs(j) then s.(jobs := s.jobs[j := s.jobs[j].(status := Error, finished := true, error := Some(reason))]) else s
  }

  function StopRegion(s: Shared, j: JobId): Shared {
    if s.Runs(j) then s.(jobs := s.jobs[j := s.jobs[j].(status := Stopped, finished := true)]) else s
  }

  // ----- threads -------------------------------------------------------------------------

  /** Where a request to start stands; it holds the reservation until it is `Released`. */
  datatype Start = Reserved | Launched | Published(job: JobId) | GaveUp | Released(job: JobId)

  datatype Stop = Looked(found: Option<JobId>) | Killing(job: JobId) | Killed(job: JobId)

  datatype Reader = Reading | Closing | Over

  datatype State = State(shared: Shared, starts: map<Thread, Start>, stops: map<Thread, Stop>, readers: map<JobId, Reader>)

  datatype Action =
    | Reserve(t: Thread)
    | Launch(t: Thread, ok: bool)
    | Publish(t: Thread)
    | Release(t: Thread)
    | Spawn(t: Thread)
    | LookUp(t: Thread)
    | Check(t: Thread)
    | Kill(t: Thread)
    | Mark(t: Thread)
    | Take(job: JobId, m: Message)
    | Break(job: JobId, problem: string)
    | EndOfStream(job: JobId)
    | Finish(job: JobId, lastWords: string)

  const INIT := State(Shared([], None, false), map[], map[], map[])

  /** A step of a start; one that the thread cannot take now leaves everything as it is. */
  function StepStart(s: State, a: Action): State
    requires a.Reserve? || a.Launch? || a.Publish? || a.Release? || a.Spawn?
  {
    match a
    case Reserve(t) =>
      var (shared, ok) := ReserveRegion(s.shared);
      if t !in s.starts && ok then s.(shared := shared, starts := s.starts[t := Reserved]) else s
    case Launch(t, ok) =>
      if t in s.starts && s.starts[t] == Reserved then s.(starts := s.starts[t := if ok then Launched else GaveUp]) else s
    case Publish(t) =>
      if t in s.starts && s.starts[t] == Launched then
        s.(shared := PublishRegion(s.shared), starts := s.starts[t := Published(|s.shared.jobs|)])
      else s
    case Release(t) =>
      if t in s.starts && s.starts[t].Published? then
        s.(shared := ReleaseRegion(s.shared), starts := s.starts[t := Released(s.starts[t].job)])
      else if t in s.starts && s.starts[t].GaveUp? then s.(shared := ReleaseRegion(s.shared), starts := s.starts - {t})
      else s
    case Spawn(t) =>
      if t in s.starts && s.starts[t].Released? then
        s.(starts := s.starts - {t}, readers := s.readers[s.starts[t].job := Reading])
      else s
  }

  function StepStop(s: State, a: Action): State
    requires a.LookUp? || a.Check? || a.Kill? || a.Mark?
  {
    match a
    case LookUp(t) =>
      if t !in s.stops then s.(stops := s.stops[t := Looked(s.shared.current)]) else s
    case Check(t) =>
      if t in s.stops && s.stops[t].Looked? then
        match s.stops[t].found {
          case Some(j) =>
            if j < |s.shared.jobs| && s.shared.jobs[j].status.Capturing? then s.(stops := s.stops[t := Killing(j)])
            else s.(stops := s.stops - {t})
          case None => s.(stops := s.stops - {t})
        }
      else s
    case Kill(t) =>
      if t in s.stops && s.stops[t].Killing? then s.(stops := s.stops[t := Killed(s.stops[t].job)]) else s
    case Mark(t) =>
      if t in s.stops && s.stops[t].Killed? then
        s.(shared := StopRegion(s.shared, s.stops[t].job), stops := s.stops - {t})
      else s
  }

  function StepReader(s: State, a: Action): State
    requires a.Take? || a.Break? || a.EndOfStream? || a.Finish?
  {
    match a
    case Take(j, m) =>
      if j in s.readers && s.readers[j].Reading? then s.(shared := ApplyRegion(s.shared, j, m)) else s
    case Break(j, problem) =>
      if j in s.readers && s.readers[j].Reading? then
        s.(shared := FailRegion(s.shared, j, problem), readers := s.readers[j := Closing])
      else s
    case EndOfStream(j) =>
      if j in s.readers && s.readers[j].Reading? then s.(readers := s.readers[j := Closing]) else s
    case Finish(j, lastWords) =>
      if j in s.readers && s.readers[j].Closing? then
        s.(shared := FailRegion(s.shared, j, lastWords), readers := s.readers[j := Over])
      else s
  }

  function Step(s: State, a: Action): State {
    if a.Reserve? || a.Launch? || a.Publish? || a.Release? || a.Spawn? then StepStart(s, a)
    else if a.LookUp? || a.Check? || a.Kill? || a.Mark? then StepStop(s, a)
    else StepReader(s, a)
  }

  function After(s: State, actions: seq<Action>): State
    decreases |actions|
  {
    if actions == [] then s else Step(After(s, actions[..|actions| - 1]), actions[|actions| - 1])
  }

  // ----- what every step keeps -----------------------------------------------------------

  predicate Holds(start: Start) { !start.Released? }

  /** Only the latest published job may be capturing, it is the current one, and a job that captures is not finished. */
  ghost predicate JobsFit(s: Shared) {
    && (s.current == if s.jobs == [] then None else Some(|s.jobs| - 1))
    && (forall j :: 0 <= j < |s.jobs| - 1 ==> !s.jobs[j].status.Capturing?)
    && (forall j :: 0 <= j < |s.jobs| ==> (s.jobs[j].finished <==> !s.jobs[j].status.Capturing?))
  }

  /** The flag is up exactly while one start, and no second one, is between its reservation and its release. */
  ghost predicate OneHolder(s: State) {
    && (s.shared.starting <==> exists t :: t in s.starts && Holds(s.starts[t]))
    && (forall t, u :: t in s.starts && u in s.starts && Holds(s.starts[t]) && Holds(s.starts[u]) ==> t == u)
  }

  /** A start that has reserved and not yet published finds nothing capturing when it publishes. */
  ghost predicate RoomToPublish(s: State) {
    forall t :: t in s.starts && (s.starts[t].Reserved? || s.starts[t].Launched?) ==> !s.shared.Busy()
  }

  ghost predicate KnownJobs(s: State) {
    && (forall t :: t in s.starts && s.starts[t].Published? ==> s.starts[t].job < |s.shared.jobs|)
    && (forall t :: t in s.starts && s.starts[t].Released? ==> s.starts[t].job < |s.shared.jobs|)
    && (forall t :: t in s.stops && !s.stops[t].Looked? ==> s.stops[t].job < |s.shared.jobs|)
    && (forall j :: j in s.readers ==> j < |s.shared.jobs|)
  }

  /** No job goes on capturing when its reader has left. */
  ghost predicate EndedWithReader(s: State) {
    forall j :: j in s.readers && s.readers[j].Over? && j < |s.shared.jobs| ==> !s.shared.jobs[j].status.Capturing?
  }

  ghost predicate Inv(s: State) {
    JobsFit(s.shared) && OneHolder(s) && RoomToPublish(s) && KnownJobs(s) && EndedWithReader(s)
  }

  lemma HolderKept(s: State, a: Action)
    requires Inv(s) && (a.Reserve? || a.Launch? || a.Publish? || a.Release? || a.Spawn?)
    ensures OneHolder(StepStart(s, a))
  {
    var after := StepStart(s, a);
    if a.Reserve? && after != s {
      assert a.t in after.starts && Holds(after.starts[a.t]);
    } else if s.shared.starting {
      var t :| t in s.starts && Holds(s.starts[t]);
      assert a.Release? && after != s ==> a.t == t;
      assert t in after.starts || (a.Release? && after != s);
    }
  }

  lemma StartKeepsJobs(s: State, a: Action)
    requires Inv(s) && (a.Reserve? || a.Launch? || a.Publish? || a.Release? || a.Spawn?)
    ensures JobsFit(StepStart(s, a).shared)
  {
    hide OneHolder, KnownJobs, EndedWithReader;
  }

  lemma StartKeepsRoom(s: State, a: Action)
    requires Inv(s) && (a.Reserve? || a.Launch? || a.Publish? || a.Release? || a.Spawn?)
    ensures RoomToPublish(StepStart(s, a))
  {
    hide Holds, OneHolder, KnownJobs, EndedWithReader;
    var after := StepStart(s, a);
    if a.Publish? && after != s {
      OnlyPublisher(s, a.t);
    }
  }

  lemma StartKeepsInv(s: State, a: Action)
    requires Inv(s) && (a.Reserve? || a.Launch? || a.Publish? || a.Release? || a.Spawn?)
    ensures Inv(StepStart(s, a))
  {
    hide Holds, OneHolder, JobsFit, RoomToPublish;
    HolderKept(s, a);
    StartKeepsJobs(s, a);
    StartKeepsRoom(s, a);
  }

  lemma OnlyPublisher(s: State, t: Thread)
    requires OneHolder(s) && t in s.starts && s.starts[t].Launched?
    ensures forall u :: u in s.starts && u != t ==> s.starts[u].Released?
  {
    forall u | u in s.starts && u != t ensures s.starts[u].Released? {
      assert Holds(s.starts[t]);
      assert !Holds(s.starts[u]);
    }
  }

  lemma StopKeepsInv(s: State, a: Action)
    requires Inv(s) && (a.LookUp? || a.Check? || a.Kill? || a.Mark?)
    ensures Inv(StepStop(s, a))
  {
  }

  lemma ReaderKeepsJobs(s: State, a: Action)
    requires Inv(s) && (a.Take? || a.Break? || a.EndOfStream? || a.Finish?)
    ensures JobsFit(StepReader(s, a).shared) && RoomToPublish(StepReader(s, a))
  {
    hide OneHolder, KnownJobs, EndedWithReader;
  }

  lemma ReaderKeepsInv(s: State, a: Action)
    requires Inv(s) && (a.Take? || a.Break? || a.EndOfStream? || a.Finish?)
    ensures Inv(StepReader(s, a))
  {
    hide RoomToPublish;
    ReaderKeepsJobs(s, a);
  }

  lemma StepKeepsInv(s: State, a: Action)
    requires Inv(s)
    ensures Inv(Step(s, a))
  {
    hide Inv, StepStart, StepStop, StepReader;
    if a.Reserve? || a.Launch? || a.Publish? || a.Release? || a.Spawn? {
      StartKeepsInv(s, a);
    } else if a.LookUp? || a.Check? || a.Kill? || a.Mark? {
      StopKeepsInv(s, a);
    } else {
      ReaderKeepsInv(s, a);
    }
  }

  lemma {:induction false} RunKeepsInv(s: State, actions: seq<Action>)
    requires Inv(s)
    ensures Inv(After(s, actions))
    decreases |actions|
  {
    hide Inv, Step;
    if actions != [] {
      RunKeepsInv(s, actions[..|actions| - 1]);
      StepKeepsInv(After(s, actions[..|actions| - 1]), actions[|actions| - 1]);
    }
  }

  /** In every interleaving at most one published job is capturing, and it is the current one. */
  lemma OneCapture(actions: seq<Action>, j: JobId)
    ensures var s := After(INIT, actions).shared; j < |s.jobs| && s.jobs[j].status.Capturing? ==> s.IsCurrent(j)
  {
    hide Step, OneHolder, RoomToPublish, KnownJobs, EndedWithReader;
    InitFits();
    RunKeepsInv(INIT, actions);
  }

  lemma InitFits()
    ensures Inv(INIT)
  {
  }

  /** The reservation flag is up exactly while a start, and then only one, is between its reservation and its release. */
  lemma ReservationIsHeldByOne(actions: seq<Action>)
    ensures OneHolder(After(INIT, actions))
  {
    RunKeepsInv(INIT, actions);
  }

  /** A start is refused exactly when another one holds the reservation or a published job is capturing. */
  lemma RefusedWhenBusy(actions: seq<Action>)
    ensures var s := After(INIT, actions);
      !ReserveRegion(s.shared).1 <==>
      (exists t :: t in s.starts && Holds(s.starts[t])) ||
      (exists j :: 0 <= j < |s.shared.jobs| && s.shared.jobs[j].status.Capturing?)
  {
    RunKeepsInv(INIT, actions);
    var s := After(INIT, actions);
    if s.shared.Busy() {
      assert s.shared.jobs[s.shared.current.value].status.Capturing?;
    }
  }

  // ----- what happens to one job ---------------------------------------------------------

  /** How a job may change: it never captures again, and once it is replaced it never changes at all. */
  ghost predicate JobsGoOn(before: Shared, after: Shared) {
    && |before.jobs| <= |after.jobs|
    && (forall j :: 0 <= j < |before.jobs| && !before.jobs[j].status.Capturing? ==> !after.jobs[j].status.Capturing?)
    && (forall j :: 0 <= j < |before.jobs| - 1 ==> after.jobs[j] == before.jobs[j])
  }

  lemma StepGoesOn(s: State, a: Action)
    requires Inv(s)
    ensures JobsGoOn(s.shared, Step(s, a).shared)
  {
    hide OneHolder, RoomToPublish, EndedWithReader;
  }

  lemma JobsGoOnTrans(a: Shared, b: Shared, c: Shared)
    requires JobsGoOn(a, b) && JobsGoOn(b, c)
    ensures JobsGoOn(a, c)
  {
    assert forall j :: 0 <= j < |a.jobs| - 1 ==> a.jobs[j] == b.jobs[j];
  }

  /** So in every run: no job returns to capturing, and the reader of a replaced job changes neither it nor any other. */
  lemma {:induction false} RunGoesOn(s: State, actions: seq<Action>)
    requires Inv(s)
    ensures JobsGoOn(s.shared, After(s, actions).shared)
    decreases |actions|
  {
    hide Inv, Step, JobsGoOn;
    if actions != [] {
      var before := actions[..|actions| - 1];
      RunGoesOn(s, before);
      RunKeepsInv(s, before);
      StepGoesOn(After(s, before), actions[|actions| - 1]);
      JobsGoOnTrans(s.shared, After(s, before).shared, After(s, actions).shared);
    } else {
      GoesOnItself(s.shared);
    }
  }

  lemma GoesOnItself(s: Shared)
    ensures JobsGoOn(s, s)
  {
  }

  /** A reader's step changes no job but its own, and its own only while that is the current one. */
  lemma ReaderTouchesCurrentOnly(s: State, a: Action, j: JobId)
    requires a.Take? || a.Break? || a.EndOfStream? || a.Finish?
    requires j < |s.shared.jobs| && StepReader(s, a).shared.jobs[j] != s.shared.jobs[j]
    ensures j == a.job && s.shared.IsCurrent(j)
  {
  }

  /** What a job's status is after the last word of its helper. */
  function StatusAfter(reason: string): Status {
    if reason == "finished" then Done else if reason == "stopped" then Stopped else Error
  }

  /** The last word of the current job's own helper, and one that says something else than is known. */
  predicate SaysOtherwise(s: State, a: Action, j: JobId) {
    && a.Take? && a.job == j && j in s.readers && s.readers[j].Reading? && s.shared.IsCurrent(j)
    && a.m.LastWord? && StatusAfter(a.m.reason) != s.shared.jobs[j].status
  }

  /** The status of a job that has ended is not final; this is exactly when it changes. */
  lemma EndedChangesByLastWord(s: State, a: Action, j: JobId)
    requires Inv(s) && j < |s.shared.jobs| && !s.shared.jobs[j].status.Capturing?
    ensures j < |Step(s, a).shared.jobs|
    ensures Step(s, a).shared.jobs[j].status != s.shared.jobs[j].status <==> SaysOtherwise(s, a, j)
  {
    hide OneHolder, RoomToPublish, EndedWithReader, KnownJobs, Apply;
    if a.Take? && a.job == j {
      StatusApplied(s.shared.jobs[j], a.m);
    }
  }

  lemma StatusApplied(c: Capture, m: Message)
    ensures Apply(c, m).status == if m.LastWord? then StatusAfter(m.reason) else c.status
  {
  }

  /** So in every run it stays as it is until such a step. */
  lemma {:induction false} EndedStaysUntil(s: State, actions: seq<Action>, j: JobId)
    requires Inv(s) && j < |s.shared.jobs| && !s.shared.jobs[j].status.Capturing?
    requires forall i :: 0 <= i < |actions| ==> !SaysOtherwise(After(s, actions[..i]), actions[i], j)
    ensures j < |After(s, actions).shared.jobs|
    ensures After(s, actions).shared.jobs[j].status == s.shared.jobs[j].status
    decreases |actions|
  {
    hide Inv, Step, SaysOtherwise;
    if actions != [] {
      var before, n := actions[..|actions| - 1], |actions| - 1;
      forall i | 0 <= i < |before| ensures !SaysOtherwise(After(s, before[..i]), before[i], j) {
        assert before[..i] == actions[..i];
      }
      EndedStaysUntil(s, before, j);
      RunKeepsInv(s, before);
      assert !SaysOtherwise(After(s, actions[..n]), actions[n], j);
      EndedChangesByLastWord(After(s, before), actions[n], j);
    }
  }

  const STARTED := [Reserve(0), Launch(0, true), Publish(0), Release(0), Spawn(0)]
  const STOPPED := [LookUp(1), Check(1), Kill(1), Mark(1)]

  lemma OneMore(s: State, actions: seq<Action>, a: Action)
    ensures After(s, actions + [a]) == Step(After(s, actions), a)
  {
    assert (actions + [a])[..|actions + [a]| - 1] == actions;
  }

  lemma {:induction false} RunInParts(s: State, a: seq<Action>, b: seq<Action>)
    ensures After(s, a + b) == After(After(s, a), b)
    decreases |b|
  {
    hide Step;
    if b == [] {
      assert a + b == a;
    } else {
      assert (a + b)[..|a + b| - 1] == a + b[..|b| - 1];
      RunInParts(s, a, b[..|b| - 1]);
    }
  }

  lemma StartedRun()
    ensures After(INIT, STARTED) == State(Shared([FRESH], Some(0), false), map[], map[], map[0 := Reading])
  {
    var s1 := State(Shared([], None, true), map[0 := Reserved], map[], map[]);
    var s3 := State(Shared([FRESH], Some(0), true), map[0 := Published(0)], map[], map[]);
    var s4 := State(Shared([FRESH], Some(0), false), map[0 := Released(0)], map[], map[]);
    assert After(INIT, []) == INIT;
    OneMore(INIT, [], Reserve(0));
    assert Step(INIT, Reserve(0)) == s1;
    OneMore(INIT, STARTED[..1], Launch(0, true));
    assert [] + [Reserve(0)] == STARTED[..1] && STARTED[..1] + [Launch(0, true)] == STARTED[..2];
    OneMore(INIT, STARTED[..2], Publish(0));
    assert STARTED[..2] + [Publish(0)] == STARTED[..3];
    assert After(INIT, STARTED[..3]) == s3;
    OneMore(INIT, STARTED[..3], Release(0));
    assert STARTED[..3] + [Release(0)] == STARTED[..4];
    assert After(INIT, STARTED[..4]) == s4;
    OneMore(INIT, STARTED[..4], Spawn(0));
    assert STARTED[..4] + [Spawn(0)] == STARTED;
    assert map[0 := Released(0)] - {0} == map[];
  }

  lemma LookedRun(s: State)
    requires s == State(Shared([FRESH], Some(0), false), map[], map[], map[0 := Reading])
    ensures After(s, STOPPED[..2]) == s.(stops := map[1 := Killing(0)])
  {
    assert After(s, []) == s;
    OneMore(s, [], LookUp(1));
    OneMore(s, STOPPED[..1], Check(1));
    assert [] + [LookUp(1)] == STOPPED[..1] && STOPPED[..1] + [Check(1)] == STOPPED[..2];
  }

  lemma StoppedRun(s: State)
    requires s == State(Shared([FRESH], Some(0), false), map[], map[], map[0 := Reading])
    ensures After(s, STOPPED) == s.(shared := Shared([FRESH.(status := Stopped, finished := true)], Some(0), false))
  {
    LookedRun(s);
    OneMore(s, STOPPED[..2], Kill(1));
    assert STOPPED[..2] + [Kill(1)] == STOPPED[..3];
    assert After(s, STOPPED[..3]) == s.(stops := map[1 := Killed(0)]);
    OneMore(s, STOPPED[..3], Mark(1));
    assert STOPPED[..3] + [Mark(1)] == STOPPED;
    assert map[1 := Killed(0)] - {1} == map[];
  }

  /** And it does: a job that was stopped can still be reported as done. */
  lemma StoppedMayBecomeDone()
    ensures After(INIT, STARTED + STOPPED).shared.jobs == [FRESH.(status := Stopped, finished := true)]
    ensures After(INIT, STARTED + STOPPED + [Take(0, LastWord("finished"))]).shared.jobs == [FRESH.(status := Done, finished := true)]
  {
    RunInParts(INIT, STARTED, STOPPED);
    StartedRun();
    StoppedRun(After(INIT, STARTED));
    OneMore(INIT, STARTED + STOPPED, Take(0, LastWord("finished")));
  }

  /** When a stop that found a job capturing has marked it, that job no longer captures, now or later. */
  lemma StopStops(actions: seq<Action>, t: Thread, later: seq<Action>)
    requires var s := After(INIT, actions); t in s.stops && s.stops[t].Killed?
    ensures var s := After(INIT, actions);
      var after := After(Step(s, Mark(t)), later).shared;
      s.stops[t].job < |after.jobs| && !after.jobs[s.stops[t].job].status.Capturing?
  {
    var s := After(INIT, actions);
    RunKeepsInv(INIT, actions);
    StepKeepsInv(s, Mark(t));
    RunGoesOn(Step(s, Mark(t)), later);
    MarkEnds(s, t);
  }

  lemma MarkEnds(s: State, t: Thread)
    requires Inv(s) && t in s.stops && s.stops[t].Killed?
    ensures var after := Step(s, Mark(t)).shared;
      s.stops[t].job < |after.jobs| && !after.jobs[s.stops[t].job].status.Capturing?
  {
    hide OneHolder, RoomToPublish, EndedWithReader;
  }
}
