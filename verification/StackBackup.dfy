/**
 One agent's backup (`stack_backup.py`): the five-attempt loop of `_sync` against a branch that other agents push to
 between any two statements, and `run_once` around it.
 */
module StackBackup {
  import opened Wrappers
  import opened BackupProtocol
  import opened HostFolder

  // ----- the world around one agent -----------------------------------------------------------

  /** What happens at one statement: first the other hosts do something, then the statement has its outcome. */
  datatype Turn = Turn(others: seq<Event>, outcome: Outcome)

  ghost predicate OthersOnly(h: Folder, events: seq<Event>) {
    forall e :: e in events ==> e.host != h
  }

  class World {
    var state: State

    constructor (first: Machines)
      ensures state == Start(first)
    {
      state := Start(first);
    }

    /** Other hosts' actions, in order. */
    method Others(events: seq<Event>)
      requires state.chain != []
      modifies this
      ensures state.chain != [] && state == Run(old(state), events)
    {
      for i := 0 to |events|
        invariant state.chain != [] && state == Run(old(state), events[..i])
      {
        assert events[..i + 1][..i] == events[..i];
        state := Act(state, events[i].host, events[i].action);
      }
      assert events[..|events|] == events;
    }
  }

  lemma {:induction false} RunSplit(s: State, a: seq<Event>, b: seq<Event>)
    requires s.chain != []
    ensures Run(s, a + b) == Run(Run(s, a), b)
    decreases |b|
  {
    if b == [] {
      assert a + b == a;
    } else {
      assert (a + b)[..|a + b| - 1] == a + b[..|b| - 1];
      RunSplit(s, a, b[..|b| - 1]);
    }
  }

  lemma {:induction false} OthersLeaveAgent(s: State, h: Folder, events: seq<Event>)
    requires s.chain != [] && OthersOnly(h, events)
    ensures AgentOf(Run(s, events), h) == AgentOf(s, h)
    decreases |events|
  {
    if events != [] {
      assert events[|events| - 1] in events;
      OthersLeaveAgent(s, h, events[..|events| - 1]);
    }
  }

  /** Whether a statement's exit status is 0. */
  predicate Succeeds(chain: Chain, h: Folder, a: Agent, outcome: Outcome) {
    outcome == Works &&
    (a.phase.Diffing? ==> a.fetched < |chain| && Own(a.index, h) == Own(chain[a.fetched].tree, h)) &&
    (a.phase.Committing? ==> a.fetched < |chain| && a.index != chain[a.fetched].tree) &&
    (a.phase.Pushing? ==> a.fetched == |chain| - 1)
  }

  /** The statement after this one, by its exit status alone: this is what the loop in `_sync` decides. */
  function PhaseAfter(p: Phase, attempt: nat, ok: bool): Phase {
    match p
    case Cloning => if ok then Fetching else Raised(false)
    case Fetching => if ok then Resetting else Raised(false)
    case Resetting => if ok then Cleaning else Raised(false)
    case Cleaning => Replacing
    case Replacing => if ok then Adding else Raised(false)
    case Adding => if ok then Diffing else Raised(false)
    case Diffing => if ok then Reporting(false) else Committing
    case Committing => if ok then Pushing else Raised(false)
    case Pushing => if ok then Reporting(true) else if attempt + 1 < ATTEMPTS then Fetching else Raised(true)
    case Reporting(pushed) => if ok then Returned(pushed) else Raised(false)
    case _ => p
  }

  lemma StatementDecides(s: State, h: Folder, outcome: Outcome)
    requires Inv(s) && Busy(AgentOf(s, h).phase)
    ensures var (a, b) := (AgentOf(s, h), AgentOf(Act(s, h, Next(outcome)), h));
      && b.phase == PhaseAfter(a.phase, a.attempt, Succeeds(s.chain, h, a, outcome))
      && b.attempt == (if a.phase.Pushing? && !b.phase.Reporting? then a.attempt + 1 else a.attempt)
      && b.from == a.from && b.staged == a.staged
  {
    hide Inv, Succeeds, Act, OneFolderEach, TreeInv, CountInv, OthersSince;
    OfAgent(s, h);
    ActOnAgent(s, h, outcome);
    StepDecides(s.chain, h, AgentOf(s, h), outcome);
  }

  lemma StepDecides(chain: Chain, h: Folder, a: Agent, outcome: Outcome)
    requires chain != [] && TreeInv(chain, h, a) && Busy(a.phase)
    ensures var b := if a.phase.Pushing? then PushStep(chain, h, a, outcome).1 else LocalStep(chain, h, a, outcome == Works);
      && b.phase == PhaseAfter(a.phase, a.attempt, Succeeds(chain, h, a, outcome))
      && b.attempt == (if a.phase.Pushing? && !b.phase.Reporting? then a.attempt + 1 else a.attempt)
      && b.from == a.from && b.staged == a.staged
  {
    hide QuietSince, Own;
  }

  /** What a statement does to the world, with what the other hosts do before it. */
  function Turned(s: State, h: Folder, turn: Turn): (t: State)
    requires s.chain != []
  {
    Act(Run(s, turn.others), h, Next(turn.outcome))
  }

  function TurnEvents(h: Folder, turn: Turn): seq<Event> {
    turn.others + [Event(h, Next(turn.outcome))]
  }

  lemma TurnIsRun(start: State, before: seq<Event>, h: Folder, turn: Turn)
    requires start.chain != []
    ensures Turned(Run(start, before), h, turn) == Run(start, before + TurnEvents(h, turn))
  {
    RunSplit(start, before, turn.others);
    var after := before + TurnEvents(h, turn);
    assert after[..|after| - 1] == before + turn.others;
  }

  /** A sync that returned left its folder in the branch; one that ran out of attempts met as many other pushes. */
  lemma SyncEnded(chain: Chain, h: Folder, a: Agent)
    requires chain != [] && OneFolderEach(chain) && AgentInv(chain, h, a)
    ensures a.phase.Returned? ==> Own(chain[|chain| - 1].tree, h) == Some(a.staged)
    ensures a.phase.Raised? && a.flawless ==> OthersSince(chain, a.from, h) >= ATTEMPTS
  {
    hide OneFolderEach, OthersSince, QuietSince, QuietBetween, Own;
    if a.phase.Returned? {
      ReturnedKeepsOwn(chain, h, a);
    }
  }

  /** The branch only grows. */
  lemma {:induction false} RunExtends(s: State, events: seq<Event>)
    requires s.chain != []
    ensures s.chain <= Run(s, events).chain
    decreases |events|
  {
    hide LocalStep;
    if events != [] {
      RunExtends(s, events[..|events| - 1]);
    }
  }

  /**
   What a host is told at the end of a sync that found the branch at `before` and left it at `after`: "pushed" names
   a commit it made in between, and either answer names one that holds `staging`. When nothing failed, "no changes"
   means it made none, and it is told so exactly when `before` held `staging` already.
   */
  ghost predicate Truthful(before: Chain, after: Chain, h: Folder, staging: Files, pushed: bool, commit: nat, flawless: bool) {
    && 0 < |before| <= |after| && commit < |after| && Own(after[commit].tree, h) == Some(staging)
    && (pushed ==> |before| <= commit && after[commit].author == h)
    && (flawless && !pushed ==> QuietBetween(after, h, |before|, |after|))
    && (flawless ==> (pushed <==> Own(before[|before| - 1].tree, h) != Some(staging)))
  }

  lemma ReturnedIsTruthful(before: Chain, after: Chain, h: Folder, a: Agent)
    requires 0 < |before| == a.from && before <= after && OneFolderEach(after) && AgentInv(after, h, a) && a.phase.Returned?
    ensures Truthful(before, after, h, a.staged, a.phase.pushed, a.made, a.flawless)
  {
    hide OneFolderEach, AgentInv, QuietBetween, Own;
    AnswerIsTrue(after, h, a);
  }

  // ----- the backup -----------------------------------------------------------------------

  datatype BackupError = GitFailed | PushRejected | NothingCollected

  datatype Ending = NoChanges | Pushed

  /** `_status`, as far as a run changes it. */
  datatype Status = Status(running: bool, result: Option<Ending>, error: Option<BackupError>, commit: Option<nat>)

  class Backup {
    const host: Folder
    const world: World
    var locked: bool
    var status: Status

    constructor (name: string, world: World)
      requires IsFolder(Sanitize(name))
      ensures host == Sanitize(name) && this.world == world && !locked && status == Status(false, None, None, None)
    {
      host, this.world, locked, status := Sanitize(name), world, false, Status(false, None, None, None);
    }

    ghost function Me(): Agent
      reads world
    {
      AgentOf(world.state, host)
    }

    ghost predicate Valid()
      reads world
    {
      Inv(world.state)
    }

    /** How far a sync is: what it has done is a run from `start`, and it is about to do `phase`. */
    ghost predicate Going(staging: Files, turns: nat -> Turn, start: State, events: seq<Event>, phase: Phase, attempt: nat)
      reads world
    {
      && Valid() && start.chain != [] && world.state == Run(start, events)
      && Me().phase == phase && Me().attempt == attempt && Me().staged == staging && Me().from == |start.chain|
      && ((forall i :: turns(i).outcome == Works) ==> Me().flawless)
    }

    /** One statement of `_sync`, the `t`-th of this run; `ok` is its exit status. */
    method Statement(staging: Files, turns: nat -> Turn, t: nat, ghost start: State, ghost events: seq<Event>,
                     ghost phase: Phase, ghost attempt: nat) returns (ok: bool, ghost after: seq<Event>)
      requires Going(staging, turns, start, events, phase, attempt)
      requires OthersOnly(host, turns(t).others) && Busy(phase)
      modifies world
      ensures Going(staging, turns, start, after, PhaseAfter(phase, attempt, ok),
                    if phase.Pushing? && !ok then attempt + 1 else attempt)
    {
      hide Inv, Succeeds, TurnEvents;
      var turn := turns(t);
      RunKeepsInv(world.state, turn.others);
      OthersLeaveAgent(world.state, host, turn.others);
      TurnIsRun(start, events, host, turn);
      after := events + TurnEvents(host, turn);
      world.Others(turn.others);
      ghost var s := world.state;
      ok := Succeeds(world.state.chain, host, AgentOf(world.state, host), turn.outcome);
      ActKeepsInv(s, host, Next(turn.outcome));
      StatementDecides(s, host, turn.outcome);
      if AgentOf(s, host).flawless && turn.outcome == Works {
        WorkingStaysFlawless(s, host);
      }
      world.state := Act(world.state, host, Next(turn.outcome));
    }

    lemma Finished(staging: Files, turns: nat -> Turn, start: State, events: seq<Event>, phase: Phase, attempt: nat)
      requires Going(staging, turns, start, events, phase, attempt)
      ensures Valid() && start.chain != [] && world.state == Run(start, events) && Me().phase == phase
      ensures phase.Returned? ==>
        && Own(Head(world.state), host) == Some(staging)
        && Truthful(start.chain, world.state.chain, host, staging, phase.pushed, Me().made,
                    forall i :: turns(i).outcome == Works)
      ensures phase.Raised? && (forall i :: turns(i).outcome == Works) ==>
        OthersSince(world.state.chain, |start.chain|, host) >= ATTEMPTS
    {
      hide Inv, Run, OneFolderEach, AgentInv, OthersSince, Own, QuietBetween;
      OfAgent(world.state, host);
      SyncEnded(world.state.chain, host, Me());
      RunExtends(start, events);
      if phase.Returned? {
        ReturnedIsTruthful(start.chain, world.state.chain, host, Me());
      }
    }

    method BeginSync(staging: Files, ghost turns: nat -> Turn) returns (ghost events: seq<Event>)
      requires Valid() && !Busy(Me().phase)
      modifies world
      ensures Going(staging, turns, old(world.state), events, Cloning, 0)
    {
      ActKeepsInv(world.state, host, Begin(staging));
      events := [Event(host, Begin(staging))];
      assert events[..0] == [];
      world.state := Act(world.state, host, Begin(staging));
    }

    /** `rev-parse HEAD`, and the result that `_sync` returns. */
    method Report(staging: Files, turns: nat -> Turn, t: nat, ghost start: State, ghost events: seq<Event>,
                  pushed: bool, ghost attempt: nat) returns (r: Result<Ending, BackupError>, ghost after: seq<Event>)
      requires Going(staging, turns, start, events, Reporting(pushed), attempt)
      requires OthersOnly(host, turns(t).others)
      modifies world, this`status
      ensures Going(staging, turns, start, after, if r.Ok? then Returned(pushed) else Raised(false), attempt)
      ensures r == Ok(if pushed then Pushed else NoChanges) || r == Err(GitFailed)
      ensures status == if r.Ok? then old(status).(commit := Some(Me().made)) else old(status)
    {
      hide Going, OthersOnly;
      var ok;
      ok, after := Statement(staging, turns, t, start, events, Reporting(pushed), attempt);
      if !ok {
        return Err(GitFailed), after;
      }
      status := status.(commit := Some(AgentOf(world.state, host).made));
      assert Going(staging, turns, start, after, Returned(pushed), attempt);
      r := Ok(if pushed then Pushed else NoChanges);
    }

    /** One turn of the loop in `_sync`; `None` when the push was refused and the loop goes on. */
    method Attempt(staging: Files, turns: nat -> Turn, t: nat, ghost start: State, ghost events: seq<Event>, attempt: nat)
      returns (r: Option<Result<Ending, BackupError>>, ghost after: seq<Event>)
      requires Going(staging, turns, start, events, Fetching, attempt) && forall i :: OthersOnly(host, turns(i).others)
      modifies world, this`status
      ensures match r
        case None =>
          Going(staging, turns, start, after, if attempt + 1 < ATTEMPTS then Fetching else Raised(true), attempt + 1)
            && status == old(status)
        case Some(Ok(ending)) =>
          Going(staging, turns, start, after, Returned(ending == Pushed), attempt)
            && status == old(status).(commit := Some(Me().made))
        case Some(Err(error)) =>
          Going(staging, turns, start, after, Raised(false), attempt) && error == GitFailed && status == old(status)
    {
      hide Going, OthersOnly;
      var ok;
      ok, after := Statement(staging, turns, t, start, events, Fetching, attempt);
      if !ok { return Some(Err(GitFailed)), after; }
      ok, after := Statement(staging, turns, t + 1, start, after, Resetting, attempt);
      if !ok { return Some(Err(GitFailed)), after; }
      ok, after := Statement(staging, turns, t + 2, start, after, Cleaning, attempt);  // its exit status is ignored
      ok, after := Statement(staging, turns, t + 3, start, after, Replacing, attempt);
      if !ok { return Some(Err(GitFailed)), after; }
      ok, after := Statement(staging, turns, t + 4, start, after, Adding, attempt);
      if !ok { return Some(Err(GitFailed)), after; }
      var ending;
      ok, after := Statement(staging, turns, t + 5, start, after, Diffing, attempt);
      if ok {
        ending, after := Report(staging, turns, t + 6, start, after, false, attempt);
        return Some(ending), after;
      }
      ok, after := Statement(staging, turns, t + 6, start, after, Committing, attempt);
      if !ok { return Some(Err(GitFailed)), after; }
      ok, after := Statement(staging, turns, t + 7, start, after, Pushing, attempt);
      if ok {
        ending, after := Report(staging, turns, t + 8, start, after, true, attempt);
        return Some(ending), after;
      }
      r := None;
    }

    /**
     `_sync`: five attempts at fetch, reset, clean, replace, add, diff, commit and push. `turns` says what every
     statement meets. What it did is a run of the protocol; when it returns, the branch holds `staging` in the
     host's folder, what it returns is true, and when every statement works it fails only after five pushes of
     other hosts.
     */
    method Sync(staging: Files, turns: nat -> Turn) returns (r: Result<Ending, BackupError>, ghost events: seq<Event>)
      requires Valid() && !Busy(Me().phase) && forall i :: OthersOnly(host, turns(i).others)
      modifies world, this`status
      ensures Valid() && world.state == Run(old(world.state), events)
      ensures r.Ok? ==> Own(Head(world.state), host) == Some(staging)
      ensures r.Ok? ==> Me().phase == Returned(r.value == Pushed) && status == old(status).(commit := Some(Me().made))
      ensures r.Ok? ==> Truthful(old(world.state).chain, world.state.chain, host, staging, r.value == Pushed,
                                 status.commit.value, forall i :: turns(i).outcome == Works)
      ensures r.Err? ==> Me().phase == Raised(r.error == PushRejected) && status == old(status)
      ensures (forall i :: turns(i).outcome == Works) && r.Err? ==>
        OthersSince(world.state.chain, |old(world.state.chain)|, host) >= ATTEMPTS
    {
      hide Going, OthersOnly, Run, Inv;
      ghost var start := world.state;
      var ok;
      events := BeginSync(staging, turns);
      ok, events := Statement(staging, turns, 0, start, events, Cloning, 0);
      if !ok {
        Finished(staging, turns, start, events, Raised(false), 0);
        return Err(GitFailed), events;
      }
      for attempt := 0 to ATTEMPTS
        invariant start.chain != [] && status == old(status)
        invariant Going(staging, turns, start, events, if attempt < ATTEMPTS then Fetching else Raised(true), attempt)
      {
        var ended;
        ended, events := Attempt(staging, turns, 1 + 8 * attempt, start, events, attempt);
        if ended.Some? {
          r := ended.value;
          Finished(staging, turns, start, events, if r.Ok? then Returned(r.value == Pushed) else Raised(false), attempt);
          return;
        }
      }
      Finished(staging, turns, start, events, Raised(true), ATTEMPTS);
      return Err(PushRejected), events;
    }

    /** `run_once`: one run at a time, and the status says how the last one ended. */
    method RunOnce(collected: Result<Files, BackupError>, turns: nat -> Turn)
      requires Valid() && (locked || !Busy(Me().phase)) && forall i :: OthersOnly(host, turns(i).others)
      modifies world, this
      ensures Valid()
      ensures old(locked) ==> world.state == old(world.state) && locked && status == old(status)
      ensures !old(locked) ==> !locked && !status.running
      ensures !old(locked) && status.error.None? ==>
        && collected.Ok? && Own(Head(world.state), host) == Some(collected.value)
        && status.result.Some? && status.commit.Some?
        && Truthful(old(world.state).chain, world.state.chain, host, collected.value, status.result.value == Pushed,
                 status.commit.value, forall i :: turns(i).outcome == Works)
      ensures !old(locked) && status.error.Some? ==> status.result == old(status.result) && status.commit == old(status.commit)
      ensures !old(locked) && collected.Err? ==> status.error == Some(collected.error) && world.state == old(world.state)
    {
      hide Truthful;
      if locked {
        return;
      }
      locked, status := true, status.(running := true);
      if collected.Err? {
        status := status.(error := Some(collected.error));
      } else {
        var r, _ := Sync(collected.value, turns);
        status := if r.Ok? then status.(result := Some(r.value), error := None) else status.(error := Some(r.error));
      }
      status := status.(running := false);
      locked := false;
    }
  }
}
