/**
 The protocol by which many agents back up to one branch (`stack_backup.py`): every agent fetches the branch,
 resets its clone to it, replaces its own folder, commits and pushes, and starts again when the push is refused.

 A state holds the branch and every agent's progress. An action lets one agent begin a sync or do the next
 statement of the one it is in; the statement may fail, and a push may also take effect and be reported as failed.
 A run is any sequence of actions of any agents.
 */
module BackupProtocol {
  import opened Wrappers

  const ATTEMPTS := 5

  type Folder = string

  /** Everything in one folder: path to text. */
  type Files = map<string, string>

  /** What a commit holds under `machines/`. */
  type Machines = map<Folder, Files>

  datatype Commit = Commit(author: Folder, tree: Machines)

  /** The branch, oldest commit first; the first one is whatever the repository started with. */
  type Chain = seq<Commit>

  datatype Phase =
    | Idle
    | Cloning | Fetching | Resetting | Cleaning | Replacing | Adding | Diffing | Committing | Pushing
    | Reporting(pushed: bool)
    | Returned(pushed: bool)
    | Raised(rejected: bool)

  datatype Agent = Agent(
    phase: Phase,
    staged: Files,      // what this sync backs up
    attempt: nat,
    fetched: nat,       // the commit last fetched, as a position in the branch
    work: Machines,     // the working tree
    index: Machines,
    made: nat,          // the position HEAD has in the branch when the sync ends
    from: nat,          // how long the branch was when the sync began
    stale: nat,         // how many of its pushes were refused because the branch had moved
    flawless: bool)     // nothing has failed in this sync

  datatype State = State(chain: Chain, agents: map<Folder, Agent>)

  datatype Outcome = Works | Fails | Lost

  datatype Action = Begin(staged: Files) | Next(outcome: Outcome)

  // ----- one action -----------------------------------------------------------------

  const NO_AGENT := Agent(Idle, map[], 0, 0, map[], map[], 0, 0, 0, true)

  function AgentOf(s: State, h: Folder): Agent {
    if h in s.agents then s.agents[h] else NO_AGENT
  }

  predicate Busy(p: Phase) {
    !p.Idle? && !p.Returned? && !p.Raised?
  }

  function Head(s: State): Machines
    requires s.chain != []
  {
    s.chain[|s.chain| - 1].tree
  }

  /** The folder of `h` in a tree. */
  function Own(tree: Machines, h: Folder): Option<Files> {
    if h in tree then Some(tree[h]) else None
  }

  function Raise(a: Agent): Agent {
    a.(phase := Raised(false), flawless := false)
  }

  /** A refused push: sleep and try again, or give up after the last attempt. */
  function Retry(a: Agent): Agent {
    if a.attempt + 1 < ATTEMPTS then a.(phase := Fetching, attempt := a.attempt + 1)
    else a.(phase := Raised(true), attempt := a.attempt + 1)
  }

  /** Everything but `push`: these touch only the agent's own clone. */
  function LocalStep(chain: Chain, h: Folder, a: Agent, works: bool): Agent
    requires chain != []
  {
    match a.phase
    case Cloning => if works then a.(phase := Fetching) else Raise(a)
    case Fetching => if works then a.(phase := Resetting, fetched := |chain| - 1) else Raise(a)
    case Resetting =>
      if works && a.fetched < |chain| then
        a.(phase := Cleaning, work := chain[a.fetched].tree, index := chain[a.fetched].tree)
      else Raise(a)
    case Cleaning => a.(phase := Replacing, flawless := a.flawless && works)
    case Replacing => if works then a.(phase := Adding, work := a.work[h := a.staged]) else Raise(a)
    case Adding =>
      if works && h in a.work then a.(phase := Diffing, index := a.index[h := a.work[h]]) else Raise(a)
    case Diffing =>
      if works && a.fetched < |chain| && Own(a.index, h) == Own(chain[a.fetched].tree, h)
      then a.(phase := Reporting(false), made := a.fetched)
      else a.(phase := Committing, flawless := a.flawless && works)
    case Committing =>
      // with nothing staged, `git commit` fails
      if works && a.fetched < |chain| && a.index != chain[a.fetched].tree then a.(phase := Pushing) else Raise(a)
    case Reporting(pushed) => if works then a.(phase := Returned(pushed)) else Raise(a)
    case _ => a
  }

  /** `push`: accepted only when the commit's parent is still the newest one. */
  function PushStep(chain: Chain, h: Folder, a: Agent, outcome: Outcome): (Chain, Agent) {
    if outcome == Fails then (chain, Retry(a).(flawless := false))
    else if a.fetched != |chain| - 1 then (chain, Retry(a).(stale := a.stale + 1, flawless := a.flawless && outcome == Works))
    else if outcome == Lost then (chain + [Commit(h, a.index)], Retry(a).(flawless := false))
    else (chain + [Commit(h, a.index)], a.(phase := Reporting(true), made := |chain|))
  }

  function Act(s: State, h: Folder, action: Action): State
    requires s.chain != []
  {
    var a := AgentOf(s, h);
    match action
    case Begin(staged) =>
      if Busy(a.phase) then s
      else s.(agents := s.agents[h := NO_AGENT.(phase := Cloning, staged := staged, from := |s.chain|)])
    case Next(outcome) =>
      if a.phase.Pushing? then
        var (chain, b) := PushStep(s.chain, h, a, outcome);
        State(chain, s.agents[h := b])
      else s.(agents := s.agents[h := LocalStep(s.chain, h, a, outcome == Works)])
  }

  // ----- runs ---------------------------------------------------------------------

  datatype Event = Event(host: Folder, action: Action)

  function Run(s: State, events: seq<Event>): (r: State)
    requires s.chain != []
    ensures r.chain != []
    decreases |events|
  {
    if events == [] then s
    else
      var before := Run(s, events[..|events| - 1]);
      var e := events[|events| - 1];
      Act(before, e.host, e.action)
  }

  function Start(first: Machines): State {
    State([Commit("", first)], map[])
  }

  // ----- what the branch is -----------------------------------------------------------

  /** Every commit is its parent with nothing changed but its author's folder. */
  ghost predicate OneFolderEach(chain: Chain) {
    forall i {:trigger chain[i]} :: 0 < i < |chain| ==>
      chain[i].author in chain[i].tree &&
      chain[i].tree == chain[i - 1].tree[chain[i].author := chain[i].tree[chain[i].author]]
  }

  /** The folder of `h` in its own latest commit, or in the first commit when it has made none. */
  function LatestOwn(chain: Chain, h: Folder): Option<Files>
    requires chain != []
    decreases |chain|
  {
    var last := chain[|chain| - 1];
    if |chain| == 1 || last.author == h then Own(last.tree, h) else LatestOwn(chain[..|chain| - 1], h)
  }

  /** How many commits other hosts have added at or after position `from`. */
  function OthersSince(chain: Chain, from: nat, h: Folder): nat
    decreases |chain|
  {
    if |chain| <= from || chain == [] then 0
    else OthersSince(chain[..|chain| - 1], from, h) + if chain[|chain| - 1].author == h then 0 else 1
  }

  // ----- the invariant ------------------------------------------------------------------

  predicate HasFetched(p: Phase) {
    p.Resetting? || p.Cleaning? || p.Replacing? || p.Adding? || p.Diffing? || p.Committing? || p.Pushing?
  }

  ghost predicate QuietSince(chain: Chain, h: Folder, k: nat) {
    forall i {:trigger chain[i]} :: k < i < |chain| ==> chain[i].author != h
  }

  /** Where the agent's trees stand between the commit it fetched and the one it is making. */
  ghost predicate TreeInv(chain: Chain, h: Folder, a: Agent) {
    && (HasFetched(a.phase) ==> a.fetched < |chain| && QuietSince(chain, h, a.fetched))
    && (a.phase.Cleaning? || a.phase.Replacing? || a.phase.Adding? ==> a.index == chain[a.fetched].tree)
    && (a.phase.Adding? ==> h in a.work && a.work[h] == a.staged)
    && (a.phase.Diffing? || a.phase.Committing? || a.phase.Pushing? ==> a.index == chain[a.fetched].tree[h := a.staged])
    && ((a.phase.Committing? || a.phase.Pushing?) && a.flawless ==> Own(chain[a.fetched].tree, h) != Some(a.staged))
    && (a.phase.Reporting? || a.phase.Returned? ==>
          a.made < |chain| && QuietSince(chain, h, a.made) && Own(chain[a.made].tree, h) == Some(a.staged))
  }

  /** Refused pushes against other hosts' pushes. */
  ghost predicate CountInv(chain: Chain, h: Folder, a: Agent) {
    && a.from <= |chain|
    && (Busy(a.phase) ==> a.attempt < ATTEMPTS)
    && a.stale <= OthersSince(chain, a.from, h)
    && (HasFetched(a.phase) && a.fetched < |chain| ==>
          a.from <= a.fetched + 1 && a.stale <= OthersSince(chain[..a.fetched + 1], a.from, h))
    && (a.flawless ==> a.attempt == a.stale)
    && (a.phase.Raised? && a.flawless ==> a.attempt == ATTEMPTS)
  }

  /** None of the commits from position `from` on, and before `to`, is by `h`. */
  ghost predicate QuietBetween(chain: Chain, h: Folder, from: nat, to: nat)
    requires to <= |chain|
  {
    forall i {:trigger chain[i]} :: from <= i < to ==> chain[i].author != h
  }

  predicate HasPushed(p: Phase) {
    p == Reporting(true) || p == Returned(true)
  }

  /**
   What an answer rests on: a sync that says it pushed made a commit, and, when nothing has failed, its only one,
   of a folder that had changed; until then a sync in which nothing has failed made no commit.
   */
  ghost predicate AnswerInv(chain: Chain, h: Folder, a: Agent) {
    && (HasPushed(a.phase) ==> a.from <= a.made < |chain| && chain[a.made].author == h)
    && (a.flawless && HasPushed(a.phase) ==>
          a.made > 0 && QuietBetween(chain, h, a.from, a.made) && Own(chain[a.made - 1].tree, h) != Some(a.staged))
    && (a.flawless && !HasPushed(a.phase) && !a.phase.Idle? ==> QuietBetween(chain, h, a.from, |chain|))
  }

  ghost predicate AgentInv(chain: Chain, h: Folder, a: Agent) {
    TreeInv(chain, h, a) && CountInv(chain, h, a) && AnswerInv(chain, h, a)
  }

  ghost predicate Inv(s: State) {
    s.chain != [] && OneFolderEach(s.chain) && forall h :: AgentInv(s.chain, h, AgentOf(s, h))
  }

  // ----- facts about the branch ---------------------------------------------------------

  lemma ShorterIsOneFolderEach(chain: Chain)
    requires OneFolderEach(chain) && chain != []
    ensures OneFolderEach(chain[..|chain| - 1])
  {
    var shorter := chain[..|chain| - 1];
    assert forall i :: 0 <= i < |shorter| ==> shorter[i] == chain[i];
  }

  lemma QuietCommit(chain: Chain, h: Folder)
    requires OneFolderEach(chain) && |chain| > 1 && chain[|chain| - 1].author != h
    ensures Own(chain[|chain| - 1].tree, h) == Own(chain[|chain| - 2].tree, h)
  {
  }

  /** With one folder changed by each commit, a host's folder stays as it is while the host is quiet. */
  lemma {:induction false} QuietKeepsOwn(chain: Chain, h: Folder, k: nat)
    requires OneFolderEach(chain) && k < |chain| && QuietSince(chain, h, k)
    ensures Own(chain[|chain| - 1].tree, h) == Own(chain[k].tree, h)
    decreases |chain|
  {
    hide OneFolderEach, Own;
    if k < |chain| - 1 {
      var shorter := chain[..|chain| - 1];
      ShorterIsOneFolderEach(chain);
      assert forall i :: 0 <= i < |shorter| ==> shorter[i] == chain[i];
      QuietKeepsOwn(shorter, h, k);
      assert chain[|chain| - 1].author != h;
      QuietCommit(chain, h);
    }
  }

  /** No update is lost: the newest commit holds every host's own latest push. */
  lemma {:induction false} HeadHoldsLatest(chain: Chain, h: Folder)
    requires chain != [] && OneFolderEach(chain)
    ensures Own(chain[|chain| - 1].tree, h) == LatestOwn(chain, h)
    decreases |chain|
  {
    if |chain| > 1 && chain[|chain| - 1].author != h {
      var shorter := chain[..|chain| - 1];
      ShorterIsOneFolderEach(chain);
      HeadHoldsLatest(shorter, h);
      assert shorter[|shorter| - 1] == chain[|chain| - 2];
    }
  }

  lemma OthersSinceMore(chain: Chain, c: Commit, from: nat, h: Folder)
    requires from <= |chain|
    ensures OthersSince(chain + [c], from, h) == OthersSince(chain, from, h) + if c.author == h then 0 else 1
  {
    assert (chain + [c])[..|chain|] == chain;
  }

  /** It counts each commit from that position on whose author is somebody else. */
  lemma {:induction false} OthersSinceCounts(chain: Chain, from: nat, h: Folder)
    ensures OthersSince(chain, from, h) == |set i | from <= i < |chain| && chain[i].author != h|
    decreases |chain|
  {
    var now := set i | from <= i < |chain| && chain[i].author != h;
    if chain != [] && from < |chain| {
      var last, shorter := |chain| - 1, chain[..|chain| - 1];
      OthersSinceCounts(shorter, from, h);
      var before := set i | from <= i < |shorter| && shorter[i].author != h;
      assert now == if chain[last].author == h then before else before + {last};
    } else {
      assert now == {};
    }
  }

  /** Commits that a host did not make, after the one it fetched, are other hosts' pushes. */
  lemma {:induction false} OthersSinceStale(chain: Chain, k: nat, from: nat, h: Folder)
    requires k < |chain| - 1 && from <= k + 1 && QuietSince(chain, h, k)
    ensures OthersSince(chain, from, h) > OthersSince(chain[..k + 1], from, h)
    decreases |chain|
  {
    var shorter := chain[..|chain| - 1];
    assert chain[|chain| - 1].author != h;
    if k < |shorter| - 1 {
      assert QuietSince(shorter, h, k) by {
        forall i | k < i < |shorter| ensures shorter[i].author != h { assert shorter[i] == chain[i]; }
      }
      OthersSinceStale(shorter, k, from, h);
      assert shorter[..k + 1] == chain[..k + 1];
    } else {
      assert shorter == chain[..k + 1];
    }
  }

  // ----- the invariant is kept -----------------------------------------------------------

  lemma OthersPushKeepsAnswer(chain: Chain, h: Folder, a: Agent, c: Commit)
    requires AnswerInv(chain, h, a) && c.author != h
    ensures AnswerInv(chain + [c], h, a)
  {
    assert forall i :: 0 <= i < |chain| ==> (chain + [c])[i] == chain[i];
  }

  /** Another host's push does not disturb an agent. */
  lemma OthersPushKeepsAgent(chain: Chain, h: Folder, a: Agent, c: Commit)
    requires chain != [] && AgentInv(chain, h, a) && c.author != h
    ensures AgentInv(chain + [c], h, a)
  {
    hide AnswerInv;
    var longer := chain + [c];
    OthersPushKeepsAnswer(chain, h, a, c);
    OthersSinceMore(chain, c, a.from, h);
    assert forall i :: 0 <= i < |chain| ==> longer[i] == chain[i];
    if HasFetched(a.phase) {
      assert longer[..a.fetched + 1] == chain[..a.fetched + 1];
    }
  }

  lemma QuietAtHead(chain: Chain, h: Folder)
    requires chain != []
    ensures QuietSince(chain, h, |chain| - 1)
  {
  }

  lemma LocalStepKeepsTrees(chain: Chain, h: Folder, a: Agent, works: bool)
    requires chain != [] && TreeInv(chain, h, a) && !a.phase.Pushing?
    ensures TreeInv(chain, h, LocalStep(chain, h, a, works))
  {
    hide QuietSince;
    QuietAtHead(chain, h);
    match a.phase
    case Fetching =>
    case Diffing => assert Own(a.index, h) == Some(a.staged);
    case _ =>
  }

  lemma LocalStepKeepsCounts(chain: Chain, h: Folder, a: Agent, works: bool)
    requires chain != [] && CountInv(chain, h, a) && !a.phase.Pushing?
    ensures CountInv(chain, h, LocalStep(chain, h, a, works))
  {
    hide Own, OthersSince;
    match a.phase
    case Fetching => assert chain[..|chain| - 1 + 1] == chain;
    case Diffing =>
    case Committing =>
    case _ =>
  }

  lemma LocalStepKeepsAnswer(chain: Chain, h: Folder, a: Agent, works: bool)
    requires chain != [] && AnswerInv(chain, h, a) && !a.phase.Pushing?
    ensures AnswerInv(chain, h, LocalStep(chain, h, a, works))
  {
    hide QuietBetween, Own;
  }

  lemma LocalStepKeepsAgent(chain: Chain, h: Folder, a: Agent, works: bool)
    requires chain != [] && AgentInv(chain, h, a) && !a.phase.Pushing?
    ensures AgentInv(chain, h, LocalStep(chain, h, a, works))
  {
    hide TreeInv, CountInv, AnswerInv;
    LocalStepKeepsTrees(chain, h, a, works);
    LocalStepKeepsAnswer(chain, h, a, works);
    LocalStepKeepsCounts(chain, h, a, works);
  }

  /** Trying again, or giving up, after a push that was refused for a moved branch or failed otherwise. */
  lemma RetryKeepsAgent(chain: Chain, h: Folder, a: Agent, stale: nat, flawless: bool)
    requires AgentInv(chain, h, a) && a.phase.Pushing?
    requires stale <= OthersSince(chain, a.from, h) && (flawless ==> a.flawless && stale == a.stale + 1)
    ensures AgentInv(chain, h, Retry(a).(stale := stale, flawless := flawless))
  {
    hide OthersSince, QuietSince, QuietBetween, Own;
  }

  lemma RefusedKeepsAgent(chain: Chain, h: Folder, a: Agent, outcome: Outcome)
    requires chain != [] && AgentInv(chain, h, a) && a.phase.Pushing?
    requires PushStep(chain, h, a, outcome).0 == chain
    ensures AgentInv(chain, h, PushStep(chain, h, a, outcome).1)
  {
    hide OthersSince, QuietSince, QuietBetween, Own;
    if outcome != Fails && a.fetched < |chain| - 1 {
      OthersSinceStale(chain, a.fetched, a.from, h);
      RetryKeepsAgent(chain, h, a, a.stale + 1, a.flawless && outcome == Works);
    } else {
      assert |chain + [Commit(h, a.index)]| != |chain|;
      RetryKeepsAgent(chain, h, a, a.stale, false);
    }
  }

  lemma AcceptedKeepsBranch(chain: Chain, h: Folder, a: Agent)
    requires chain != [] && OneFolderEach(chain) && TreeInv(chain, h, a) && a.phase.Pushing? && a.fetched == |chain| - 1
    ensures OneFolderEach(chain + [Commit(h, a.index)])
  {
    var longer := chain + [Commit(h, a.index)];
    forall i | 0 < i < |longer|
      ensures longer[i].author in longer[i].tree &&
        longer[i].tree == longer[i - 1].tree[longer[i].author := longer[i].tree[longer[i].author]]
    {
      assert longer[i - 1] == chain[i - 1];
      assert i < |chain| ==> longer[i] == chain[i];
    }
  }

  lemma AcceptedKeepsAgent(chain: Chain, h: Folder, a: Agent, outcome: Outcome)
    requires chain != [] && AgentInv(chain, h, a) && a.phase.Pushing?
    requires outcome != Fails && a.fetched == |chain| - 1
    ensures var longer := chain + [Commit(h, a.index)];
      PushStep(chain, h, a, outcome).0 == longer && AgentInv(longer, h, PushStep(chain, h, a, outcome).1)
  {
    hide TreeInv, CountInv, AnswerInv;
    AcceptedKeepsCounts(chain, h, a, outcome);
    AcceptedKeepsTrees(chain, h, a, outcome);
    AcceptedMakesAnswer(chain, h, a, outcome);
  }

  lemma AcceptedKeepsCounts(chain: Chain, h: Folder, a: Agent, outcome: Outcome)
    requires chain != [] && CountInv(chain, h, a) && a.phase.Pushing? && outcome != Fails && a.fetched == |chain| - 1
    ensures CountInv(chain + [Commit(h, a.index)], h, PushStep(chain, h, a, outcome).1)
  {
    hide OthersSince;
    OthersSinceMore(chain, Commit(h, a.index), a.from, h);
  }

  lemma AcceptedKeepsTrees(chain: Chain, h: Folder, a: Agent, outcome: Outcome)
    requires chain != [] && TreeInv(chain, h, a) && a.phase.Pushing? && outcome != Fails && a.fetched == |chain| - 1
    ensures TreeInv(chain + [Commit(h, a.index)], h, PushStep(chain, h, a, outcome).1)
  {
    assert (chain + [Commit(h, a.index)])[|chain|] == Commit(h, a.index) && Own(a.index, h) == Some(a.staged);
  }

  lemma AcceptedMakesAnswer(chain: Chain, h: Folder, a: Agent, outcome: Outcome)
    requires chain != [] && AgentInv(chain, h, a) && a.phase.Pushing? && outcome != Fails && a.fetched == |chain| - 1
    ensures AnswerInv(chain + [Commit(h, a.index)], h, PushStep(chain, h, a, outcome).1)
  {
    hide OthersSince, QuietSince, Own;
    assert forall i :: 0 <= i < |chain| ==> (chain + [Commit(h, a.index)])[i] == chain[i];
  }

  lemma AgentTrees(chain: Chain, h: Folder, a: Agent)
    requires chain != [] && AgentInv(chain, h, a)
    ensures TreeInv(chain, h, a)
  {
  }

  lemma PushKeeps(chain: Chain, h: Folder, a: Agent, outcome: Outcome)
    requires chain != [] && OneFolderEach(chain) && AgentInv(chain, h, a) && a.phase.Pushing?
    ensures var (longer, b) := PushStep(chain, h, a, outcome);
      OneFolderEach(longer) && AgentInv(longer, h, b) && (longer == chain || longer == chain + [Commit(h, a.index)])
  {
    hide AgentInv, OneFolderEach, TreeInv;
    if outcome != Fails && a.fetched == |chain| - 1 {
      assert TreeInv(chain, h, a) by { AgentTrees(chain, h, a); }
      AcceptedKeepsBranch(chain, h, a);
      AcceptedKeepsAgent(chain, h, a, outcome);
    } else {
      RefusedKeepsAgent(chain, h, a, outcome);
    }
  }

  lemma ActKeepsInv(s: State, h: Folder, action: Action)
    requires Inv(s)
    ensures Inv(Act(s, h, action))
  {
    var t, a := Act(s, h, action), AgentOf(s, h);
    forall g ensures AgentInv(t.chain, g, AgentOf(t, g)) {
      var was := AgentOf(s, g);
      assert AgentInv(s.chain, g, was);
      if action.Next? && a.phase.Pushing? {
        PushKeeps(s.chain, h, a, action.outcome);
        if g != h && t.chain != s.chain {
          OthersPushKeepsAgent(s.chain, g, was, Commit(h, a.index));
        }
      } else if action.Next? && g == h {
        LocalStepKeepsAgent(s.chain, h, a, action.outcome == Works);
      }
    }
    if action.Next? && a.phase.Pushing? {
      PushKeeps(s.chain, h, a, action.outcome);
    }
  }

  /** What the invariant says of one agent. */
  lemma OfAgent(s: State, h: Folder)
    requires Inv(s)
    ensures s.chain != [] && OneFolderEach(s.chain) && AgentInv(s.chain, h, AgentOf(s, h))
  {
  }

  /** What a statement makes of the agent that runs it. */
  lemma ActOnAgent(s: State, h: Folder, outcome: Outcome)
    requires s.chain != []
    ensures var (a, t) := (AgentOf(s, h), Act(s, h, Next(outcome)));
      AgentOf(t, h) ==
        (if a.phase.Pushing? then PushStep(s.chain, h, a, outcome).1 else LocalStep(s.chain, h, a, outcome == Works))
  {
    hide PushStep, LocalStep;
  }

  lemma {:induction false} RunKeepsInv(s: State, events: seq<Event>)
    requires Inv(s)
    ensures Inv(Run(s, events))
    decreases |events|
  {
    if events != [] {
      RunKeepsInv(s, events[..|events| - 1]);
      var e := events[|events| - 1];
      ActKeepsInv(Run(s, events[..|events| - 1]), e.host, e.action);
    }
  }

  lemma StartHasInv(first: Machines)
    ensures Inv(Start(first))
  {
  }

  // ----- main results -------------------------------------------------------------------

  /**
   Safety, over every interleaving with every failure: the branch holds each host's own latest push, every commit
   changes its author's folder only, and while a host has returned from a sync the branch holds what it staged.
   */
  lemma BranchIsSafe(first: Machines, events: seq<Event>)
    ensures var s := Run(Start(first), events);
      && (forall h :: Own(Head(s), h) == LatestOwn(s.chain, h))
      && OneFolderEach(s.chain)
      && (forall h :: AgentOf(s, h).phase.Returned? ==> Own(Head(s), h) == Some(AgentOf(s, h).staged))
  {
    var s := Run(Start(first), events);
    StartHasInv(first);
    RunKeepsInv(Start(first), events);
    forall h ensures Own(Head(s), h) == LatestOwn(s.chain, h) {
      HeadHoldsLatest(s.chain, h);
    }
    forall h | AgentOf(s, h).phase.Returned? ensures Own(Head(s), h) == Some(AgentOf(s, h).staged) {
      OfAgent(s, h);
      ReturnedKeepsOwn(s.chain, h, AgentOf(s, h));
    }
  }

  lemma PrefixIsOneFolderEach(chain: Chain, n: nat)
    requires OneFolderEach(chain) && n <= |chain|
    ensures OneFolderEach(chain[..n])
  {
    assert forall i :: 0 <= i < n ==> chain[..n][i] == chain[i];
  }

  /** A host that made no commit from `from` to `to` has the folder at the end that it had at the beginning. */
  lemma QuietStretch(chain: Chain, h: Folder, from: nat, to: nat)
    requires OneFolderEach(chain) && 0 < from <= to <= |chain| && QuietBetween(chain, h, from, to)
    ensures Own(chain[to - 1].tree, h) == Own(chain[from - 1].tree, h)
  {
    hide Own, OneFolderEach;
    PrefixIsOneFolderEach(chain, to);
    assert forall i :: 0 <= i < to ==> chain[..to][i] == chain[i];
    QuietKeepsOwn(chain[..to], h, from - 1);
  }

  /**
   What an agent answers is what it did: "pushed" names a commit of its own, made since the sync began, that holds
   what it staged. When nothing has failed, "no changes" means it made no commit, and it is the answer exactly when
   the branch held what it staged from the beginning.
   */
  lemma AnswerIsTrue(chain: Chain, h: Folder, a: Agent)
    requires chain != [] && OneFolderEach(chain) && AgentInv(chain, h, a) && 0 < a.from
    ensures a.phase.Returned? ==> a.made < |chain| && Own(chain[a.made].tree, h) == Some(a.staged)
    ensures a.phase == Returned(true) ==> a.from <= a.made < |chain| && chain[a.made].author == h
    ensures a.phase == Returned(false) && a.flawless ==> QuietBetween(chain, h, a.from, |chain|)
    ensures a.phase.Returned? && a.flawless ==>
      a.from <= |chain| && (a.phase == Returned(false) <==> Own(chain[a.from - 1].tree, h) == Some(a.staged))
  {
    hide OneFolderEach, OthersSince, QuietSince, QuietBetween, Own;
    if a.flawless && a.phase == Returned(false) {
      QuietStretch(chain, h, a.from, |chain|);
      AgentTrees(chain, h, a);
      ReturnedKeepsOwn(chain, h, a);
    } else if a.flawless && a.phase == Returned(true) {
      QuietStretch(chain, h, a.from, a.made);
    }
  }

  /** While an agent has returned, the newest commit holds what it staged. */
  lemma ReturnedKeepsOwn(chain: Chain, h: Folder, a: Agent)
    requires chain != [] && OneFolderEach(chain) && TreeInv(chain, h, a) && a.phase.Returned?
    ensures Own(chain[|chain| - 1].tree, h) == Some(a.staged)
  {
    hide OneFolderEach, QuietSince, Own;
    QuietKeepsOwn(chain, h, a.made);
  }

  /** A push that takes effect adds a commit whose own folder is what the host staged, on top of the newest one. */
  lemma PushStagesOwn(s: State, h: Folder, action: Action)
    requires Inv(s) && Act(s, h, action).chain != s.chain
    ensures var t := Act(s, h, action);
      t.chain == s.chain + [Commit(h, Head(s)[h := AgentOf(s, h).staged])]
  {
    assert AgentInv(s.chain, h, AgentOf(s, h));
  }

  /**
   A sync is refused for a moved branch at most as often as other hosts pushed during it. When nothing else goes
   wrong and they pushed fewer than five times, the sync cannot end in an error.
   */
  lemma FewPushesMeanSuccess(first: Machines, events: seq<Event>, h: Folder)
    ensures var s := Run(Start(first), events); var a := AgentOf(s, h);
      && a.stale <= OthersSince(s.chain, a.from, h)
      && (a.flawless && OthersSince(s.chain, a.from, h) < ATTEMPTS ==> !a.phase.Raised?)
  {
    StartHasInv(first);
    RunKeepsInv(Start(first), events);
    var s := Run(Start(first), events);
    assert AgentInv(s.chain, h, AgentOf(s, h));
  }

  /** What it takes to stay flawless is that the agent's own statements work. */
  lemma WorkingStaysFlawless(s: State, h: Folder)
    requires Inv(s) && AgentOf(s, h).flawless
    ensures AgentOf(Act(s, h, Next(Works)), h).flawless
  {
    hide Inv, Act, OneFolderEach, TreeInv, CountInv;
    OfAgent(s, h);
    ActOnAgent(s, h, Works);
    WorkingStepStaysFlawless(s.chain, h, AgentOf(s, h));
  }

  lemma WorkingStepStaysFlawless(chain: Chain, h: Folder, a: Agent)
    requires chain != [] && TreeInv(chain, h, a) && a.flawless
    ensures (if a.phase.Pushing? then PushStep(chain, h, a, Works).1 else LocalStep(chain, h, a, true)).flawless
  {
    hide QuietSince;
    assert a.phase.Committing? ==> h in a.index && Own(a.index, h) == Some(a.staged);
  }

  // ----- every sync ends ------------------------------------------------------------------

  /** How many statements are left of one attempt. */
  function Rank(p: Phase): nat {
    match p
    case Fetching => 8
    case Resetting => 7
    case Cleaning => 6
    case Replacing => 5
    case Adding => 4
    case Diffing => 3
    case Committing => 2
    case Pushing => 1
    case _ => 0
  }

  /** How many of its own statements a sync may still do. */
  function Remaining(a: Agent): nat {
    if !Busy(a.phase) then 0
    else if a.phase.Reporting? || a.attempt >= ATTEMPTS then 1
    else if a.phase.Cloning? then 8 * (ATTEMPTS - a.attempt) + 2
    else 8 * (ATTEMPTS - 1 - a.attempt) + Rank(a.phase) + 1
  }

  /** An agent's next statement brings its sync closer to the end, and nobody else's action touches it. */
  lemma SyncsEnd(s: State, h: Folder, g: Folder, outcome: Outcome)
    requires Inv(s) && Busy(AgentOf(s, h).phase)
    ensures var (a, b) := (AgentOf(s, h), AgentOf(Act(s, g, Next(outcome)), h));
      Remaining(a) <= 8 * ATTEMPTS + 2 && if g == h then Remaining(b) < Remaining(a) else b == a
  {
    hide Inv, Act, Remaining, OneFolderEach, TreeInv, CountInv, OthersSince;
    OfAgent(s, h);
    BusyHasAttempts(s.chain, h, AgentOf(s, h));
    if g == h {
      ActOnAgent(s, h, outcome);
      StepGetsCloser(s.chain, h, AgentOf(s, h), outcome);
    } else {
      ActLeavesOthers(s, h, g, outcome);
    }
  }

  lemma BusyHasAttempts(chain: Chain, h: Folder, a: Agent)
    requires AgentInv(chain, h, a) && Busy(a.phase)
    ensures a.attempt < ATTEMPTS && Remaining(a) <= 8 * ATTEMPTS + 2
  {
    hide TreeInv, OthersSince;
  }

  lemma StepGetsCloser(chain: Chain, h: Folder, a: Agent, outcome: Outcome)
    requires chain != [] && Busy(a.phase) && a.attempt < ATTEMPTS
    ensures var b := if a.phase.Pushing? then PushStep(chain, h, a, outcome).1 else LocalStep(chain, h, a, outcome == Works);
      Remaining(b) < Remaining(a)
  {
    hide Own;
  }

  lemma ActLeavesOthers(s: State, h: Folder, g: Folder, outcome: Outcome)
    requires s.chain != [] && g != h
    ensures AgentOf(Act(s, g, Next(outcome)), h) == AgentOf(s, h)
  {
    hide PushStep, LocalStep;
  }
}
