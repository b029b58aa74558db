/** internal/agent/loop.go, agent.go, subtaskretry.go, parallel.go and goal.go: what a turn does with a
    task, and the subtasks its plan splits it into. */
module Subtasks {
  import opened Ledger
  import opened Anchor
  import opened Claims
  import opened Loop
  import opened Runs
  import opened RunOutcomes

  // ---- What the outside answers.

  /** A task in the tree of a turn: the subtask and the try taken at every level above it. */
  type Path = seq<nat>

  datatype Reading = Chat | Ask | Task

  /** A question the analysis wrote: none, only blanks, or words. */
  datatype Wording = Absent | Blanks | Worded

  /** What the analysis wrote: `listed` counts the questions of its list that have words, and the two
      assumptions are those of its own fields and of the first question of the list. */
  datatype Analysis = Analysis(
    kind: Reading, understandable: bool, question: Wording, assumption: bool, listed: nat, listedAssumption: bool)

  /** The tree as a task finds it, before its subtasks: the fingerprint of its sources, who claims and
      what its gate gives there, and the gate it declares. */
  datatype Found = Found(sources: Maybe, who: Claimant, gate: string, gateTests: int)

  /** A run of the loop: the journal it goes on from, whether the turn already held a claim for its
      background agents, and what it is told round by round. */
  datatype Work = Work(journal: seq<Loop.Note>, challenged: bool, inputs: seq<RoundInput>)

  /** What the outside answers about one task. `subs` counts the subtasks of the plan that are not
      blank; `work` is the run of a task with none, and `closing` the run that closes a goal; `cancelled`
      says the turn was cancelled by the time this try would start, and `cancelledLater` by the time its
      subtasks had ended; `worktree` and `merges` that a subtask run side by side got a worktree, and that
      its branch merged. */
  datatype Answers = Answers(
    analysis: Analysis, following: bool, applying: bool, subs: nat, sideBySide: bool,
    found: Found, criteria: nat, work: Work, closing: Work,
    cancelled: bool, cancelledLater: bool, worktree: bool, merges: bool)

  /** What the configuration says of every run of the loop. */
  datatype Limits = Limits(maxRetries: int, maxSteps: int, criteriaAudit: bool, checks: Keying)

  datatype Env = Env(
    world: Path -> Answers, depthLimit: int, retries: int, goal: bool, interactive: bool, assumeFirst: bool,
    limits: Limits)

  const DEFAULT_MAX_STEPS := 100

  // ---- A run of the loop for a task.

  /** The task, or one above it, runs side by side with others: as a background agent. */
  predicate ByAnAgent(env: Env, path: Path) {
    |path| >= 2 && var above := path[..|path| - 2]; env.world(above).sideBySide || ByAnAgent(env, above)
  }

  /** A background agent is made without the goal of the turn, so it and its own subtasks are plain tasks. */
  predicate GoalAt(env: Env, path: Path) {
    env.goal && !ByAnAgent(env, path)
  }

  function ConfigOf(env: Env, path: Path, depth: nat): (cfg: Config)
    ensures cfg.maxSteps > 0 && cfg.depth == depth && cfg.who == env.world(path).found.who
  {
    var ans := env.world(path);
    Config(env.limits.maxRetries, if env.limits.maxSteps > 0 then env.limits.maxSteps else DEFAULT_MAX_STEPS,
           depth, GoalAt(env, path), env.limits.criteriaAudit, ans.criteria, ans.found.sources, ans.found.who,
           env.limits.checks)
  }

  /** A run starts from the tree as the task found it, with nothing of the baseline measured yet; so does
      the run that closes a goal, whatever the subtasks left. */
  function StartOf(env: Env, path: Path, depth: nat, w: Work): (s: State)
    ensures Fresh(s) && s.held == Held(env.world(path).found.gate, env.world(path).found.gateTests, map[])
  {
    var ans := env.world(path);
    Start(ConfigOf(env, path, depth), w.journal, w.challenged, Held(ans.found.gate, ans.found.gateTests, map[]))
  }

  function RunFor(env: Env, path: Path, depth: nat, w: Work): Run {
    RunOn(ConfigOf(env, path, depth), StartOf(env, path, depth, w), w.inputs)
  }

  predicate Passes(env: Env, path: Path, depth: nat, w: Work) {
    var events := RunFor(env, path, depth, w).events;
    events != [] && events[|events| - 1] == Passed
  }

  // ---- Is there work here?

  datatype Turn = Replies | Asks | NotUnderstood | Works

  /** A subtask, an approved plan, applied suggestions and a goal are work by construction. */
  function WorkAsSubtask(an: Analysis): Analysis {
    an.(kind := Task, understandable := true, question := Absent, listed := 0)
  }

  predicate WorkByConstruction(env: Env, path: Path, depth: nat) {
    depth > 0 || env.world(path).following || env.world(path).applying || GoalAt(env, path)
  }

  function AskOrAssume(env: Env, an: Analysis): Turn {
    var question := an.question == Worded || an.listed > 0;
    var assumption := an.assumption || (an.listed > 0 && an.listedAssumption);
    if !question && !assumption then NotUnderstood
    else if !env.interactive && assumption then Works
    else if env.assumeFirst && assumption && an.listed < 2 then Works
    else Asks
  }

  function TurnOf(env: Env, path: Path, depth: nat): Turn {
    var written := env.world(path).analysis;
    var an := if WorkByConstruction(env, path, depth) then WorkAsSubtask(written) else written;
    if an.kind == Chat then Replies
    else if an.kind != Ask && an.understandable && an.question == Absent then Works
    else AskOrAssume(env, an)
  }

  /** The request is clear enough to act on as it is. */
  predicate IsClear(an: Analysis) {
    an.kind == Task && an.understandable && an.question == Absent
  }

  predicate HasAssumption(an: Analysis) {
    an.assumption || (an.listed > 0 && an.listedAssumption)
  }

  /** The person is asked exactly about a request that is neither talk nor clear, when there is
      something to ask or assume, and the assumption, if there is one, is not taken: someone is there to
      ask, and assuming first is off or there are several gaps. With neither it is a dead end. */
  lemma AsksWhen(env: Env, path: Path, depth: nat)
    ensures var an := env.world(path).analysis;
      var unclear := !WorkByConstruction(env, path, depth) && an.kind != Chat && !IsClear(an);
      var asking := an.question == Worded || an.listed > 0;
      && (TurnOf(env, path, depth) == Asks <==>
            && unclear && (asking || HasAssumption(an))
            && (HasAssumption(an) ==> env.interactive && (!env.assumeFirst || an.listed >= 2)))
      && (TurnOf(env, path, depth) == NotUnderstood <==> unclear && !asking && !HasAssumption(an))
      && (TurnOf(env, path, depth) == Replies <==> !WorkByConstruction(env, path, depth) && an.kind == Chat)
  {
  }

  /** What the turn holds while it decides: the analysis, and what it would ask and assume. */
  class TurnState {
    var an: Analysis
    var question: bool
    var assumption: bool

    constructor (an: Analysis)
      ensures this.an == an && !question && !assumption
    {
      this.an, question, assumption := an, false, false;
    }

    /** Whether there is work here, and if it can be read well enough; the analysis is made work for a
        turn that cannot talk, and a question answered by its assumption is dropped. */
    method AnswerOrAsk(env: Env, path: Path, depth: nat) returns (turn: Turn)
      requires an == env.world(path).analysis
      modifies this
      ensures turn == TurnOf(env, path, depth)
      ensures turn == Works ==> an.understandable && an.question == Absent
    {
      if depth > 0 || env.world(path).following || env.world(path).applying || GoalAt(env, path) {
        an := WorkAsSubtask(an);
      }
      if an.kind == Chat {
        return Replies;
      }
      if an.kind == Ask {
        an := an.(understandable := false);
      }
      if an.understandable && an.question == Absent {
        return Works;
      }
      question, assumption := an.question == Worded, an.assumption;
      if an.listed > 0 {
        question := true;
        assumption := assumption || an.listedAssumption;
      }
      if !question && !assumption {
        return NotUnderstood;
      }
      if (!env.interactive && assumption) || (env.assumeFirst && assumption && an.listed < 2) {
        an := an.(understandable := true, question := Absent);
        return Works;
      }
      turn := Asks;
    }
  }

  // ---- What became of a task.

  datatype Outcome =
    | Replied | Asked | DeadEnd
    | Ran
    | Split(passed: nat, failed: nat, skipped: nat, cancelled: bool)
    | Aside(merged: seq<nat>)
    | Closed

  /** `runs` counts the tasks processed for it, itself included. */
  datatype Result = Result(outcome: Outcome, pass: bool, runs: nat)

  function Retries(env: Env): nat {
    if env.retries < 0 then 0 else env.retries
  }

  function Left(env: Env, depth: nat): nat {
    if env.depthLimit > depth then env.depthLimit - depth else 0
  }

  function TaskOf(env: Env, path: Path, depth: nat): Result
    decreases Left(env, depth), 4, 0
  {
    var ans := env.world(path);
    match TurnOf(env, path, depth)
    case Replies => Result(Replied, true, 1)
    case Asks => Result(Asked, false, 1)
    case NotUnderstood => Result(DeadEnd, false, 1)
    case Works =>
      if ans.subs == 0 || depth >= env.depthLimit then Result(Ran, Passes(env, path, depth, ans.work), 1)
      else CloseGoal(env, path, depth, SubtasksOf(env, path, depth))
  }

  function SubtasksOf(env: Env, path: Path, depth: nat): Result
    requires depth < env.depthLimit
    decreases Left(env, depth), 3, 0
  {
    var ans := env.world(path);
    if ans.sideBySide then AsideOf(env, path, depth, ans.subs) else SplitFrom(env, path, depth, 0)
  }

  /** A goal is checked whole after its subtasks. */
  function CloseGoal(env: Env, path: Path, depth: nat, sub: Result): Result {
    var ans := env.world(path);
    if depth > 0 || !GoalAt(env, path) || ans.cancelledLater then sub.(runs := sub.runs + 1)
    else Result(Closed, Passes(env, path, depth, ans.closing), sub.runs + 1)
  }

  /** The subtasks from the i-th on, one after another: the first that does not pass stops the rest. */
  function SplitFrom(env: Env, path: Path, depth: nat, i: nat): Result
    requires depth < env.depthLimit
    decreases Left(env, depth), 2, env.world(path).subs - i
  {
    var subs := env.world(path).subs;
    if i >= subs then Result(Split(subs, 0, 0, false), true, 0)
    else if env.world(path + [i, 0]).cancelled then Result(Split(i, 0, subs - i, true), false, 0)
    else
      var r := TriesFrom(env, path, depth, i, 0);
      if !r.pass then Result(Split(i, 1, subs - i - 1, false), false, r.runs)
      else
        var rest := SplitFrom(env, path, depth, i + 1);
        rest.(runs := rest.runs + r.runs)
  }

  /** A subtask from its n-th try on. */
  function TriesFrom(env: Env, path: Path, depth: nat, i: nat, n: nat): Result
    requires depth < env.depthLimit
    decreases Left(env, depth), 1, env.retries - n
  {
    var r := TaskOf(env, path + [i, n], depth + 1);
    if r.pass || n + 1 > env.retries || env.world(path + [i, n + 1]).cancelled then r
    else
      var later := TriesFrom(env, path, depth, i, n + 1);
      later.(runs := later.runs + r.runs)
  }

  /** One subtask in a worktree of its own. */
  function AsideTask(env: Env, path: Path, depth: nat, i: nat): Result
    requires depth < env.depthLimit
    decreases Left(env, depth), 1, 0
  {
    if env.world(path + [i, 0]).worktree then TaskOf(env, path + [i, 0], depth + 1)
    else Result(DeadEnd, false, 0)
  }

  /** The first n subtasks, side by side: their branches merge in the order of the plan. */
  function AsideOf(env: Env, path: Path, depth: nat, n: nat): (r: Result)
    requires depth < env.depthLimit
    ensures r.outcome.Aside?
    decreases Left(env, depth), 2, n
  {
    if n == 0 then Result(Aside([]), true, 0)
    else
      var before, r := AsideOf(env, path, depth, n - 1), AsideTask(env, path, depth, n - 1);
      var landed := r.pass && env.world(path + [n - 1, 0]).merges;
      Result(Aside(if landed then before.outcome.merged + [n - 1] else before.outcome.merged),
             before.pass && landed, before.runs + r.runs)
  }

  // ---- The code.

  method ProcessTask(env: Env, path: Path, depth: nat) returns (r: Result)
    ensures r == TaskOf(env, path, depth)
    decreases Left(env, depth), 4, 0
  {
    hide SplitFrom, AsideOf, Passes;
    var ans := env.world(path);
    var state := new TurnState(ans.analysis);
    var turn := state.AnswerOrAsk(env, path, depth);
    if turn == Replies {
      return Result(Replied, true, 1);
    }
    if turn == Asks {
      return Result(Asked, false, 1);
    }
    if turn == NotUnderstood {
      return Result(DeadEnd, false, 1);
    }
    if ans.subs > 0 && depth < env.depthLimit {
      var sub: Result;
      if ans.sideBySide {
        sub := RunSubtasksParallel(env, path, depth);
      } else {
        sub := RunSubtasks(env, path, depth);
      }
      return CloseGoal(env, path, depth, sub);
    }
    r := Result(Ran, Passes(env, path, depth, ans.work), 1);
  }

  method RunSubtasks(env: Env, path: Path, depth: nat) returns (r: Result)
    requires depth < env.depthLimit
    ensures r == SplitFrom(env, path, depth, 0)
    decreases Left(env, depth), 3, 0
  {
    hide TaskOf, TriesFrom;
    var subs := env.world(path).subs;
    var runs: nat := 0;
    for i := 0 to subs
      invariant var rest := SplitFrom(env, path, depth, i);
        SplitFrom(env, path, depth, 0) == rest.(runs := rest.runs + runs)
    {
      if env.world(path + [i, 0]).cancelled {
        return Result(Split(i, 0, subs - i, true), false, runs);
      }
      var one := ProcessTask(env, path + [i, 0], depth + 1);
      var sub := RetrySubtask(env, path, depth, i, one);
      if !sub.pass {
        return Result(Split(i, 1, subs - i - 1, false), false, sub.runs + runs);
      }
      runs := runs + sub.runs;
    }
    r := Result(Split(subs, 0, 0, false), true, runs);
  }

  method RetrySubtask(env: Env, path: Path, depth: nat, i: nat, first: Result) returns (last: Result)
    requires depth < env.depthLimit && first == TaskOf(env, path + [i, 0], depth + 1)
    ensures last == TriesFrom(env, path, depth, i, 0)
    decreases Left(env, depth), 2, 0
  {
    hide TaskOf;
    last := first;
    var n: nat, runs: nat := 1, 0;
    while !last.pass && n <= env.retries && !env.world(path + [i, n]).cancelled
      invariant n >= 1
      invariant last == TaskOf(env, path + [i, n - 1], depth + 1)
      invariant var rest := TriesFrom(env, path, depth, i, n - 1);
        TriesFrom(env, path, depth, i, 0) == rest.(runs := rest.runs + runs)
      decreases env.retries - n
    {
      runs := runs + last.runs;
      last := ProcessTask(env, path + [i, n], depth + 1);
      n := n + 1;
    }
    last := last.(runs := last.runs + runs);
  }

  /** The numbers below n. */
  function Numbers(n: nat): (r: set<nat>)
    ensures forall i :: i in r <==> 0 <= i < n
  {
    if n == 0 then {} else Numbers(n - 1) + {n - 1}
  }

  method RunSubtasksParallel(env: Env, path: Path, depth: nat) returns (r: Result)
    requires depth < env.depthLimit
    ensures r == AsideOf(env, path, depth, env.world(path).subs)
    decreases Left(env, depth), 3, 0
  {
    hide TaskOf;
    var subs := env.world(path).subs;
    var results := new Result[subs](_ => Result(DeadEnd, false, 0));
    // They end in any order.
    var running := Numbers(subs);
    while running != {}
      invariant forall j :: 0 <= j < subs && j !in running ==> results[j] == AsideTask(env, path, depth, j)
      invariant forall j :: j in running ==> 0 <= j < subs && results[j] == Result(DeadEnd, false, 0)
      decreases running
    {
      var i :| i in running;
      if env.world(path + [i, 0]).worktree {
        results[i] := ProcessTask(env, path + [i, 0], depth + 1);
      }
      running := running - {i};
    }
    var merged: seq<nat>, pass, runs: nat := [], true, 0;
    for i := 0 to subs
      invariant Result(Aside(merged), pass, runs) == AsideOf(env, path, depth, i)
    {
      runs := runs + results[i].runs;
      if results[i].pass && env.world(path + [i, 0]).merges {
        merged := merged + [i];
      } else {
        pass := false;
      }
    }
    r := Result(Aside(merged), pass, runs);
  }

  // ---- A subtask never talks to the person.

  lemma SubtasksWork(env: Env, path: Path, depth: nat)
    requires WorkByConstruction(env, path, depth)
    ensures var r := TaskOf(env, path, depth); !r.outcome.Replied? && !r.outcome.Asked? && !r.outcome.DeadEnd?
  {
    if env.world(path).subs > 0 && depth < env.depthLimit {
      SubtasksOutcome(env, path, depth, 0);
    }
    hide SplitFrom, AsideOf;
  }

  lemma {:induction false} SubtasksOutcome(env: Env, path: Path, depth: nat, i: nat)
    requires depth < env.depthLimit
    ensures SplitFrom(env, path, depth, i).outcome.Split?
    decreases env.world(path).subs - i
  {
    hide TriesFrom;
    if i < env.world(path).subs {
      SubtasksOutcome(env, path, depth, i + 1);
    }
  }

  // ---- When the subtasks pass.

  /** Try n of a subtask is reached: no earlier one passed, and nobody cancelled before it. */
  predicate TryReached(env: Env, path: Path, depth: nat, i: nat, n: nat) {
    && n <= Retries(env)
    && forall m :: 0 <= m < n ==> TryFails(env, path, depth, i, m)
  }

  /** Try m does not pass, and nobody cancels before the next. */
  predicate TryFails(env: Env, path: Path, depth: nat, i: nat, m: nat) {
    !TaskOf(env, path + [i, m], depth + 1).pass && !env.world(path + [i, m + 1]).cancelled
  }

  predicate TryPasses(env: Env, path: Path, depth: nat, i: nat, m: nat) {
    TryReached(env, path, depth, i, m) && TaskOf(env, path + [i, m], depth + 1).pass
  }

  /** A subtask passes exactly when one of the tries it is given does. */
  lemma {:induction false} SubtaskPasses(env: Env, path: Path, depth: nat, i: nat, n: nat)
    requires depth < env.depthLimit && TryReached(env, path, depth, i, n)
    ensures TriesFrom(env, path, depth, i, n).pass <==> exists m :: m >= n && TryPasses(env, path, depth, i, m)
    decreases env.retries - n
  {
    hide TaskOf;
    var r := TaskOf(env, path + [i, n], depth + 1);
    if r.pass {
      assert TryPasses(env, path, depth, i, n);
    } else if n + 1 > env.retries || env.world(path + [i, n + 1]).cancelled {
      forall m | m > n ensures !TryReached(env, path, depth, i, m) {
        assert n + 1 <= env.retries ==> !TryFails(env, path, depth, i, n);
      }
    } else {
      SubtaskPasses(env, path, depth, i, n + 1);
    }
  }

  /** Subtask i starts and passes. */
  predicate SubtaskDone(env: Env, path: Path, depth: nat, i: nat)
    requires depth < env.depthLimit
  {
    !env.world(path + [i, 0]).cancelled && TriesFrom(env, path, depth, i, 0).pass
  }

  /** One after another, the parent passes exactly when every subtask did. Otherwise it stops at the
      first that did not: those before it passed and those after it were not started, so passed, the
      failed one and skipped make the whole list, unless the turn was cancelled first. */
  lemma {:induction false} SequentialVerdict(env: Env, path: Path, depth: nat, i: nat)
    requires depth < env.depthLimit && i <= env.world(path).subs
    ensures var r, subs := SplitFrom(env, path, depth, i), env.world(path).subs;
      && (r.pass <==> forall j :: i <= j < subs ==> SubtaskDone(env, path, depth, j))
      && r.outcome.Split?
      && r.outcome.passed + r.outcome.failed + r.outcome.skipped == subs
      && (r.pass ==> r.outcome == Split(subs, 0, 0, false))
      && (!r.pass ==> var k := r.outcome.passed;
          && i <= k < subs && !SubtaskDone(env, path, depth, k)
          && (forall j :: i <= j < k ==> SubtaskDone(env, path, depth, j))
          && r.outcome.cancelled == env.world(path + [k, 0]).cancelled
          && (!r.outcome.cancelled ==> r.outcome.failed == 1))
    decreases env.world(path).subs - i
  {
    hide TriesFrom;
    if i < env.world(path).subs && SubtaskDone(env, path, depth, i) {
      SequentialVerdict(env, path, depth, i + 1);
    }
  }

  predicate Landed(env: Env, path: Path, depth: nat, i: nat)
    requires depth < env.depthLimit
  {
    AsideTask(env, path, depth, i).pass && env.world(path + [i, 0]).merges
  }

  /** Side by side, the parent passes exactly when every subtask passed and merged; whatever the
      others did, those that did are merged, in the order of the plan. */
  lemma {:induction false} ParallelVerdict(env: Env, path: Path, depth: nat, n: nat)
    requires depth < env.depthLimit
    ensures var r := AsideOf(env, path, depth, n);
      var merged := r.outcome.merged;
      && (r.pass <==> forall i :: 0 <= i < n ==> Landed(env, path, depth, i))
      && (forall i :: i in merged <==> 0 <= i < n && Landed(env, path, depth, i))
      && (forall a, b :: 0 <= a < b < |merged| ==> merged[a] < merged[b])
  {
    if n > 0 {
      ParallelVerdict(env, path, depth, n - 1);
      hide AsideTask, AsideOf, Landed;
      var merged := AsideOf(env, path, depth, n - 1).outcome.merged;
      assert var before, r := AsideOf(env, path, depth, n - 1), AsideOf(env, path, depth, n);
        var landed := Landed(env, path, depth, n - 1);
        && (r.pass <==> before.pass && landed)
        && r.outcome.merged == before.outcome.merged + if landed then [n - 1] else [] by {
        hide AsideTask;
      }
      forall a | 0 <= a < |merged| ensures merged[a] < n - 1 {
        assert merged[a] in merged;
      }
    }
  }

  // ---- What a PASS is backed by.

  /** The last round of a run was a claim with nothing left to hold it. Its checks hold, and its gate is the
      one the task is held to or one the person approved: that of the tree as the task found it, or one
      approved in an earlier claim. No command of the round failed to run, and the final action worked. */
  ghost predicate EndsSoundly(env: Env, path: Path, depth: nat, w: Work) {
    var cfg, start := ConfigOf(env, path, depth), StartOf(env, path, depth, w);
    var k := |RunFor(env, path, depth, w).events| - 1;
    && 0 <= k < |w.inputs|
    && var before, ins := RunOn(cfg, start, w.inputs[..k]), w.inputs[k];
    && ClaimOfDone(cfg, before.s, ins)
    && Verified(cfg, ins.claim)
    && (TakenAsItIs(cfg, ins.claim) || GateHeld(before.s.held, ins.claim))
    && HeldSoundly(cfg, start, w.inputs[..k], before)
    && !ins.runErr && ins.finalWorks
  }

  lemma PassesSoundly(env: Env, path: Path, depth: nat, w: Work)
    requires Passes(env, path, depth, w)
    ensures EndsSoundly(env, path, depth, w)
  {
    var cfg, start := ConfigOf(env, path, depth), StartOf(env, path, depth, w);
    assert PartOf(start.held.known, WholeGate(cfg.who.startGate)) by {
      hide WholeGate;
    }
    hide *;
    PassIsSound(cfg, start, w.inputs);
  }

  /** Work that was validated, all the way down: a run of the loop that ended soundly, against the tree and
      the gate its own task found, or subtasks that are each backed by one of their tries. */
  ghost predicate Backed(env: Env, path: Path, depth: nat)
    decreases Left(env, depth), 1, 0
  {
    var ans := env.world(path);
    if ans.subs == 0 || depth >= env.depthLimit then EndsSoundly(env, path, depth, ans.work)
    else if depth == 0 && GoalAt(env, path) && !ans.cancelledLater then EndsSoundly(env, path, depth, ans.closing)
    else forall i :: 0 <= i < ans.subs ==> SubtaskBacked(env, path, depth, i, Retries(env))
  }

  ghost predicate SubtaskBacked(env: Env, path: Path, depth: nat, i: nat, n: nat)
    requires depth < env.depthLimit
    decreases Left(env, depth), 0, n
  {
    Backed(env, path + [i, n], depth + 1) || (n > 0 && SubtaskBacked(env, path, depth, i, n - 1))
  }

  lemma {:induction false} BackedByATry(env: Env, path: Path, depth: nat, i: nat, m: nat, n: nat)
    requires depth < env.depthLimit && m <= n && Backed(env, path + [i, m], depth + 1)
    ensures SubtaskBacked(env, path, depth, i, n)
    decreases n
  {
    hide Backed;
    if m < n {
      BackedByATry(env, path, depth, i, m, n - 1);
    }
  }

  /** A task passes as chat, at the top of a turn that is not work by construction, or its PASS goes down to
      runs of the loop that ended in a sound claim. A goal that was not cancelled passes only by its own
      closing run, held to the tree and the gate the turn started with. */
  lemma {:induction false} PassIsBacked(env: Env, path: Path, depth: nat)
    requires TaskOf(env, path, depth).pass
    ensures Backed(env, path, depth) ||
      (TaskOf(env, path, depth).outcome == Replied && !WorkByConstruction(env, path, depth))
    decreases Left(env, depth), 1
  {
    var ans := env.world(path);
    if WorkByConstruction(env, path, depth) {
      SubtasksWork(env, path, depth);
    }
    var closed := depth == 0 && GoalAt(env, path) && !ans.cancelledLater;
    RunsEndSoundly(env, path, depth);
    hide EndsSoundly, Passes;
    if TurnOf(env, path, depth) == Works && ans.subs > 0 && depth < env.depthLimit && !closed {
      if ans.sideBySide {
        ParallelVerdict(env, path, depth, ans.subs);
      } else {
        SequentialVerdict(env, path, depth, 0);
      }
      var tries := Retries(env);
      forall i | 0 <= i < ans.subs ensures SubtaskBacked(env, path, depth, i, tries) {
        SubtaskIsBacked(env, path, depth, i);
      }
    }
  }

  lemma RunsEndSoundly(env: Env, path: Path, depth: nat)
    ensures var ans := env.world(path);
      && (Passes(env, path, depth, ans.work) ==> EndsSoundly(env, path, depth, ans.work))
      && (Passes(env, path, depth, ans.closing) ==> EndsSoundly(env, path, depth, ans.closing))
  {
    var ans := env.world(path);
    hide Passes, EndsSoundly;
    if Passes(env, path, depth, ans.work) {
      PassesSoundly(env, path, depth, ans.work);
    }
    if Passes(env, path, depth, ans.closing) {
      PassesSoundly(env, path, depth, ans.closing);
    }
  }

  lemma {:induction false} SubtaskIsBacked(env: Env, path: Path, depth: nat, i: nat)
    requires depth < env.depthLimit && i < env.world(path).subs
    requires if env.world(path).sideBySide then Landed(env, path, depth, i) else SubtaskDone(env, path, depth, i)
    ensures SubtaskBacked(env, path, depth, i, Retries(env))
    decreases Left(env, depth), 0
  {
    var tries := Retries(env);
    var m := 0;
    if !env.world(path).sideBySide {
      SubtaskPasses(env, path, depth, i, 0);
      m :| m >= 0 && TryPasses(env, path, depth, i, m);
    }
    PassIsBacked(env, path + [i, m], depth + 1);
    BackedByATry(env, path, depth, i, m, tries);
  }

  // ---- How many tasks a turn runs.

  function Pow(b: nat, k: nat): nat {
    if k == 0 then 1 else b * Pow(b, k - 1)
  }

  function PowerSum(b: nat, k: nat): nat {
    if k == 0 then 1 else PowerSum(b, k - 1) + Pow(b, k)
  }

  /** One task, and b trees of tasks one level less deep. */
  lemma {:induction false} OneLevelMore(b: nat, k: nat)
    ensures 1 + b * PowerSum(b, k) == PowerSum(b, k + 1)
  {
    assert Pow(b, k + 1) == b * Pow(b, k);
    if k > 0 {
      OneLevelMore(b, k - 1);
      assert b * (PowerSum(b, k - 1) + Pow(b, k)) == b * PowerSum(b, k - 1) + b * Pow(b, k);
    }
  }

  ghost predicate AtMostSubtasks(env: Env, most: nat) {
    forall path :: env.world(path).subs <= most
  }

  ghost predicate EachAtMost(env: Env, depth: nat, each: nat) {
    forall path :: TaskOf(env, path, depth).runs <= each
  }

  lemma {:induction false} TriesBounded(env: Env, path: Path, depth: nat, i: nat, n: nat, each: nat)
    requires depth < env.depthLimit && n <= Retries(env)
    requires EachAtMost(env, depth + 1, each)
    ensures TriesFrom(env, path, depth, i, n).runs <= (Retries(env) - n + 1) * each
    decreases env.retries - n
  {
    hide TaskOf;
    var left := Retries(env) - n;
    assert TaskOf(env, path + [i, n], depth + 1).runs <= each;
    assert (left + 1) * each == left * each + each;
    if n + 1 <= env.retries {
      TriesBounded(env, path, depth, i, n + 1, each);
    } else {
      assert left * each >= 0;
    }
  }

  lemma {:induction false} SplitBounded(env: Env, path: Path, depth: nat, i: nat, each: nat)
    requires depth < env.depthLimit && i <= env.world(path).subs
    requires forall j :: TriesFrom(env, path, depth, j, 0).runs <= each
    ensures SplitFrom(env, path, depth, i).runs <= (env.world(path).subs - i) * each
    decreases env.world(path).subs - i
  {
    hide TriesFrom;
    var left := env.world(path).subs - i;
    if left > 0 {
      assert TriesFrom(env, path, depth, i, 0).runs <= each;
      SplitBounded(env, path, depth, i + 1, each);
      assert left * each == (left - 1) * each + each;
      assert (left - 1) * each >= 0;
    }
  }

  lemma {:induction false} AsideBounded(env: Env, path: Path, depth: nat, n: nat, each: nat)
    requires depth < env.depthLimit
    requires EachAtMost(env, depth + 1, each)
    ensures AsideOf(env, path, depth, n).runs <= n * each
  {
    hide TaskOf;
    if n > 0 {
      AsideBounded(env, path, depth, n - 1, each);
      assert AsideTask(env, path, depth, n - 1).runs <= each;
      assert n * each == (n - 1) * each + each;
    }
  }

  lemma Products(a: nat, b: nat, c: nat, d: nat)
    requires a <= b && c <= d
    ensures a * c <= b * d
  {
    assert a * c <= a * d;
    assert a * d <= b * d;
  }

  /** With at most `most` subtasks to a plan, a task with k levels left below it runs at most the sum of
      the powers of most * (1 + retries) up to k. */
  lemma {:induction false} TasksRunBounded(env: Env, path: Path, depth: nat, most: nat)
    requires AtMostSubtasks(env, most)
    ensures TaskOf(env, path, depth).runs <= PowerSum(most * (1 + Retries(env)), Left(env, depth))
    decreases Left(env, depth)
  {
    var b, subs := most * (1 + Retries(env)), env.world(path).subs;
    if TurnOf(env, path, depth) == Works && subs > 0 && depth < env.depthLimit {
      var k := Left(env, depth + 1);
      var each := PowerSum(b, k);
      var below := depth + 1;
      forall p ensures TaskOf(env, p, below).runs <= each {
        TasksRunBounded(env, p, below, most);
      }
      SubtasksBounded(env, path, depth, most, each);
      OneLevelMore(b, k);
      hide TaskOf;
      assert TaskOf(env, path, depth).runs == SubtasksOf(env, path, depth).runs + 1 by {
      }
    } else {
      AtLeastOne(b, Left(env, depth));
    }
  }

  lemma {:induction false} AtLeastOne(b: nat, k: nat)
    ensures PowerSum(b, k) >= 1
  {
    if k > 0 {
      AtLeastOne(b, k - 1);
    }
  }

  lemma SubtasksBounded(env: Env, path: Path, depth: nat, most: nat, each: nat)
    requires AtMostSubtasks(env, most) && depth < env.depthLimit
    requires EachAtMost(env, depth + 1, each)
    ensures SubtasksOf(env, path, depth).runs <= most * (1 + Retries(env)) * each
  {
    var subs, tries := env.world(path).subs, 1 + Retries(env);
    var sub := tries * each;
    Products(1, tries, each, each);
    assert most * tries * each == most * (tries * each);
    if env.world(path).sideBySide {
      AsideBounded(env, path, depth, subs, each);
      Products(subs, most, each, sub);
    } else {
      forall j ensures TriesFrom(env, path, depth, j, 0).runs <= sub {
        TriesBounded(env, path, depth, j, 0, each);
      }
      SplitBounded(env, path, depth, 0, sub);
      Products(subs, most, sub, sub);
    }
    hide TaskOf, TriesFrom, SplitFrom, AsideOf, EachAtMost;
  }
}
