/** internal/agent/loop.go and round.go: the commands the executor runs are those the loop weighs its
    claims with. */
module Executions {
  import opened WorkMemory
  import opened Ledger
  import opened RunMemory
  import opened Rounds
  import opened Batches
  import opened Recalls
  import Loop
  import RunOutcomes

  // ---- What a round ran.

  function ExecutionOf(env: Env, command: string, r: Ran): (e: Execution)
    ensures e.round == env.round && e.command == command
  {
    Execution(command, env.round, r.exit, r.couldNotRun, r.output, env.reportsFailure(r.output))
  }

  /** The policy lets a line run, or the person does. */
  predicate LetRun(env: Env, i: nat, command: string) {
    && env.fake(command) == ""
    && match env.verdict(command)
       case Deny(_) => false
       case Allow => true
       case AskFirst => env.approval(i, command).Approved?
  }

  predicate AnsweredFromMemory(env: Env, mem: Mem, command: string) {
    env.isRead(command) && AnswerTo(mem.memory, command).Recalled?
  }

  /** The commands an action runs: one at most. */
  function ActionRan(env: Env, s: Progress, i: nat, action: Action): seq<Execution> {
    if action.Another? || Blank(action.command) || AnsweredFromMemory(env, s.mem, action.command)
       || !LetRun(env, i, action.command) then []
    else [ExecutionOf(env, action.command, Hinted(env, action.command, env.exec(s.tree, action.command)))]
  }

  function BatchRan(env: Env, s: Progress, batch: seq<string>, n: nat): seq<Execution>
    requires n <= |batch|
  {
    if n == 0 then []
    else BatchRan(env, s, batch, n - 1) + [ExecutionOf(env, batch[n - 1], env.exec(s.tree, batch[n - 1]))]
  }

  /** The commands the actions from i on run, in order. */
  function RoundRan(env: Env, s: Progress, actions: seq<Action>, i: nat): seq<Execution>
    requires i <= |actions|
    decreases |actions| - i
  {
    if i == |actions| then []
    else
      var n := BatchFrom(env, s.mem, actions, i, 0);
      if n > 1 then
        var lines := LinesOf(actions, i, n);
        BatchRan(env, s, lines, n) + RoundRan(env, BatchRecorded(env, s, i, lines, n), actions, i + n)
      else ActionRan(env, s, i, actions[i]) + RoundRan(env, RunOne(env, s, i, actions[i]), actions, i + 1)
  }

  // ---- The ledger is theirs.

  /** after holds what before holds and then these commands. */
  predicate Notes(env: Env, before: Mem, ran: seq<Execution>, after: Mem) {
    after.verif == Loop.NotedAll(before.verif, ran, env.round, env.checks)
  }

  lemma {:induction false} NotedAllAppend(verif: Checks, a: seq<Execution>, b: seq<Execution>, round: nat,
                                          checks: Keying)
    ensures Loop.NotedAll(verif, a + b, round, checks)
         == Loop.NotedAll(Loop.NotedAll(verif, a, round, checks), b, round, checks)
  {
    hide Noted;
    if b == [] {
      assert a + b == a;
    } else {
      NotedAllAppend(verif, a, b[..|b| - 1], round, checks);
      assert (a + b)[..|a + b| - 1] == a + b[..|b| - 1];
    }
  }

  lemma NotesOn(env: Env, a: Mem, x: seq<Execution>, b: Mem, y: seq<Execution>, c: Mem)
    requires Notes(env, a, x, b) && Notes(env, b, y, c)
    ensures Notes(env, a, x + y, c)
  {
    hide Loop.NotedAll;
    NotedAllAppend(a.verif, x, y, env.round, env.checks);
  }

  lemma NotesNothing(env: Env, a: Mem, b: Mem)
    requires a.verif == b.verif
    ensures Notes(env, a, [], b)
  {
  }

  lemma RecordedNotes(env: Env, s: Progress, i: nat, command: string, r: Ran, tree: nat)
    ensures Notes(env, s.mem, [ExecutionOf(env, command, r)], Recorded(env, s, i, command, r, tree).mem)
  {
    hide Noted, WorkMemory.Remembered, Printed;
    var e := ExecutionOf(env, command, r);
    assert [e][..0] == [];
    assert Loop.NotedAll(s.mem.verif, [e], env.round, env.checks) == Noted(s.mem.verif, e.(round := env.round), env.checks);
    assert e.(round := env.round) == e;
  }

  lemma ActionNotes(env: Env, s: Progress, i: nat, action: Action)
    ensures Notes(env, s.mem, ActionRan(env, s, i, action), RunOne(env, s, i, action).mem)
  {
    hide Notes, Blank, AnswerTo, Recorded;
    if ActionRan(env, s, i, action) == [] {
      NotesNothing(env, s.mem, RunOne(env, s, i, action).mem);
    } else {
      var command := action.command;
      RecordedNotes(env, s, i, command, Hinted(env, command, env.exec(s.tree, command)), TreeAfter(env, s.tree, command));
    }
  }

  lemma {:induction false} BatchNotes(env: Env, s: Progress, first: nat, batch: seq<string>, n: nat)
    requires n <= |batch|
    ensures Notes(env, s.mem, BatchRan(env, s, batch, n), BatchRecorded(env, s, first, batch, n).mem)
  {
    hide Notes, Recorded;
    if n == 0 {
      NotesNothing(env, s.mem, s.mem);
    } else {
      var before, r := BatchRecorded(env, s, first, batch, n - 1), env.exec(s.tree, batch[n - 1]);
      BatchNotes(env, s, first, batch, n - 1);
      RecordedNotes(env, before, first + n - 1, batch[n - 1], r, s.tree);
      NotesOn(env, s.mem, BatchRan(env, s, batch, n - 1), before.mem, [ExecutionOf(env, batch[n - 1], r)],
        BatchRecorded(env, s, first, batch, n).mem);
    }
  }

  /** After a round the ledger is what it was and then the commands of the round, in the order they were
      recorded. */
  lemma {:induction false} RoundNotes(env: Env, s: Progress, actions: seq<Action>, i: nat)
    requires i <= |actions|
    ensures Notes(env, s.mem, RoundRan(env, s, actions, i), RoundFrom(env, s, actions, i).mem)
    decreases |actions| - i
  {
    hide Notes, RunOne, BatchFrom, BatchRecorded, LinesOf, ActionRan, BatchRan;
    if i == |actions| {
      NotesNothing(env, s.mem, s.mem);
    } else {
      var n := BatchFrom(env, s.mem, actions, i, 0);
      if n > 1 {
        var lines := LinesOf(actions, i, n);
        var next := BatchRecorded(env, s, i, lines, n);
        BatchNotes(env, s, i, lines, n);
        RoundNotes(env, next, actions, i + n);
        NotesOn(env, s.mem, BatchRan(env, s, lines, n), next.mem, RoundRan(env, next, actions, i + n),
          RoundFrom(env, s, actions, i).mem);
      } else {
        var next := RunOne(env, s, i, actions[i]);
        ActionNotes(env, s, i, actions[i]);
        RoundNotes(env, next, actions, i + 1);
        NotesOn(env, s.mem, ActionRan(env, s, i, actions[i]), next.mem, RoundRan(env, next, actions, i + 1),
          RoundFrom(env, s, actions, i).mem);
      }
    }
  }

  // ---- The loop is told of them.

  /** What round k ran, after the rounds before it. */
  function RanIn(mem: Mem, rounds: seq<RoundOf>, k: nat): seq<Execution>
    requires k < |rounds|
  {
    RoundRan(rounds[k].env, Opening(rounds[k], MemAfter(mem, rounds[..k])), rounds[k].actions, 0)
  }

  /** What the first n rounds ran. */
  function RanBy(mem: Mem, rounds: seq<RoundOf>, n: nat): seq<Execution>
    requires n <= |rounds|
  {
    if n == 0 then [] else RanBy(mem, rounds, n - 1) + RanIn(mem, rounds, n - 1)
  }

  /** The loop hears, in each round that runs commands, of those its executor ran; the other rounds have
      no action to run. */
  ghost predicate Hears(mem: Mem, rounds: seq<RoundOf>, inputs: seq<Loop.RoundInput>, events: seq<Loop.Event>,
                        checks: Keying)
    requires |events| <= |rounds| && |events| <= |inputs|
  {
    forall k :: 0 <= k < |events| ==> HearsRound(mem, rounds, inputs, events, checks, k)
  }

  ghost predicate HearsRound(mem: Mem, rounds: seq<RoundOf>, inputs: seq<Loop.RoundInput>,
                             events: seq<Loop.Event>, checks: Keying, k: nat)
    requires k < |events| <= |rounds| && |events| <= |inputs|
  {
    && rounds[k].env.checks == checks && rounds[k].env.round == k + 1
    && if RunOutcomes.Ran(events[k]) then inputs[k].executions == RanIn(mem, rounds, k) else rounds[k].actions == []
  }

  predicate OfRound(ran: seq<Execution>, round: nat) {
    forall j :: 0 <= j < |ran| ==> ran[j].round == round
  }

  lemma {:induction false} BatchIsOfItsRound(env: Env, s: Progress, batch: seq<string>, n: nat)
    requires n <= |batch|
    ensures OfRound(BatchRan(env, s, batch, n), env.round)
  {
    if n > 0 {
      BatchIsOfItsRound(env, s, batch, n - 1);
    }
  }

  lemma {:induction false} RanInItsRound(env: Env, s: Progress, actions: seq<Action>, i: nat)
    requires i <= |actions|
    ensures OfRound(RoundRan(env, s, actions, i), env.round)
    decreases |actions| - i
  {
    hide RunOne, BatchFrom, BatchRecorded, LinesOf, BatchRan, LetRun, AnsweredFromMemory, Blank, Hinted;
    if i < |actions| {
      var n := BatchFrom(env, s.mem, actions, i, 0);
      if n > 1 {
        var lines := LinesOf(actions, i, n);
        BatchIsOfItsRound(env, s, lines, n);
        RanInItsRound(env, BatchRecorded(env, s, i, lines, n), actions, i + n);
      } else {
        RanInItsRound(env, RunOne(env, s, i, actions[i]), actions, i + 1);
      }
    }
  }

  lemma {:induction false} StampedAlready(ran: seq<Execution>, round: nat)
    requires OfRound(ran, round)
    ensures RunOutcomes.Stamped(ran, round) == ran
  {
    if ran != [] {
      var init, e := ran[..|ran| - 1], ran[|ran| - 1];
      assert e.round == round;
      StampedAlready(init, round);
      assert ran == init + [e];
    }
  }

  /** What the loop weighs its claims with is what the executor ran, round by round. */
  lemma {:induction false} LoopHearsTheExecutor(mem: Mem, rounds: seq<RoundOf>, inputs: seq<Loop.RoundInput>,
                                                events: seq<Loop.Event>, checks: Keying, n: nat)
    requires n <= |events| <= |rounds| && |events| <= |inputs| && Hears(mem, rounds, inputs, events, checks)
    ensures RunOutcomes.Executed(inputs, events, n) == RanBy(mem, rounds, n)
  {
    hide RoundRan, Opening, MemAfter, RunOutcomes.Ran, RunOutcomes.Stamped;
    if n > 0 {
      var k := n - 1;
      LoopHearsTheExecutor(mem, rounds, inputs, events, checks, k);
      assert HearsRound(mem, rounds, inputs, events, checks, k);
      var start := Opening(rounds[k], MemAfter(mem, rounds[..k]));
      if RunOutcomes.Ran(events[k]) {
        RanInItsRound(rounds[k].env, start, rounds[k].actions, 0);
        StampedAlready(RanIn(mem, rounds, k), k + 1);
      } else {
        NothingRan(rounds[k].env, start);
      }
    }
  }

  lemma NothingRan(env: Env, s: Progress)
    ensures RoundRan(env, s, [], 0) == []
  {
  }

  lemma {:induction false} MemoryNotes(mem: Mem, rounds: seq<RoundOf>, n: nat, checks: Keying)
    requires n <= |rounds| && mem.verif == map[]
    requires forall k :: 0 <= k < n ==> rounds[k].env.checks == checks && rounds[k].env.round == k + 1
    ensures MemAfter(mem, rounds[..n]).verif == After(RanBy(mem, rounds, n), checks)
  {
    hide RoundRan, RoundFrom, After, Loop.NotedAll, RunOutcomes.Stamped;
    if n == 0 {
      NoneNoted(checks);
    } else {
      var k := n - 1;
      MemoryNotes(mem, rounds, k, checks);
      var r, before := rounds[k], MemAfter(mem, rounds[..k]);
      assert rounds[..n][..k] == rounds[..k] && rounds[..n][k] == r;
      RoundNotes(r.env, Opening(r, before), r.actions, 0);
      RanInItsRound(r.env, Opening(r, before), r.actions, 0);
      RunOutcomes.NotingIsAfter(RanBy(mem, rounds, k), RanIn(mem, rounds, k), n, checks);
      StampedAlready(RanIn(mem, rounds, k), n);
    }
  }

  lemma NoneNoted(checks: Keying)
    ensures After([], checks) == map[]
  {
  }

  /** A claim reaches the anchor only when, of the commands the executor really ran, none leaves a check
      failing, or after four claims were sent back over one; and the ledger the loop and the executor hold
      is one. */
  lemma ClaimsOfTheExecutor(cfg: Loop.Config, start: Loop.State, inputs: seq<Loop.RoundInput>, mem: Mem,
                            rounds: seq<RoundOf>, k: nat)
    requires cfg.maxSteps > 0 && RunOutcomes.Runs.Fresh(start) && mem.verif == map[]
    requires var events := Loop.RunOn(cfg, start, inputs).events;
      && k < |events| <= |rounds| && Loop.Validated(events[k]) && Hears(mem, rounds, inputs, events, cfg.checks)
    ensures var events := Loop.RunOn(cfg, start, inputs).events;
      || RunOutcomes.NoneFailing(RanBy(mem, rounds, k + 1), cfg.checks)
      || RunOutcomes.Runs.Times(events[..k], RunOutcomes.Runs.AHold(Loop.FailingCheck)) == 4
    ensures var r := Loop.RunOn(cfg, start, inputs); MemAfter(mem, rounds[..|r.events|]).verif == r.s.verif
  {
    hide Loop.Step, RoundRan, RunOutcomes.NoneFailing, MemAfter, After;
    var r := Loop.RunOn(cfg, start, inputs);
    RunOutcomes.ClaimsThatReachTheAnchor(cfg, start, inputs, k);
    LoopHearsTheExecutor(mem, rounds, inputs, r.events, cfg.checks, k + 1);
    RunOutcomes.LedgerOfTheRun(cfg, start, inputs);
    LoopHearsTheExecutor(mem, rounds, inputs, r.events, cfg.checks, |r.events|);
    forall j | 0 <= j < |r.events| ensures rounds[j].env.checks == cfg.checks && rounds[j].env.round == j + 1 {
      assert HearsRound(mem, rounds, inputs, r.events, cfg.checks, j);
    }
    MemoryNotes(mem, rounds, |r.events|, cfg.checks);
  }
}
