/** internal/agent/loop.go: what a PASS of a whole run means, which claims reach the anchor, and what
    the journal says of every round. */
module RunOutcomes {
  import opened Anchor
  import opened Ledger
  import opened Claims
  import opened Loop
  import opened Runs

  // ---- The rounds of a run, one at a time.

  /** Round k of a run is one step from what the rounds before it left. */
  lemma {:induction false} RoundAt(cfg: Config, start: State, inputs: seq<RoundInput>, k: nat)
    requires cfg.maxSteps > 0 && k < |RunOn(cfg, start, inputs).events|
    ensures k < |inputs|
    ensures var before, r := RunOn(cfg, start, inputs[..k]), RunOn(cfg, start, inputs);
      && !before.Ended() && |before.events| == k && before.events == r.events[..k]
      && r.events[k] == Step(cfg, before.s, inputs[k]).1
      && (k == |r.events| - 1 ==> r.s == Step(cfg, before.s, inputs[k]).0)
  {
    hide Step;
    var init := inputs[..|inputs| - 1];
    var before := RunOn(cfg, start, init);
    if before.Ended() || k < |before.events| {
      RoundAt(cfg, start, init, k);
      assert init[..k] == inputs[..k];
      if !before.Ended() {
        assert RunOn(cfg, start, inputs).events[..k] == before.events[..k];
      }
    } else {
      NotEndedYet(cfg, start, init);
    }
  }

  /** A run not ended yet has had a round for each answer. */
  lemma {:induction false} NotEndedYet(cfg: Config, start: State, inputs: seq<RoundInput>)
    requires cfg.maxSteps > 0 && !RunOn(cfg, start, inputs).Ended()
    ensures |RunOn(cfg, start, inputs).events| == |inputs|
  {
    hide Step;
    if inputs != [] {
      NotEndedYet(cfg, start, inputs[..|inputs| - 1]);
    }
  }

  // ---- The ledger of a whole run.

  /** The rounds whose commands ran. */
  predicate Ran(e: Event) {
    e.Progress? || e.Stalled? || e.SentBack? || Validated(e)
  }

  function Stamped(executions: seq<Execution>, round: nat): seq<Execution> {
    if executions == [] then []
    else Stamped(executions[..|executions| - 1], round) + [executions[|executions| - 1].(round := round)]
  }

  /** Every command the first n rounds ran, in order. */
  function Executed(inputs: seq<RoundInput>, events: seq<Event>, n: nat): seq<Execution>
    requires n <= |events| && n <= |inputs|
  {
    if n == 0 then []
    else Executed(inputs, events, n - 1) + if Ran(events[n - 1]) then Stamped(inputs[n - 1].executions, n) else []
  }

  lemma {:induction false} ExecutedOfPrefix(inputs: seq<RoundInput>, events: seq<Event>, i: nat, n: nat)
    requires n <= i <= |events| && i <= |inputs|
    ensures Executed(inputs[..i], events[..i], n) == Executed(inputs, events, n)
  {
    if n > 0 {
      ExecutedOfPrefix(inputs, events, i, n - 1);
    }
  }

  lemma AfterAppend(history: seq<Execution>, e: Execution, checks: Keying)
    ensures After(history + [e], checks) == Noted(After(history, checks), e, checks)
  {
    hide Noted;
    assert (history + [e])[..|history|] == history;
  }

  lemma {:induction false} NotingIsAfter(history: seq<Execution>, es: seq<Execution>, round: nat, checks: Keying)
    ensures NotedAll(After(history, checks), es, round, checks) == After(history + Stamped(es, round), checks)
  {
    hide Noted, After;
    if es == [] {
      assert history + [] == history;
    } else {
      var init, e := es[..|es| - 1], es[|es| - 1].(round := round);
      NotingIsAfter(history, init, round, checks);
      AfterAppend(history + Stamped(init, round), e, checks);
      assert history + Stamped(es, round) == history + Stamped(init, round) + [e];
    }
  }

  /** What one round does to the ledger, and to what its claims are judged with. */
  lemma StepNotes(cfg: Config, s: State, ins: RoundInput)
    requires cfg.maxSteps > 0
    ensures var (n, e) := Step(cfg, s, ins);
      && n.verif == (if Ran(e) then NotedAll(s.verif, ins.executions, s.round + 1, cfg.checks) else s.verif)
      && n.held == (if Validated(e) then Claimed(cfg.who, s.held, ins.claim).0 else s.held)
  {
    StepIs(cfg, s, ins);
    OpeningMoves(cfg, s, ins);
    var (next, opening) := NextRound(cfg, s, ins);
    var (n, e) := Step(cfg, s, ins);
    assert
      && !Ran(Cut) && !Validated(Cut)
      && (opening == BudgetRefused || opening == Ceiling ==> !Ran(opening) && !Validated(opening));
    hide *;
    if opening == Progress {
      var ran := AtTheClaim(cfg, s, ins);
      AtTheClaimIs(cfg, s, ins);
      if ins.decision.WasCut? {
        assert e == Cut && n == next;
      } else if !Usable(ins.decision) {
        OthersNote(next, ins);
      } else if ClaimsDone(cfg, ins) {
        assert var (n, e) := Claim(cfg, ran, ins);
          && n.verif == ran.verif && Ran(e)
          && n.held == if Validated(e) then Claimed(cfg.who, ran.held, ins.claim).0 else ran.held by {
          var claim := ran.(repeats := 0, recent := []);
          GuardsLeave(cfg, claim, ins);
          var after := AfterGuards(cfg, claim, ins);
          if HoldOf(cfg, claim, ins) == Goes {
            AnchorNotes(cfg, after, ins);
          }
          hide AfterGuards, HoldOf, AnchorJudges, Claimed;
        }
      } else {
        OthersNote(ran, ins);
      }
    }
  }

  lemma OthersNote(s: State, ins: RoundInput)
    ensures var (n, e) := ProgressRound(s, ins); n.verif == s.verif && n.held == s.held && Ran(e) && !Validated(e)
    ensures var (n, e) := UnusableReply(s, ins); n.verif == s.verif && n.held == s.held && !Ran(e) && !Validated(e)
  {
  }

  lemma AnchorNotes(cfg: Config, s: State, ins: RoundInput)
    ensures var (n, e) := AnchorJudges(cfg, s, ins);
      n.verif == s.verif && Validated(e) && n.held == Claimed(cfg.who, s.held, ins.claim).0
  {
    hide Claimed, MissingTooling;
  }

  /** The ledger of a run is what its commands leave, in the order they ran. */
  lemma {:induction false} LedgerOfTheRun(cfg: Config, start: State, inputs: seq<RoundInput>)
    requires cfg.maxSteps > 0 && Fresh(start)
    ensures var r := RunOn(cfg, start, inputs);
      r.s.verif == After(Executed(inputs, r.events, |r.events|), cfg.checks)
  {
    if inputs != [] {
      var init := inputs[..|inputs| - 1];
      var before, r := RunOn(cfg, start, init), RunOn(cfg, start, inputs);
      LedgerOfTheRun(cfg, start, init);
      var n := |before.events|;
      assert r.events[..n] == before.events;
      ExecutedOfPrefix(inputs, r.events, n, n);
      ExecutedOfPrefix(init, before.events, n, n);
      assert init[..n] == inputs[..n] && before.events[..n] == before.events;
      assert Executed(inputs, r.events, n) == Executed(init, before.events, n);
      if !before.Ended() {
        OneMoreRound(cfg, start, inputs);
      }
    }
  }

  lemma OneMoreRound(cfg: Config, start: State, inputs: seq<RoundInput>)
    requires cfg.maxSteps > 0 && Fresh(start) && inputs != []
    requires var init := inputs[..|inputs| - 1];
      var before, r := RunOn(cfg, start, init), RunOn(cfg, start, inputs);
      && !before.Ended()
      && before.s.verif == After(Executed(inputs, r.events, |before.events|), cfg.checks)
    ensures var r := RunOn(cfg, start, inputs);
      r.s.verif == After(Executed(inputs, r.events, |r.events|), cfg.checks)
  {
    var init, ins := inputs[..|inputs| - 1], inputs[|inputs| - 1];
    var before, r := RunOn(cfg, start, init), RunOn(cfg, start, inputs);
    var n := |before.events|;
    NotEndedYet(cfg, start, init);
    RunsArePaced(cfg, start, init);
    LastRound(cfg, start, inputs);
    StepNotes(cfg, before.s, ins);
    assert var (s, e) := Step(cfg, before.s, ins); More(cfg, before, ins) == Run(s, before.events + [e]) by {
      hide Step;
    }
    hide *;
    assert n < |r.events| && r.events[n] == Step(cfg, before.s, ins).1;
    NotingIsAfter(Executed(inputs, r.events, n), ins.executions, n + 1, cfg.checks);
    assert Executed(inputs, r.events, n + 1)
         == if Ran(r.events[n]) then Executed(inputs, r.events, n) + Stamped(inputs[n].executions, n + 1)
            else Executed(inputs, r.events, n) by {
      hide Ran, Stamped;
    }
  }

  /** No check the run executed itself is still failing: the last command that covered it passed. */
  ghost predicate NoneFailing(history: seq<Execution>, checks: Keying) {
    forall k, i :: LastCovering(history, i, k, checks) ==> !CheckFailed(history[i]).0
  }

  lemma NoneFailingIsNoneOpen(history: seq<Execution>, checks: Keying)
    ensures OpenChecks(After(history, checks)) <==> !NoneFailing(history, checks)
  {
    hide After, CheckFailed;
    if OpenChecks(After(history, checks)) {
      var k :| k in After(history, checks) && After(history, checks)[k].failed;
      OpenIsLastFailed(history, k, checks);
    }
    if !NoneFailing(history, checks) {
      var k, i :| LastCovering(history, i, k, checks) && CheckFailed(history[i]).0;
      OpenIsLastFailed(history, k, checks);
      assert Open(After(history, checks), k);
    }
  }

  /** A claim reaches the anchor only with no check of the run still failing, the commands of its own
      round included, or once the claim was sent back four times over one. */
  lemma ClaimsThatReachTheAnchor(cfg: Config, start: State, inputs: seq<RoundInput>, k: nat)
    requires cfg.maxSteps > 0 && Fresh(start)
    requires k < |RunOn(cfg, start, inputs).events| && Validated(RunOn(cfg, start, inputs).events[k])
    ensures k < |inputs|
    ensures var events := RunOn(cfg, start, inputs).events;
      || NoneFailing(Executed(inputs, events, k + 1), cfg.checks)
      || Times(events[..k], AHold(FailingCheck)) == 4
  {
    RoundAt(cfg, start, inputs, k);
    var events, s := RunOn(cfg, start, inputs).events, RunOn(cfg, start, inputs[..k]).s;
    LedgerAt(cfg, start, inputs, k);
    ChallengesAt(cfg, start, inputs, k);
    var history, last := Executed(inputs, events, k), Stamped(inputs[k].executions, k + 1);
    assert Executed(inputs, events, k + 1) == history + last;
    hide *;
    OneClaim(cfg, s, inputs[k], history);
  }

  lemma LedgerAt(cfg: Config, start: State, inputs: seq<RoundInput>, k: nat)
    requires cfg.maxSteps > 0 && Fresh(start) && k < |RunOn(cfg, start, inputs).events| <= |inputs|
    ensures var s := RunOn(cfg, start, inputs[..k]).s;
      s.round == k && s.verif == After(Executed(inputs, RunOn(cfg, start, inputs).events, k), cfg.checks)
  {
    RoundAt(cfg, start, inputs, k);
    var events, before := RunOn(cfg, start, inputs).events, RunOn(cfg, start, inputs[..k]);
    RunsArePaced(cfg, start, inputs[..k]);
    LedgerOfTheRun(cfg, start, inputs[..k]);
    hide Step, RunOn, After;
    ExecutedOfPrefix(inputs, events, k, k);
  }

  lemma ChallengesAt(cfg: Config, start: State, inputs: seq<RoundInput>, k: nat)
    requires cfg.maxSteps > 0 && Fresh(start) && k < |RunOn(cfg, start, inputs).events| <= |inputs|
    ensures RunOn(cfg, start, inputs[..k]).s.verifyChallenges
         == Times(RunOn(cfg, start, inputs).events[..k], AHold(FailingCheck)) <= MAX_VERIFY_CHALLENGES
  {
    RoundAt(cfg, start, inputs, k);
    RunsKeep(cfg, start, inputs[..k]);
    hide Step, RunOn, Times;
  }

  lemma OneClaim(cfg: Config, s: State, ins: RoundInput, history: seq<Execution>)
    requires cfg.maxSteps > 0 && s.verifyChallenges <= MAX_VERIFY_CHALLENGES && Validated(Step(cfg, s, ins).1)
    requires s.verif == After(history, cfg.checks)
    ensures NoneFailing(history + Stamped(ins.executions, s.round + 1), cfg.checks) || s.verifyChallenges == 4
  {
    StepMeans(cfg, s, ins);
    hide Step, After, NotedAll, NoneFailing, OpenChecks, NextRound, Stamped, UnbackedClaim, AuditSendsBack;
    AtTheClaimIs(cfg, s, ins);
    NotingIsAfter(history, ins.executions, s.round + 1, cfg.checks);
    NoneFailingIsNoneOpen(history + Stamped(ins.executions, s.round + 1), cfg.checks);
  }

  // ---- What the claims of a run are judged with.

  /** The gate a claim is held to is the one the task found, or one the person approved in a round of
      this run whose claim was judged; the baseline is only ever what the gate gives on the tree the run
      started from. */
  ghost predicate HeldSoundly(cfg: Config, start: State, inputs: seq<RoundInput>, r: Run) {
    && PartOf(r.s.held.known, WholeGate(cfg.who.startGate))
    && ((r.s.held.gate == start.held.gate && r.s.held.gateTests == start.held.gateTests) ||
        exists i :: ApprovedIn(inputs, r.events, i, r.s.held))
  }

  /** The claim of round i was judged, and the person approved this gate then. */
  predicate ApprovedIn(inputs: seq<RoundInput>, events: seq<Event>, i: int, held: Held) {
    0 <= i < |events| && i < |inputs| && Validated(events[i]) && ApprovedThen(inputs[i].claim, held)
  }

  predicate ApprovedThen(ins: Inputs, held: Held) {
    ins.approval.Approved? && held.gate == ins.gateNow && held.gateTests == ins.testsNow
  }

  lemma {:induction false} RunsHoldSoundly(cfg: Config, start: State, inputs: seq<RoundInput>)
    requires cfg.maxSteps > 0 && PartOf(start.held.known, WholeGate(cfg.who.startGate))
    ensures HeldSoundly(cfg, start, inputs, RunOn(cfg, start, inputs))
  {
    hide Step, PartOf, WholeGate;
    if inputs != [] {
      var init, ins := inputs[..|inputs| - 1], inputs[|inputs| - 1];
      var before := RunOn(cfg, start, init);
      RunsHoldSoundly(cfg, start, init);
      hide RunOn, Claimed, ApprovedThen;
      LastRound(cfg, start, inputs);
      if before.Ended() {
        StillApproved(init, inputs, before.events, before.events, before.s.held);
      } else {
        NotEndedYet(cfg, start, init);
        StepNotes(cfg, before.s, ins);
        Claims.ClaimKeeps(cfg.who, before.s.held, ins.claim);
        OneMoreHeld(cfg, start, inputs, before, Step(cfg, before.s, ins).0, Step(cfg, before.s, ins).1);
      }
    }
  }

  lemma StillApproved(init: seq<RoundInput>, inputs: seq<RoundInput>, before: seq<Event>, events: seq<Event>, held: Held)
    requires init <= inputs && before <= events
    ensures (exists i :: ApprovedIn(init, before, i, held)) ==> exists i :: ApprovedIn(inputs, events, i, held)
  {
    hide ApprovedThen, Validated;
    if i :| ApprovedIn(init, before, i, held) {
      assert ApprovedIn(inputs, events, i, held);
    }
  }

  /** A round that was judged may have moved the gate, with the person's approval. */
  lemma OneMoreHeld(cfg: Config, start: State, inputs: seq<RoundInput>, before: Run, next: State, e: Event)
    requires inputs != [] && |before.events| == |inputs| - 1
    requires HeldSoundly(cfg, start, inputs[..|inputs| - 1], before)
    requires PartOf(next.held.known, WholeGate(cfg.who.startGate))
    requires (next.held.gate == before.s.held.gate && next.held.gateTests == before.s.held.gateTests)
      || (Validated(e) && ApprovedThen(inputs[|inputs| - 1].claim, next.held))
    ensures HeldSoundly(cfg, start, inputs, Run(next, before.events + [e]))
  {
    hide PartOf, WholeGate, Validated;
    var k, events := |inputs| - 1, before.events + [e];
    StillApproved(inputs[..k], inputs, before.events, events, before.s.held);
    if next.held.gate == before.s.held.gate && next.held.gateTests == before.s.held.gateTests {
      SameGate(inputs, events, before.s.held, next.held);
    } else {
      assert ApprovedIn(inputs, events, k, next.held);
    }
  }

  lemma SameGate(inputs: seq<RoundInput>, events: seq<Event>, a: Held, b: Held)
    requires a.gate == b.gate && a.gateTests == b.gateTests
    ensures (exists i :: ApprovedIn(inputs, events, i, a)) ==> exists i :: ApprovedIn(inputs, events, i, b)
  {
    hide Validated;
    if i :| ApprovedIn(inputs, events, i, a) {
      assert ApprovedIn(inputs, events, i, b);
    }
  }

  // ---- What a PASS means.

  /** The agent only reads, or it is a background agent with nothing to run. */
  predicate TakenAsItIs(cfg: Config, ins: Inputs) {
    cfg.who.research || (cfg.who.isChild && (ins.kindIsNone || ins.ran == []))
  }

  /** The reasons a claim may pass: the agent only reads, it is a background agent with nothing to
      run, the project declares no gate, or every check passes or fails as it failed before. */
  ghost predicate Verified(cfg: Config, ins: Inputs) {
    || TakenAsItIs(cfg, ins)
    || (!ins.kindIsNone && ins.ran == [])
    || (!ins.kindIsNone && (AllPass(ins.ran) || (cfg.who.hasBaseline && AllOld(WholeGate(cfg.who.startGate), ins.ran))))
  }

  lemma AllOldMeansThere(cfg: Config, held: Held, ins: Inputs)
    requires PartOf(held.known, WholeGate(cfg.who.startGate))
    ensures AllOld(Claimed(cfg.who, held, ins).0.known, ins.ran) ==> AllOld(WholeGate(cfg.who.startGate), ins.ran)
  {
    Claims.ClaimKeeps(cfg.who, held, ins);
    hide Claimed, WholeGate, SameFailure;
  }

  /** A run passes only in a round where the model said done with nothing left to hold its claim, the
      checks hold, the gate is the one the task is held to or the person approved the new one, no
      command failed to run, and the final action worked. */
  lemma PassIsSound(cfg: Config, start: State, inputs: seq<RoundInput>)
    requires cfg.maxSteps > 0 && Fresh(start) && PartOf(start.held.known, WholeGate(cfg.who.startGate))
    requires var r := RunOn(cfg, start, inputs); r.events != [] && r.events[|r.events| - 1] == Passed
    ensures var k := |RunOn(cfg, start, inputs).events| - 1;
      && k < |inputs|
      && var s, ins := RunOn(cfg, start, inputs[..k]).s, inputs[k];
      && ClaimOfDone(cfg, s, ins)
      && Verified(cfg, ins.claim)
      && (TakenAsItIs(cfg, ins.claim) || GateHeld(s.held, ins.claim))
      && HeldSoundly(cfg, start, inputs[..k], RunOn(cfg, start, inputs[..k]))
      && !ins.runErr && ins.finalWorks
  {
    var k := |RunOn(cfg, start, inputs).events| - 1;
    RoundAt(cfg, start, inputs, k);
    var s, ins := RunOn(cfg, start, inputs[..k]).s, inputs[k];
    RunsKeep(cfg, start, inputs[..k]);
    RunsHoldSoundly(cfg, start, inputs[..k]);
    StepMeans(cfg, s, ins);
    hide Step, RunOn, Claimed, WholeGate, PartOf, ClaimOfDone, Verified;
    assert Verified(cfg, ins.claim) && (TakenAsItIs(cfg, ins.claim) || GateHeld(s.held, ins.claim)) by {
      ClaimPasses(cfg.who, s.held, ins.claim);
      AllOldMeansThere(cfg, s.held, ins.claim);
      hide Claimed, AllPass, AllOld, WholeGate;
    }
  }

  // ---- The journal.

  datatype Label = Unlabelled | Labelled(kind: Kind)

  /** What the journal calls a round: a claim sent back is progress, and only a claim the anchor
      refused, or whose final action failed, is a rejection. */
  function LabelOf(e: Event): Label {
    match e
    case Unusable => Labelled(RoundUnusable)
    case Progress => Labelled(RoundProgress)
    case SentBack(_) => Labelled(RoundProgress)
    case Rejected(_, _) => Labelled(RoundRejected)
    case FinalFailed(_) => Labelled(RoundRejected)
    case _ => Unlabelled
  }

  function Entry(e: Event, round: nat): seq<Loop.Note> {
    if LabelOf(e).Labelled? then [Note(round, LabelOf(e).kind)] else []
  }

  /** The person's messages come first in the entry of the round that reads them. */
  function Message(cfg: Config, s: State, ins: RoundInput): seq<Loop.Note>
    requires cfg.maxSteps > 0
  {
    if NextRound(cfg, s, ins).1 == Progress && cfg.depth == 0 && ins.steered then [Note(s.round + 1, RoundProgress)] else []
  }

  lemma GuardsWrite(cfg: Config, s: State, ins: RoundInput)
    ensures var n := AfterGuards(cfg, s, ins);
      && n.round == s.round
      && n.journal == if HoldOf(cfg, s, ins) == Goes then s.journal else s.journal + [Note(s.round, RoundProgress)]
  {
    hide HoldOf, AuditDue;
  }

  lemma AnchorWrites(cfg: Config, s: State, ins: RoundInput)
    ensures var (n, e) := AnchorJudges(cfg, s, ins); n.journal == s.journal + Entry(e, s.round)
  {
    hide Claimed, MissingTooling;
  }

  /** One round writes the person's message, if there was one, and then what the round was. */
  lemma StepWrites(cfg: Config, s: State, ins: RoundInput)
    requires cfg.maxSteps > 0
    ensures var (n, e) := Step(cfg, s, ins);
      n.journal == s.journal + Message(cfg, s, ins) + Entry(e, s.round + 1)
  {
    StepIs(cfg, s, ins);
    var (next, opening) := NextRound(cfg, s, ins);
    OpeningMoves(cfg, s, ins);
    OpeningWrites(cfg, s, ins);
    if opening == Progress {
      OpensTheNext(cfg, s, ins);
      var ran := AtTheClaim(cfg, s, ins);
      assert ran.journal == next.journal && ran.round == next.round;
      hide Step, NextRound, AtTheClaim, Claim, ProgressRound, UnusableReply, Message, Usable;
      if ins.decision.WasCut? {
        assert Entry(Cut, s.round + 1) == [];
      } else if !Usable(ins.decision) {
      } else if ClaimsDone(cfg, ins) {
        assert var (n, e) := Claim(cfg, ran, ins); n.journal == ran.journal + Entry(e, ran.round) by {
          var claim := ran.(repeats := 0, recent := []);
          GuardsWrite(cfg, claim, ins);
          if HoldOf(cfg, claim, ins) == Goes {
            AnchorWrites(cfg, AfterGuards(cfg, claim, ins), ins);
          }
          hide AfterGuards, HoldOf, AnchorJudges;
        }
      }
    }
  }

  lemma OpeningWrites(cfg: Config, s: State, ins: RoundInput)
    requires cfg.maxSteps > 0
    ensures NextRound(cfg, s, ins).0.journal == s.journal + Message(cfg, s, ins)
  {
    hide BudgetSpent;
    assert s.journal + [] == s.journal;
  }

  predicate InItsRound(events: seq<Event>, note: Loop.Note) {
    0 < note.round <= |events| && LabelOf(events[note.round - 1]) == Labelled(note.kind)
  }

  predicate FromThePerson(cfg: Config, note: Loop.Note) {
    note.kind == RoundProgress && cfg.depth == 0
  }

  /** The journal, past what the run started with. */
  predicate JournalSays(cfg: Config, written: seq<Loop.Note>, events: seq<Event>) {
    && (forall k :: 0 <= k < |events| && LabelOf(events[k]).Labelled? ==> Note(k + 1, LabelOf(events[k]).kind) in written)
    && (forall note :: note in written ==> FromThePerson(cfg, note) || InItsRound(events, note))
  }

  /** One round more of it. */
  lemma JournalGrows(cfg: Config, written: seq<Loop.Note>, events: seq<Event>, s: State, ins: RoundInput, e: Event)
    requires cfg.maxSteps > 0 && JournalSays(cfg, written, events) && s.round == |events|
    ensures JournalSays(cfg, written + Message(cfg, s, ins) + Entry(e, s.round + 1), events + [e])
  {
    var message, all := Message(cfg, s, ins), events + [e];
    assert forall note :: note in message ==> FromThePerson(cfg, note);
    hide Message, LabelOf;
    assert all[|events|] == e;
    forall note | note in written && InItsRound(events, note) ensures InItsRound(all, note) {
      assert all[note.round - 1] == events[note.round - 1];
    }
    forall k | 0 <= k < |events| && LabelOf(all[k]).Labelled?
      ensures Note(k + 1, LabelOf(all[k]).kind) in written
    {
      assert all[k] == events[k];
    }
  }

  lemma PastTheStart(start: seq<Loop.Note>, journal: seq<Loop.Note>, a: seq<Loop.Note>, b: seq<Loop.Note>)
    requires start <= journal
    ensures start <= journal + a + b && (journal + a + b)[|start|..] == journal[|start|..] + a + b
  {
  }

  /** Every round that ends in one of the labelled ways is in the journal under its own number, and
      what the journal adds to what it started with is only that and the person's messages. */
  lemma {:induction false} JournalOfTheRun(cfg: Config, start: State, inputs: seq<RoundInput>)
    requires cfg.maxSteps > 0 && Fresh(start)
    ensures var r := RunOn(cfg, start, inputs);
      start.journal <= r.s.journal && JournalSays(cfg, r.s.journal[|start.journal|..], r.events)
  {
    if inputs != [] {
      var init, ins := inputs[..|inputs| - 1], inputs[|inputs| - 1];
      var before := RunOn(cfg, start, init);
      JournalOfTheRun(cfg, start, init);
      if !before.Ended() {
        RunsArePaced(cfg, start, init);
        hide Step, JournalSays, RunPaced;
        StepWrites(cfg, before.s, ins);
        var (n, e) := Step(cfg, before.s, ins);
        var written := before.s.journal[|start.journal|..];
        var message, entry := Message(cfg, before.s, ins), Entry(e, before.s.round + 1);
        hide Message, Entry;
        JournalGrows(cfg, written, before.events, before.s, ins, e);
        PastTheStart(start.journal, before.s.journal, message, entry);
      }
    } else {
      assert start.journal[|start.journal|..] == [];
    }
  }
}
