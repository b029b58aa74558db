/** internal/agent/loop.go: the loop itself, a run whose fields change round by round. Every method is
    proved against its function in Loop.dfy. */
module TaskRuns {
  import opened Anchor
  import opened Ledger
  import opened Claims
  import opened Loop
  import opened Runs

  class TaskRun {
    const cfg: Config
    const judge: Judge
    const mem: CheckLedger

    var round: nat
    var rejected: nat
    var toolingRetries: nat
    var unusable: nat
    var repeats: nat
    var recent: seq<string>
    var readOnlyRounds: nat
    var lastSources: Maybe
    var unbackedDone: nat
    var verifyChallenges: nat
    var auditChallenges: nat
    var auditPassed: bool
    var unmet: nat
    var challenged: bool
    var journal: seq<Loop.Note>
    var asked: nat

    ghost predicate Valid()
      reads this, judge, judge.before
    {
      cfg.maxSteps > 0 && judge.Valid() && judge.who == cfg.who && cfg.checks == KeyedBy(mem.phrases)
    }

    ghost function View(): State
      reads this, judge, judge.before, mem
    {
      State(round, rejected, toolingRetries, unusable, repeats, recent, readOnlyRounds, lastSources,
            unbackedDone, verifyChallenges, auditChallenges, auditPassed, unmet, challenged,
            judge.Holds(), mem.verif, journal, asked)
    }

    constructor (cfg: Config, judge: Judge, mem: CheckLedger, seed: seq<Loop.Note>, challenged: bool)
      requires cfg.maxSteps > 0 && judge.Valid() && judge.who == cfg.who
      requires mem.verif == map[] && cfg.checks == KeyedBy(mem.phrases)
      ensures Valid() && this.cfg == cfg && this.judge == judge && this.mem == mem
      ensures View() == Start(cfg, seed, challenged, judge.Holds())
    {
      this.cfg, this.judge, this.mem := cfg, judge, mem;
      round, rejected, toolingRetries, unusable, repeats, recent := 0, 0, 0, 0, 0, [];
      readOnlyRounds, lastSources, unbackedDone, verifyChallenges := 0, cfg.sources, 0, 0;
      auditChallenges, auditPassed, unmet, asked := 0, false, 0, 0;
      this.challenged, journal := challenged, seed;
    }

    method NoteRound(kind: Kind)
      modifies this`journal
      ensures View() == Noting(old(View()), kind)
    {
      journal := journal + [Note(round, kind)];
    }

    /** Opens the next round; no round opens when the budget is spent and nobody gives another. */
    method OpenRound(ins: RoundInput) returns (e: Event)
      requires cfg.maxSteps > 0
      modifies this`round, this`asked, this`journal
      ensures (View(), e) == NextRound(cfg, old(View()), ins)
    {
      if round / cfg.maxSteps > 0 && round % cfg.maxSteps == 0 {
        asked := asked + 1;
        if !cfg.goal && !ins.continueBudget {
          return BudgetRefused;
        }
      }
      QuotientIsPositive(old(round), cfg.maxSteps);
      round := round + 1;
      if round > cfg.maxSteps * MAX_BUDGET_EXTENSIONS {
        return Ceiling;
      }
      e := Progress;
      if cfg.depth == 0 && ins.steered {
        NoteRound(RoundProgress);
      }
    }

    /** A reply the round could not use. */
    method ReplyUnusable(ins: RoundInput) returns (e: Event)
      modifies this`unusable, this`journal
      ensures (View(), e) == UnusableReply(old(View()), ins)
    {
      if ins.cancelled {
        return Cancelled;
      }
      unusable := unusable + 1;
      if unusable >= MAX_UNUSABLE_REPLIES {
        return GaveUp;
      }
      NoteRound(RoundUnusable);
      e := Unusable;
    }

    /** The commands of the round run, and the ledger notes each of them. */
    method Act(ins: RoundInput)
      requires cfg.checks == KeyedBy(mem.phrases)
      modifies this`unusable, mem
      ensures View() == RunActions(cfg, old(View()), ins)
    {
      hide Noted;
      unusable := 0;
      var es := ins.executions;
      for i := 0 to |es|
        modifies mem
        invariant mem.verif == NotedAll(old(mem.verif), es[..i], round, cfg.checks)
      {
        assert es[..i + 1][..i] == es[..i];
        mem.NoteVerification(es[i].(round := round));
      }
      assert es[..|es|] == es;
    }

    method SeenRecently(signature: string) returns (seen: bool)
      modifies this`recent
      ensures seen <==> signature in old(recent)
      ensures recent == Remembered(old(recent), signature)
    {
      seen := signature in recent;
      recent := recent + [signature];
      if |recent| > CYCLE_WINDOW {
        recent := recent[1..];
      }
    }

    method StallCheck(ins: RoundInput) returns (stalled: bool)
      modifies this`recent, this`repeats
      ensures recent == Remembered(old(recent), ins.signature)
      ensures repeats == if Repeats(old(View()), ins) then old(repeats) + 1 else 0
      ensures stalled <==> repeats >= STALL_STOP_AT
    {
      var seen := SeenRecently(ins.signature);
      if seen || (ins.recalled > 0 && ins.executed == 0) {
        repeats := repeats + 1;
      } else {
        repeats := 0;
      }
      stalled := repeats >= STALL_STOP_AT;
    }

    /** A round that reports work left. */
    method ProgressMade(ins: RoundInput) returns (e: Event)
      modifies this`recent, this`repeats, this`lastSources, this`readOnlyRounds, this`journal
      ensures (View(), e) == ProgressRound(old(View()), ins)
    {
      hide Remembered, Repeats;
      var stalled := StallCheck(ins);
      if stalled {
        return Stalled;
      }
      if ins.sources.Some? && ins.sources != lastSources {
        lastSources, readOnlyRounds := ins.sources, 0;
      } else {
        readOnlyRounds := readOnlyRounds + 1;
      }
      NoteRound(RoundProgress);
      e := Progress;
    }

    /** A claim made while background agents run is sent back once. */
    method HoldForChildren(ins: RoundInput) returns (held: bool)
      modifies this`challenged, this`journal
      ensures held <==> ins.running > 0 && !old(challenged)
      ensures View() == (var asked := old(View()).(challenged := old(challenged) || ins.running > 0);
                         if held then Noting(asked, RoundProgress) else asked)
    {
      var first := !challenged;
      if ins.running > 0 {
        challenged := true;
      }
      held := ins.running > 0 && first;
      if held {
        NoteRound(RoundProgress);
      }
    }

    method AuditClaim(ins: RoundInput) returns (held: bool)
      modifies this`auditChallenges, this`auditPassed, this`unmet, this`journal
      ensures held <==> AuditSendsBack(cfg, old(View()), ins)
      ensures View() ==
        if held then
          Noting(old(View()).(auditChallenges := old(auditChallenges) + 1, unmet := ins.audit.criteria), RoundProgress)
        else if AuditDue(cfg, old(View()), ins) then old(View()).(auditPassed := true, unmet := 0)
        else old(View())
    {
      if !cfg.criteriaAudit || auditPassed || auditChallenges >= cfg.AuditLimit()
        || cfg.criteria < cfg.AuditMin() || ins.cancelled
      {
        return false;
      }
      if ins.audit.Unreadable? || ins.audit.criteria == 0 {
        auditPassed, unmet := true, 0;
        return false;
      }
      auditChallenges, unmet := auditChallenges + 1, ins.audit.criteria;
      NoteRound(RoundProgress);
      held := true;
    }

    /** A claim over a tree that is still the one the run found is questioned once. */
    method ChallengeUnchanged(ins: RoundInput) returns (held: bool)
      modifies this`unbackedDone, this`journal
      ensures held <==> UnbackedClaim(cfg, old(View()), ins)
      ensures View() == if held then Noting(old(View()).(unbackedDone := old(unbackedDone) + 1), RoundProgress)
                        else old(View())
    {
      if ins.sources.None? || cfg.sources.None? || ins.sources != cfg.sources {
        return false;
      }
      if unbackedDone != 0 || readOnlyRounds < DONE_GUARD_AFTER || cfg.who.research {
        return false;
      }
      unbackedDone := unbackedDone + 1;
      NoteRound(RoundProgress);
      held := true;
    }

    /** A claim over a check that is still failing is sent back, four times at most. */
    method ChallengeFailing() returns (held: bool)
      modifies this`verifyChallenges, this`journal
      ensures held <==> OpenChecks(old(mem.verif)) && old(verifyChallenges) < MAX_VERIFY_CHALLENGES
      ensures View() == if held then Noting(old(View()).(verifyChallenges := old(verifyChallenges) + 1), RoundProgress)
                        else old(View())
    {
      var open := mem.OpenFailures();
      assert open != [] <==> OpenChecks(mem.verif) by {
        assert forall k :: k in mem.verif ==> (Open(mem.verif, k) <==> mem.verif[k].failed);
      }
      hide ListsTheOpen, OpenChecks, Open;
      held := |open| > 0 && verifyChallenges < MAX_VERIFY_CHALLENGES;
      if held {
        verifyChallenges := verifyChallenges + 1;
        NoteRound(RoundProgress);
      }
    }

    /** Whether a claim of done goes back to the model before the anchor sees it. */
    method ClaimSentBack(ins: RoundInput) returns (hold: Hold)
      modifies this`challenged, this`unbackedDone, this`verifyChallenges
      modifies this`auditChallenges, this`auditPassed, this`unmet, this`journal
      ensures hold == HoldOf(cfg, old(View()), ins)
      ensures View() == AfterGuards(cfg, old(View()), ins)
    {
      ghost var s := View();
      ChildrenAreAsked(cfg, s, ins);
      hide AuditDue, AuditSendsBack, UnbackedClaim, OpenChecks, Noting;
      var held := HoldForChildren(ins);
      if held {
        return Kept(Children);
      }
      held := ChallengeUnchanged(ins);
      if held {
        return Kept(Unchanged);
      }
      held := ChallengeFailing();
      if held {
        return Kept(FailingCheck);
      }
      held := AuditClaim(ins);
      hold := if held then Kept(Criteria) else Goes;
    }

    /** The anchor judges the claim; a passed one runs the final action, a refused one is charged. */
    method Finish(ins: RoundInput) returns (e: Event)
      modifies this`rejected, this`journal
      ensures (View(), e) ==
        if ins.finalWorks then (old(View()), Passed)
        else
          (Noting(old(View()).(rejected := old(rejected) + 1), RoundRejected),
           FinalFailed(old(rejected) + 1 > cfg.maxRetries))
    {
      if ins.finalWorks {
        return Passed;
      }
      NoteRound(RoundRejected);
      rejected := rejected + 1;
      e := FinalFailed(rejected > cfg.maxRetries);
    }

    method RejectClaim(v: Verdict) returns (e: Event)
      modifies this`rejected, this`toolingRetries, this`journal
      ensures (View(), e) == RejectedClaim(cfg, old(View()), v)
    {
      hide MissingTooling;
      var tooling := MissingTooling(v.checks) && toolingRetries < MAX_TOOLING_RETRIES;
      if tooling {
        toolingRetries := toolingRetries + 1;
      } else {
        rejected := rejected + 1;
      }
      NoteRound(RoundRejected);
      e := Rejected(tooling, !tooling && rejected > cfg.maxRetries);
    }

    method JudgeClaim(ins: RoundInput) returns (e: Event)
      requires Valid()
      modifies this`rejected, this`toolingRetries, this`journal, judge`gate, judge`gateTests, judge.before
      ensures Valid()
      ensures (View(), e) == AnchorJudges(cfg, old(View()), ins)
    {
      hide Claimed, MissingTooling;
      var v := judge.ValidateClaim(ins.claim);
      if v.pass && !ins.runErr {
        e := Finish(ins);
      } else {
        e := RejectClaim(v);
      }
    }

    /** A claim of done. */
    method ClaimMade(ins: RoundInput) returns (e: Event)
      requires Valid()
      modifies this, judge`gate, judge`gateTests, judge.before
      ensures Valid()
      ensures (View(), e) == Claim(cfg, old(View()), ins)
    {
      hide HoldOf, AfterGuards, AnchorJudges;
      repeats, recent := 0, [];
      var hold := ClaimSentBack(ins);
      if hold.Kept? {
        return SentBack(hold.guard);
      }
      e := JudgeClaim(ins);
    }

    /** One round. */
    method Round(ins: RoundInput) returns (e: Event)
      requires Valid()
      modifies this, mem, judge`gate, judge`gateTests, judge.before
      ensures Valid()
      ensures (View(), e) == Step(cfg, old(View()), ins)
    {
      hide NextRound, RunActions, UnusableReply, ProgressRound, Claim;
      e := OpenRound(ins);
      if e != Progress {
        return;
      }
      if ins.decision.WasCut? {
        return Cut;
      }
      if ins.decision.NoReply? || (ins.decision.actions == 0 && !ins.decision.done) {
        e := ReplyUnusable(ins);
        return;
      }
      Act(ins);
      if !ins.decision.done || (cfg.depth == 0 && ins.pending) {
        e := ProgressMade(ins);
        return;
      }
      e := ClaimMade(ins);
    }

    /** The run: a round for each of the answers, until one of them ends it. */
    method Execute(inputs: seq<RoundInput>) returns (ghost events: seq<Event>, passed: bool)
      requires Valid() && Fresh(View()) && |inputs| > 10 * cfg.maxSteps
      modifies this, mem, judge`gate, judge`gateTests, judge.before
      ensures Valid()
      ensures Run(View(), events) == RunOn(cfg, old(View()), inputs)
      ensures Run(View(), events).Ended()
      ensures passed <==> events[|events| - 1] == Passed
    {
      hide Step, Fresh;
      ghost var start := View();
      events, passed := [], false;
      var over := false;
      var i := 0;
      while !over
        invariant 0 <= i <= |inputs| && Valid()
        invariant Run(View(), events) == RunOn(cfg, start, inputs[..i])
        invariant over <==> Run(View(), events).Ended()
        invariant over ==> (passed <==> events[|events| - 1] == Passed)
        decreases |inputs| - i, !over
      {
        EveryRunEnds(cfg, start, inputs[..i]);
        var e := Round(inputs[i]);
        assert inputs[..i + 1][..i] == inputs[..i];
        events := events + [e];
        passed, over := e == Passed, Ends(e);
        i := i + 1;
      }
      EndedRunStays(cfg, start, inputs, i);
    }
  }

  /** What comes after the end of a run changes nothing. */
  lemma {:induction false} EndedRunStays(cfg: Config, start: State, inputs: seq<RoundInput>, i: nat)
    requires cfg.maxSteps > 0 && i <= |inputs| && RunOn(cfg, start, inputs[..i]).Ended()
    ensures RunOn(cfg, start, inputs) == RunOn(cfg, start, inputs[..i])
    decreases |inputs| - i
  {
    hide Step;
    if i == |inputs| {
      assert inputs[..i] == inputs;
    } else {
      assert inputs[..i + 1][..i] == inputs[..i];
      EndedRunStays(cfg, start, inputs, i + 1);
    }
  }

  lemma QuotientIsPositive(n: nat, m: nat)
    requires m > 0
    ensures n / m > 0 && n % m == 0 <==> n > 0 && n % m == 0
  {
    assert n == m * (n / m) + n % m;
  }

  /** Being asked about the background agents changes nothing for the other guards. */
  lemma ChildrenAreAsked(cfg: Config, s: State, ins: RoundInput)
    ensures var asked := s.(challenged := s.challenged || ins.running > 0);
      && AuditDue(cfg, asked, ins) == AuditDue(cfg, s, ins)
      && AuditSendsBack(cfg, asked, ins) == AuditSendsBack(cfg, s, ins)
      && UnbackedClaim(cfg, asked, ins) == UnbackedClaim(cfg, s, ins)
  {
  }
}
