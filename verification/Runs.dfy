/** internal/agent/loop.go: what the loop keeps over a whole run, for every answer of the outside. */
module Runs {
  import opened Anchor
  import opened Ledger
  import opened Claims
  import opened Loop

  // ---- Counting what rounds were.

  datatype What = AValidation | ACharge | AToolingRetry | AHold(guard: Guard)

  predicate Is(e: Event, what: What) {
    match what
    case AValidation => Validated(e)
    case ACharge => (e.Rejected? && !e.tooling) || e.FinalFailed?
    case AToolingRetry => e.Rejected? && e.tooling
    case AHold(guard) => e == SentBack(guard)
  }

  function One(b: bool): nat { if b then 1 else 0 }

  function Times(events: seq<Event>, what: What): nat {
    if events == [] then 0
    else Times(events[..|events| - 1], what) + One(Is(events[|events| - 1], what))
  }

  /** The retries a run may lose. */
  function Retries(cfg: Config): nat {
    if cfg.maxRetries < 0 then 0 else cfg.maxRetries
  }

  // ---- One round.

  /** What every counter does when a round turns out to be e. */
  predicate Counts(s: State, n: State, e: Event) {
    && n.rejected == s.rejected + One(Is(e, ACharge))
    && n.toolingRetries == s.toolingRetries + One(Is(e, AToolingRetry))
    && n.unbackedDone == s.unbackedDone + One(Is(e, AHold(Unchanged)))
    && n.verifyChallenges == s.verifyChallenges + One(Is(e, AHold(FailingCheck)))
    && n.auditChallenges == s.auditChallenges + One(Is(e, AHold(Criteria)))
    && (e == SentBack(Children) ==> !s.challenged && n.challenged)
    && (s.challenged ==> n.challenged)
  }

  /** The bounds of the counters between rounds. */
  predicate Bounded(cfg: Config, s: State) {
    && s.rejected <= Retries(cfg)
    && s.toolingRetries <= MAX_TOOLING_RETRIES
    && s.unusable < MAX_UNUSABLE_REPLIES
    && s.repeats < STALL_STOP_AT
    && |s.recent| <= CYCLE_WINDOW
    && s.unbackedDone <= 1
    && s.verifyChallenges <= MAX_VERIFY_CHALLENGES
    && s.auditChallenges <= cfg.AuditLimit()
  }

  /** A round that ends the run spends at most one retry more. */
  predicate NearlyBounded(cfg: Config, s: State) {
    && s.rejected <= Retries(cfg) + 1
    && s.toolingRetries <= MAX_TOOLING_RETRIES
    && s.unbackedDone <= 1
    && s.verifyChallenges <= MAX_VERIFY_CHALLENGES
    && s.auditChallenges <= cfg.AuditLimit()
  }

  predicate Keeps(cfg: Config, s: State, n: State, e: Event) {
    && Counts(s, n, e)
    && (!Ends(e) ==> Bounded(cfg, n))
    && NearlyBounded(cfg, n)
    && (e == Passed ==> n.rejected == s.rejected)
  }

  lemma ProgressKeeps(cfg: Config, s: State, ins: RoundInput)
    requires Bounded(cfg, s)
    ensures Keeps(cfg, s, ProgressRound(s, ins).0, ProgressRound(s, ins).1)
  {
  }

  lemma UnusableKeeps(cfg: Config, s: State, ins: RoundInput)
    requires Bounded(cfg, s)
    ensures Keeps(cfg, s, UnusableReply(s, ins).0, UnusableReply(s, ins).1)
  {
  }

  lemma AnchorKeeps(cfg: Config, s: State, ins: RoundInput)
    requires Bounded(cfg, s)
    ensures Keeps(cfg, s, AnchorJudges(cfg, s, ins).0, AnchorJudges(cfg, s, ins).1)
  {
    hide Claimed, MissingTooling;
  }

  lemma HoldMeans(cfg: Config, s: State, ins: RoundInput)
    ensures HoldOf(cfg, s, ins) == Kept(Children) ==> !s.challenged && ins.running > 0
    ensures HoldOf(cfg, s, ins) == Kept(Unchanged) ==> s.unbackedDone == 0
    ensures HoldOf(cfg, s, ins) == Kept(FailingCheck) ==> s.verifyChallenges < MAX_VERIFY_CHALLENGES
    ensures HoldOf(cfg, s, ins) == Kept(Criteria) ==> s.auditChallenges < cfg.AuditLimit()
  {
    hide OpenChecks;
  }

  lemma GuardsKeep(cfg: Config, s: State, ins: RoundInput)
    requires Bounded(cfg, s)
    ensures Bounded(cfg, AfterGuards(cfg, s, ins))
    ensures match HoldOf(cfg, s, ins)
      case Kept(guard) => Counts(s, AfterGuards(cfg, s, ins), SentBack(guard))
      case Goes => Counts(s, AfterGuards(cfg, s, ins), Progress)
  {
    HoldMeans(cfg, s, ins);
    var after := AfterGuards(cfg, s, ins);
    hide HoldOf, AuditDue;
    match HoldOf(cfg, s, ins)
    case Kept(Children) => assert after.rejected == s.rejected && after.challenged;
    case Kept(Unchanged) => assert after.unbackedDone == s.unbackedDone + 1;
    case Kept(FailingCheck) => assert after.verifyChallenges == s.verifyChallenges + 1;
    case Kept(Criteria) => assert after.auditChallenges == s.auditChallenges + 1;
    case Goes => assert after.auditChallenges == s.auditChallenges;
  }

  /** What moves no counter before a round is judged moves none of it. */
  lemma KeepsAfter(cfg: Config, s: State, mid: State, n: State, e: Event)
    requires Counts(s, mid, Progress) && Keeps(cfg, mid, n, e)
    ensures Keeps(cfg, s, n, e)
  {
    hide Bounded, NearlyBounded, Is;
    assert !Is(Progress, ACharge) && !Is(Progress, AToolingRetry) && forall g :: !Is(Progress, AHold(g)) by {
      ProgressIsNothing();
    }
  }

  lemma ProgressIsNothing()
    ensures !Is(Progress, ACharge) && !Is(Progress, AToolingRetry) && forall g :: !Is(Progress, AHold(g))
  {
  }

  lemma ClaimKeeps(cfg: Config, s: State, ins: RoundInput)
    requires Bounded(cfg, s)
    ensures Keeps(cfg, s, Claim(cfg, s, ins).0, Claim(cfg, s, ins).1)
  {
    var claim := s.(repeats := 0, recent := []);
    assert Bounded(cfg, claim) && Counts(s, claim, Progress);
    var after := AfterGuards(cfg, claim, ins);
    GuardsKeep(cfg, claim, ins);
    var (n, e) := Claim(cfg, s, ins);
    hide AfterGuards, HoldOf, AnchorJudges, Bounded, Counts, Keeps;
    match HoldOf(cfg, claim, ins)
    case Kept(guard) =>
      KeepsAfter(cfg, s, claim, after, SentBack(guard));
    case Goes =>
      AnchorKeeps(cfg, after, ins);
      KeepsAfter(cfg, claim, after, n, e);
      KeepsAfter(cfg, s, claim, n, e);
  }

  lemma OpeningMoves(cfg: Config, s: State, ins: RoundInput)
    requires cfg.maxSteps > 0
    ensures var (n, e) := NextRound(cfg, s, ins);
      && e in {Progress, BudgetRefused, Ceiling}
      && n == s.(round := n.round, asked := n.asked, journal := n.journal)
  {
    hide BudgetSpent;
  }

  lemma ActionsKeep(cfg: Config, s: State, ins: RoundInput)
    requires Bounded(cfg, s)
    ensures Bounded(cfg, RunActions(cfg, s, ins)) && Counts(s, RunActions(cfg, s, ins), Progress)
  {
    hide NotedAll;
  }

  lemma StepKeeps(cfg: Config, s: State, ins: RoundInput)
    requires cfg.maxSteps > 0 && Bounded(cfg, s)
    ensures Keeps(cfg, s, Step(cfg, s, ins).0, Step(cfg, s, ins).1)
  {
    assert var (next, e) := NextRound(cfg, s, ins);
      && Bounded(cfg, next) && Counts(s, next, Progress)
      && (e != Progress ==> Keeps(cfg, s, next, e) && e in {BudgetRefused, Ceiling}) by {
      OpeningMoves(cfg, s, ins);
      hide NextRound;
    }
    hide NextRound, RunActions, ProgressRound, UnusableReply, Claim, Bounded, Counts, Keeps;
    var (next, opening) := NextRound(cfg, s, ins);
    if opening == Progress {
      var (n, e) := Step(cfg, s, ins);
      if ins.decision.WasCut? {
      } else if !Usable(ins.decision) {
        UnusableKeeps(cfg, next, ins);
        KeepsAfter(cfg, s, next, n, e);
      } else {
        ActionsKeep(cfg, next, ins);
        var ran := RunActions(cfg, next, ins);
        if ClaimsDone(cfg, ins) {
          ClaimKeeps(cfg, ran, ins);
        } else {
          ProgressKeeps(cfg, ran, ins);
        }
        KeepsAfter(cfg, next, ran, n, e);
        KeepsAfter(cfg, s, next, n, e);
      }
    }
  }

  // ---- The accounting of claims.

  /** The counters are the rounds they count. */
  predicate Tallied(start: State, r: Run) {
    && r.s.rejected == Times(r.events, ACharge)
    && r.s.toolingRetries == Times(r.events, AToolingRetry)
    && r.s.unbackedDone == Times(r.events, AHold(Unchanged))
    && r.s.verifyChallenges == Times(r.events, AHold(FailingCheck))
    && r.s.auditChallenges == Times(r.events, AHold(Criteria))
    && Times(r.events, AHold(Children)) <= One(r.s.challenged && !start.challenged)
    && (start.challenged ==> r.s.challenged)
  }

  predicate Fresh(s: State) {
    && s.round == s.rejected == s.toolingRetries == s.unusable == s.repeats == s.unbackedDone == 0
    && s.verifyChallenges == s.auditChallenges == s.readOnlyRounds == s.asked == 0
    && s.recent == [] && s.verif == map[] && !s.auditPassed
  }

  /** The validations so far are the retries lost, those a missing tool cost, and the pass. */
  predicate ValidationsTallied(r: Run) {
    Times(r.events, AValidation) == r.s.rejected + r.s.toolingRetries + One(r.Ended() && r.events[|r.events| - 1] == Passed)
  }

  predicate Accounted(cfg: Config, start: State, r: Run) {
    && (!r.Ended() ==> Bounded(cfg, r.s))
    && NearlyBounded(cfg, r.s)
    && Tallied(start, r) && ValidationsTallied(r)
    && (r.Ended() && r.events[|r.events| - 1] == Passed ==> r.s.rejected <= Retries(cfg))
  }

  /** One round more. */
  lemma RoundAccounted(cfg: Config, start: State, r: Run, n: State, e: Event)
    requires !r.Ended() && Accounted(cfg, start, r) && Keeps(cfg, r.s, n, e)
    ensures Accounted(cfg, start, Run(n, r.events + [e]))
  {
    assert Tallied(start, r) && ValidationsTallied(r) && Counts(r.s, n, e);
    assert Bounded(cfg, r.s) ==> r.s.rejected <= Retries(cfg);
    hide Bounded, NearlyBounded, Tallied, ValidationsTallied, Counts;
  }

  lemma LastRound(cfg: Config, start: State, inputs: seq<RoundInput>)
    requires cfg.maxSteps > 0 && inputs != []
    ensures RunOn(cfg, start, inputs) == More(cfg, RunOn(cfg, start, inputs[..|inputs| - 1]), inputs[|inputs| - 1])
  {
  }

  lemma {:induction false} RunsKeep(cfg: Config, start: State, inputs: seq<RoundInput>)
    requires cfg.maxSteps > 0 && Fresh(start)
    ensures Accounted(cfg, start, RunOn(cfg, start, inputs))
  {
    if inputs != [] {
      var before, ins := RunOn(cfg, start, inputs[..|inputs| - 1]), inputs[|inputs| - 1];
      RunsKeep(cfg, start, inputs[..|inputs| - 1]);
      if !before.Ended() {
        assert Bounded(cfg, before.s);
        hide Step, Bounded, Accounted, Keeps;
        StepKeeps(cfg, before.s, ins);
        RoundAccounted(cfg, start, before, Step(cfg, before.s, ins).0, Step(cfg, before.s, ins).1);
      }
    }
  }

  /** Whatever the run is told, the anchor judges at most four claims more than the retries: one for
      each retry, one more, and three for tools that are not installed. A claim is sent back at most
      once for the background agents, once over an unchanged tree, four times over a failing check,
      and as often as the audit may. */
  lemma {:induction false} ClaimAccounting(cfg: Config, start: State, inputs: seq<RoundInput>)
    requires cfg.maxSteps > 0 && Fresh(start)
    ensures var events := RunOn(cfg, start, inputs).events;
      && Times(events, AValidation) <= Retries(cfg) + 4
      && Times(events, AHold(Children)) <= 1
      && (start.challenged ==> Times(events, AHold(Children)) == 0)
      && Times(events, AHold(Unchanged)) <= 1
      && Times(events, AHold(FailingCheck)) <= 4
      && Times(events, AHold(Criteria)) <= if cfg.goal then 5 else 2
  {
    RunsKeep(cfg, start, inputs);
    hide RunOn, Times;
  }

  /** Between rounds every counter is within its bound. */
  lemma BoundsBetweenRounds(cfg: Config, start: State, inputs: seq<RoundInput>)
    requires cfg.maxSteps > 0 && Fresh(start)
    requires !RunOn(cfg, start, inputs).Ended()
    ensures Bounded(cfg, RunOn(cfg, start, inputs).s)
  {
    RunsKeep(cfg, start, inputs);
  }

  // ---- Rounds and questions.

  lemma {:induction false} AtLeastOnce(d: nat, m: nat)
    requires d > 0
    ensures d * m >= m
  {
    if d > 1 {
      AtLeastOnce(d - 1, m);
      assert d * m == (d - 1) * m + m;
    }
  }

  lemma MultiplesApart(a: int, b: int, m: nat)
    requires a < b
    ensures a * m + m <= b * m
  {
    AtLeastOnce(b - a, m);
    assert (b - a) * m == b * m - a * m;
  }

  lemma RemainderIs(n: int, m: nat, q: int, r: int)
    requires m > 0 && n == q * m + r && 0 <= r < m
    ensures n % m == r
  {
    var t := n / m;
    assert n == t * m + n % m;
    if t < q {
      MultiplesApart(t, q, m);
    } else if t > q {
      MultiplesApart(q, t, m);
    }
  }

  /** m divides a number between two of its multiples, the second included, only when it is it. */
  lemma NextMultiple(n: int, m: nat, k: nat)
    requires m > 0 && k * m < n <= (k + 1) * m
    ensures n % m == 0 <==> n == (k + 1) * m
  {
    assert (k + 1) * m == k * m + m;
    if n == (k + 1) * m {
      RemainderIs(n, m, k + 1, 0);
    } else {
      RemainderIs(n, m, k, n - k * m);
    }
  }

  /** A run asks each time a budget of rounds is spent. */
  predicate Asked(cfg: Config, s: State) {
    if s.round == 0 then s.asked == 0
    else s.asked * cfg.maxSteps < s.round <= (s.asked + 1) * cfg.maxSteps
  }

  predicate Paced(cfg: Config, s: State) {
    s.round <= cfg.maxSteps * MAX_BUDGET_EXTENSIONS && Asked(cfg, s)
  }

  lemma OpeningPaces(cfg: Config, s: State, ins: RoundInput)
    requires cfg.maxSteps > 0 && Paced(cfg, s)
    ensures var (n, e) := NextRound(cfg, s, ins);
      && (e == Progress ==> Paced(cfg, n) && n.round == s.round + 1)
      && s.asked <= n.asked <= s.asked + 1
      && (e == BudgetRefused ==> n.round == s.round)
      && (e == Ceiling ==> n.round == s.round + 1 == cfg.maxSteps * MAX_BUDGET_EXTENSIONS + 1)
      && (s.round == cfg.maxSteps * MAX_BUDGET_EXTENSIONS ==> n.asked == s.asked + 1 && e != Progress)
  {
    var m := cfg.maxSteps;
    if s.round > 0 {
      NextMultiple(s.round, m, s.asked);
      if s.round == m * MAX_BUDGET_EXTENSIONS {
        RemainderIs(s.round, m, MAX_BUDGET_EXTENSIONS, 0);
      }
    }
    assert (s.asked + 2) * m == (s.asked + 1) * m + m;
  }

  /** The same number of rounds and questions. */
  predicate SamePace(s: State, n: State) {
    n.round == s.round && n.asked == s.asked
  }

  lemma ClaimPaces(cfg: Config, s: State, ins: RoundInput)
    ensures var (n, e) := Claim(cfg, s, ins); SamePace(s, n) && Worked(e)
  {
    var claim := s.(repeats := 0, recent := []);
    assert SamePace(claim, AfterGuards(cfg, claim, ins)) by {
      hide HoldOf, AuditDue;
    }
    hide AfterGuards, HoldOf, Claimed, MissingTooling;
  }

  /** Nothing but the opening of a round moves the number of rounds and questions. */
  lemma StepPaces(cfg: Config, s: State, ins: RoundInput)
    requires cfg.maxSteps > 0
    ensures var (n, e) := Step(cfg, s, ins);
      var opening := NextRound(cfg, s, ins);
      && SamePace(opening.0, n)
      && (opening.1 != Progress ==> e == opening.1)
      && (opening.1 == Progress ==> Worked(e))
  {
    var (next, opening) := NextRound(cfg, s, ins);
    if opening == Progress {
      var ran := RunActions(cfg, next, ins);
      assert SamePace(next, ran);
      hide NextRound, RunActions, Claim, ProgressRound, UnusableReply;
      if ins.decision.WasCut? {
      } else if !Usable(ins.decision) {
      } else if ClaimsDone(cfg, ins) {
        ClaimPaces(cfg, ran, ins);
      }
    }
  }

  /** A round the model was asked for: not one the run ended before opening. */
  predicate Worked(e: Event) {
    e != BudgetRefused && e != Ceiling
  }

  predicate RunPaced(cfg: Config, r: Run) {
    && (!r.Ended() ==> Paced(cfg, r.s) && r.s.round == |r.events|)
    && r.s.asked <= MAX_BUDGET_EXTENSIONS
    && |r.events| <= cfg.maxSteps * MAX_BUDGET_EXTENSIONS + 1
    && (r.Ended() && Worked(r.events[|r.events| - 1]) ==>
        |r.events| == r.s.round <= cfg.maxSteps * MAX_BUDGET_EXTENSIONS)
  }

  lemma RoundPaced(cfg: Config, r: Run, ins: RoundInput)
    requires cfg.maxSteps > 0 && RunPaced(cfg, r) && !r.Ended()
    ensures var (s, e) := Step(cfg, r.s, ins); RunPaced(cfg, Run(s, r.events + [e]))
  {
    assert var e := NextRound(cfg, r.s, ins).1; e != Progress ==> !Worked(e);
    hide *;
    OpeningPaces(cfg, r.s, ins);
    StepPaces(cfg, r.s, ins);
    var (next, opening) := NextRound(cfg, r.s, ins);
    var (s, e) := Step(cfg, r.s, ins);
  }

  lemma {:induction false} RunsArePaced(cfg: Config, start: State, inputs: seq<RoundInput>)
    requires cfg.maxSteps > 0 && Fresh(start)
    ensures RunPaced(cfg, RunOn(cfg, start, inputs))
    ensures !RunOn(cfg, start, inputs).Ended() ==> |RunOn(cfg, start, inputs).events| == |inputs|
  {
    if inputs != [] {
      var before := RunOn(cfg, start, inputs[..|inputs| - 1]);
      RunsArePaced(cfg, start, inputs[..|inputs| - 1]);
      if !before.Ended() {
        RoundPaced(cfg, before, inputs[|inputs| - 1]);
      }
      hide Step, RunPaced;
    }
  }

  /** Every run ends: it works at most ten budgets of rounds and asks at most ten times. */
  lemma {:induction false} EveryRunEnds(cfg: Config, start: State, inputs: seq<RoundInput>)
    requires cfg.maxSteps > 0 && Fresh(start)
    ensures var r := RunOn(cfg, start, inputs);
      && (|inputs| > 10 * cfg.maxSteps ==> r.Ended())
      && r.s.asked <= 10
      && (forall i :: 0 <= i < |r.events| && Worked(r.events[i]) ==> i < 10 * cfg.maxSteps)
  {
    RunsArePaced(cfg, start, inputs);
  }

  /** The question asked when the last budget is spent buys nothing: whatever the answer, the run
      ends there. */
  lemma LastQuestionEndsTheRun(cfg: Config, start: State, inputs: seq<RoundInput>, ins: RoundInput)
    requires cfg.maxSteps > 0 && Fresh(start)
    requires !RunOn(cfg, start, inputs).Ended() && RunOn(cfg, start, inputs).s.round == 10 * cfg.maxSteps
    ensures var s := RunOn(cfg, start, inputs).s;
      var (n, e) := Step(cfg, s, ins);
      n.asked == s.asked + 1 == 10 && e == if cfg.goal || ins.continueBudget then Ceiling else BudgetRefused
  {
    RunsArePaced(cfg, start, inputs);
    var s := RunOn(cfg, start, inputs).s;
    hide RunOn;
    OpeningPaces(cfg, s, ins);
    StepPaces(cfg, s, ins);
    LastBudget(cfg, s, ins);
    hide Step, NextRound;
  }

  lemma LastBudget(cfg: Config, s: State, ins: RoundInput)
    requires cfg.maxSteps > 0 && Paced(cfg, s) && s.round == 10 * cfg.maxSteps
    ensures s.asked == 9 && NextRound(cfg, s, ins).1 == if cfg.goal || ins.continueBudget then Ceiling else BudgetRefused
  {
    if s.asked < 9 {
      MultiplesApart(s.asked + 1, 10, cfg.maxSteps);
    }
    RemainderIs(s.round, cfg.maxSteps, 10, 0);
  }

  // ---- What a PASS means.

  /** A guard that could have sent the claim back had nothing to say, or had said it already. */
  predicate NothingHeld(cfg: Config, s: State, ins: RoundInput) {
    && (ins.running > 0 ==> s.challenged)
    && !UnbackedClaim(cfg, s, ins)
    && (OpenChecks(s.verif) ==> s.verifyChallenges == MAX_VERIFY_CHALLENGES)
    && !AuditSendsBack(cfg, s, ins)
  }

  /** What the run holds once the commands of a round ran, when a claim of done is weighed. */
  function AtTheClaim(cfg: Config, s: State, ins: RoundInput): State
    requires cfg.maxSteps > 0
  {
    RunActions(cfg, NextRound(cfg, s, ins).0, ins)
  }

  predicate ClaimOfDone(cfg: Config, s: State, ins: RoundInput)
    requires cfg.maxSteps > 0
  {
    && NextRound(cfg, s, ins).1 == Progress
    && ins.decision.Reply? && ins.decision.done && !(cfg.depth == 0 && ins.pending)
    && NothingHeld(cfg, AtTheClaim(cfg, s, ins), ins)
  }

  predicate ClaimPassed(cfg: Config, s: State, ins: RoundInput) {
    Claimed(cfg.who, s.held, ins.claim).1.pass && !ins.runErr && ins.finalWorks
  }

  lemma GuardsLeave(cfg: Config, s: State, ins: RoundInput)
    ensures AfterGuards(cfg, s, ins).held == s.held && AfterGuards(cfg, s, ins).verif == s.verif
  {
    hide HoldOf, AuditDue;
  }

  /** The claim is weighed with the ledger of the commands of this round too, and with everything
      else as it was when the round began. */
  lemma AtTheClaimIs(cfg: Config, s: State, ins: RoundInput)
    requires cfg.maxSteps > 0 && NextRound(cfg, s, ins).1 == Progress
    ensures var c := AtTheClaim(cfg, s, ins);
      && c.verif == NotedAll(s.verif, ins.executions, s.round + 1, cfg.checks)
      && c == s.(round := s.round + 1, unusable := 0, verif := c.verif, asked := c.asked, journal := c.journal)
  {
    OpeningMoves(cfg, s, ins);
    OpensTheNext(cfg, s, ins);
    hide NextRound, NotedAll;
  }

  /** What a round is, once it opened. */
  lemma StepIs(cfg: Config, s: State, ins: RoundInput)
    requires cfg.maxSteps > 0
    ensures var (next, opening) := NextRound(cfg, s, ins);
      var ran := AtTheClaim(cfg, s, ins);
      Step(cfg, s, ins) ==
        if opening != Progress then (next, opening)
        else if ins.decision.WasCut? then (next, Cut)
        else if !Usable(ins.decision) then UnusableReply(next, ins)
        else if ClaimsDone(cfg, ins) then Claim(cfg, ran, ins)
        else ProgressRound(ran, ins)
  {
    hide NextRound, RunActions, Claim, ProgressRound, UnusableReply;
  }

  /** A round is judged by the anchor exactly when the model said done with nothing left to hold the
      claim, and passes exactly when the anchor passed too, no command failed to run and the final
      action worked. */
  lemma StepMeans(cfg: Config, s: State, ins: RoundInput)
    requires cfg.maxSteps > 0 && s.verifyChallenges <= MAX_VERIFY_CHALLENGES
    ensures var e := Step(cfg, s, ins).1;
      && (Validated(e) <==> ClaimOfDone(cfg, s, ins))
      && (e == Passed <==> ClaimOfDone(cfg, s, ins) && ClaimPassed(cfg, s, ins))
  {
    var (next, opening) := NextRound(cfg, s, ins);
    OpeningMoves(cfg, s, ins);
    if opening == Progress {
      var ran := AtTheClaim(cfg, s, ins);
      AtTheClaimIs(cfg, s, ins);
      hide NextRound, Claim, NothingHeld, ProgressRound, UnusableReply, RunActions, Claimed;
      if ins.decision.WasCut? {
      } else if !Usable(ins.decision) {
      } else if ClaimsDone(cfg, ins) {
        assert var (n, e) := Claim(cfg, ran, ins);
          && (Validated(e) <==> NothingHeld(cfg, ran, ins))
          && (e == Passed <==> NothingHeld(cfg, ran, ins) && ClaimPassed(cfg, ran, ins)) by {
          var claim := ran.(repeats := 0, recent := []);
          GuardsLeave(cfg, claim, ins);
          assert NothingHeld(cfg, ran, ins) == NothingHeld(cfg, claim, ins) by {
            hide OpenChecks;
          }
          hide HoldOf, AfterGuards, NothingHeld, Claimed, MissingTooling;
        }
      }
    }
  }

  lemma OpensTheNext(cfg: Config, s: State, ins: RoundInput)
    requires cfg.maxSteps > 0 && NextRound(cfg, s, ins).1 == Progress
    ensures NextRound(cfg, s, ins).0.round == s.round + 1
  {
    hide BudgetSpent;
  }
}
