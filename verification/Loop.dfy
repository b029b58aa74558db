/** internal/agent/loop.go: one round of the loop, as a function of what the run holds and of what the
    outside answers in it. Runs.dfy proves what whole runs keep; TaskRun.dfy is the loop itself. */
module Loop {
  import opened Anchor
  import opened Ledger
  import opened Claims

  // ---- The bounds of the loop.

  const MAX_BUDGET_EXTENSIONS := 10
  const MAX_UNUSABLE_REPLIES := 5
  const STALL_STOP_AT := 4
  const CYCLE_WINDOW := 4
  const MAX_TOOLING_RETRIES := 3
  const MAX_VERIFY_CHALLENGES := 4
  const DONE_GUARD_AFTER := 2

  /** A string that may not have been taken, such as a fingerprint. */
  datatype Maybe = None | Some(value: string)

  /** What a run starts with. `sources` is the fingerprint of the sources as the run found them,
      `criteria` how many success criteria the analysis wrote, `checks` the checks the phrases of the
      ledger recognise. */
  datatype Config = Config(
    maxRetries: int, maxSteps: nat, depth: nat, goal: bool, criteriaAudit: bool, criteria: nat,
    sources: Maybe, who: Claimant, checks: Keying)
  {
    function AuditLimit(): nat { if goal then 5 else 2 }

    function AuditMin(): nat { if goal then 1 else 2 }
  }

  /** How a call for the round's action ended: cut by the person, with nothing to read, or with a
      number of actions and a word on whether the task is done. */
  datatype Decision = WasCut | NoReply | Reply(actions: nat, done: bool)

  datatype Audit = Unreadable | NotShown(criteria: nat)

  /** Everything the outside answers in one round. */
  datatype RoundInput = RoundInput(
    continueBudget: bool, steered: bool, decision: Decision, cancelled: bool,
    signature: string, executions: seq<Execution>, executed: nat, recalled: nat, runErr: bool,
    pending: bool, sources: Maybe, running: nat, audit: Audit, claim: Inputs, finalWorks: bool)

  datatype Kind = RoundProgress | RoundRejected | RoundUnusable

  datatype Note = Note(round: nat, kind: Kind)

  /** What a run holds between rounds. */
  datatype State = State(
    round: nat, rejected: nat, toolingRetries: nat, unusable: nat, repeats: nat, recent: seq<string>,
    readOnlyRounds: nat, lastSources: Maybe, unbackedDone: nat, verifyChallenges: nat,
    auditChallenges: nat, auditPassed: bool, unmet: nat, challenged: bool,
    held: Held, verif: Checks, journal: seq<Note>, asked: nat)

  datatype Guard = Children | Unchanged | FailingCheck | Criteria

  /** What a round turned out to be. */
  datatype Event =
    | BudgetRefused | Ceiling
    | Cut | Unusable | Cancelled | GaveUp
    | Progress | Stalled
    | SentBack(guard: Guard)
    | Rejected(tooling: bool, last: bool)
    | FinalFailed(last: bool)
    | Passed

  predicate Ends(e: Event) {
    match e
    case BudgetRefused => true
    case Ceiling => true
    case Cancelled => true
    case GaveUp => true
    case Stalled => true
    case Rejected(_, last) => last
    case FinalFailed(last) => last
    case Passed => true
    case _ => false
  }

  /** The rounds whose claim the anchor judged. */
  predicate Validated(e: Event) {
    e.Rejected? || e.FinalFailed? || e.Passed?
  }

  // ---- One round.

  function Noting(s: State, kind: Kind): State {
    s.(journal := s.journal + [Note(s.round, kind)])
  }

  predicate BudgetSpent(cfg: Config, s: State)
    requires cfg.maxSteps > 0
  {
    s.round > 0 && s.round % cfg.maxSteps == 0
  }

  /** A goal is not asked about its budget. */
  predicate KeepsGoing(cfg: Config, ins: RoundInput) {
    cfg.goal || ins.continueBudget
  }

  function NextRound(cfg: Config, s: State, ins: RoundInput): (State, Event)
    requires cfg.maxSteps > 0
  {
    var asked := if BudgetSpent(cfg, s) then s.(asked := s.asked + 1) else s;
    if BudgetSpent(cfg, s) && !KeepsGoing(cfg, ins) then (asked, BudgetRefused)
    else
      var next := asked.(round := s.round + 1);
      if next.round > cfg.maxSteps * MAX_BUDGET_EXTENSIONS then (next, Ceiling)
      else (if cfg.depth == 0 && ins.steered then Noting(next, RoundProgress) else next, Progress)
  }

  predicate Usable(d: Decision) {
    d.Reply? && (d.actions > 0 || d.done)
  }

  function UnusableReply(s: State, ins: RoundInput): (State, Event) {
    if ins.cancelled then (s, Cancelled)
    else
      var next := s.(unusable := s.unusable + 1);
      if next.unusable >= MAX_UNUSABLE_REPLIES then (next, GaveUp) else (Noting(next, RoundUnusable), Unusable)
  }

  /** The commands of a round, noted in the order they ran. */
  function NotedAll(verif: Checks, executions: seq<Execution>, round: nat, checks: Keying): Checks {
    if executions == [] then verif
    else
      var e := executions[|executions| - 1];
      Noted(NotedAll(verif, executions[..|executions| - 1], round, checks), e.(round := round), checks)
  }

  function RunActions(cfg: Config, s: State, ins: RoundInput): State {
    s.(unusable := 0, verif := NotedAll(s.verif, ins.executions, s.round, cfg.checks))
  }

  /** The last signatures, one more put at the end. */
  function Remembered(recent: seq<string>, signature: string): seq<string> {
    var longer := recent + [signature];
    if |longer| > CYCLE_WINDOW then longer[1..] else longer
  }

  predicate Repeats(s: State, ins: RoundInput) {
    ins.signature in s.recent || (ins.recalled > 0 && ins.executed == 0)
  }

  /** The rounds that only read are counted until the sources change. */
  function ReadOnly(s: State, ins: RoundInput): State {
    if ins.sources.Some? && ins.sources != s.lastSources then s.(lastSources := ins.sources, readOnlyRounds := 0)
    else s.(readOnlyRounds := s.readOnlyRounds + 1)
  }

  function ProgressRound(s: State, ins: RoundInput): (State, Event) {
    var next := s.(
      recent := Remembered(s.recent, ins.signature),
      repeats := if Repeats(s, ins) then s.repeats + 1 else 0);
    if next.repeats >= STALL_STOP_AT then (next, Stalled)
    else (Noting(ReadOnly(next, ins), RoundProgress), Progress)
  }

  predicate OpenChecks(verif: Checks) {
    exists k :: k in verif && verif[k].failed
  }

  predicate UnbackedClaim(cfg: Config, s: State, ins: RoundInput) {
    && ins.sources.Some? && cfg.sources.Some? && ins.sources == cfg.sources
    && s.unbackedDone == 0 && s.readOnlyRounds >= DONE_GUARD_AFTER && !cfg.who.research
  }

  predicate AuditDue(cfg: Config, s: State, ins: RoundInput) {
    && cfg.criteriaAudit && !s.auditPassed && s.auditChallenges < cfg.AuditLimit()
    && cfg.criteria >= cfg.AuditMin() && !ins.cancelled
  }

  predicate AuditSendsBack(cfg: Config, s: State, ins: RoundInput) {
    AuditDue(cfg, s, ins) && ins.audit.NotShown? && ins.audit.criteria > 0
  }

  /** Why a claim of done is sent back before the anchor sees it, if it is. */
  datatype Hold = Goes | Kept(guard: Guard)

  function HoldOf(cfg: Config, s: State, ins: RoundInput): Hold {
    if ins.running > 0 && !s.challenged then Kept(Children)
    else if UnbackedClaim(cfg, s, ins) then Kept(Unchanged)
    else if OpenChecks(s.verif) && s.verifyChallenges < MAX_VERIFY_CHALLENGES then Kept(FailingCheck)
    else if AuditSendsBack(cfg, s, ins) then Kept(Criteria)
    else Goes
  }

  /** What is left of a claim once it is held or let go on. */
  function AfterGuards(cfg: Config, s: State, ins: RoundInput): State {
    var asked := s.(challenged := s.challenged || ins.running > 0);
    match HoldOf(cfg, s, ins)
    case Kept(Children) => Noting(asked, RoundProgress)
    case Kept(Unchanged) => Noting(asked.(unbackedDone := s.unbackedDone + 1), RoundProgress)
    case Kept(FailingCheck) => Noting(asked.(verifyChallenges := s.verifyChallenges + 1), RoundProgress)
    case Kept(Criteria) =>
      Noting(asked.(auditChallenges := s.auditChallenges + 1, unmet := ins.audit.criteria), RoundProgress)
    case Goes => if AuditDue(cfg, s, ins) then asked.(auditPassed := true, unmet := 0) else asked
  }

  /** A refused claim costs a retry, unless every failing check misses a tool. */
  function RejectedClaim(cfg: Config, s: State, v: Verdict): (State, Event) {
    var tooling := MissingTooling(v.checks) && s.toolingRetries < MAX_TOOLING_RETRIES;
    var charged := if tooling then s.(toolingRetries := s.toolingRetries + 1) else s.(rejected := s.rejected + 1);
    (Noting(charged, RoundRejected), Rejected(tooling, !tooling && charged.rejected > cfg.maxRetries))
  }

  function AnchorJudges(cfg: Config, s: State, ins: RoundInput): (State, Event) {
    var (held, v) := Claimed(cfg.who, s.held, ins.claim);
    var judged := s.(held := held);
    if v.pass && !ins.runErr then
      if ins.finalWorks then (judged, Passed)
      else
        var next := Noting(judged.(rejected := s.rejected + 1), RoundRejected);
        (next, FinalFailed(next.rejected > cfg.maxRetries))
    else RejectedClaim(cfg, judged, v)
  }

  function Claim(cfg: Config, s: State, ins: RoundInput): (State, Event) {
    var claim := s.(repeats := 0, recent := []);
    var after := AfterGuards(cfg, claim, ins);
    match HoldOf(cfg, claim, ins)
    case Kept(guard) => (after, SentBack(guard))
    case Goes => AnchorJudges(cfg, after, ins)
  }

  /** A claim made while the person wrote is weighed against the message in the next round. */
  predicate ClaimsDone(cfg: Config, ins: RoundInput) {
    ins.decision.Reply? && ins.decision.done && !(cfg.depth == 0 && ins.pending)
  }

  function Step(cfg: Config, s: State, ins: RoundInput): (State, Event)
    requires cfg.maxSteps > 0
  {
    var (next, e) := NextRound(cfg, s, ins);
    if e != Progress then (next, e)
    else if ins.decision.WasCut? then (next, Cut)
    else if !Usable(ins.decision) then UnusableReply(next, ins)
    else
      var ran := RunActions(cfg, next, ins);
      if ClaimsDone(cfg, ins) then Claim(cfg, ran, ins) else ProgressRound(ran, ins)
  }

  /** What a run starts from: the journal of an earlier life of the task or of the subtasks of a goal,
      whether this turn already held a claim for its background agents, and what its claims are
      judged with. */
  function Start(cfg: Config, journal: seq<Note>, challenged: bool, held: Held): State {
    State(0, 0, 0, 0, 0, [], 0, cfg.sources, 0, 0, 0, false, 0, challenged, held, map[], journal, 0)
  }

  // ---- Whole runs.

  /** A run so far: what it holds, and what each round was. */
  datatype Run = Run(s: State, events: seq<Event>) {
    predicate Ended() {
      events != [] && Ends(events[|events| - 1])
    }
  }

  /** One round more, unless the run has ended. */
  function More(cfg: Config, r: Run, ins: RoundInput): Run
    requires cfg.maxSteps > 0
  {
    if r.Ended() then r
    else
      var (s, e) := Step(cfg, r.s, ins);
      Run(s, r.events + [e])
  }

  /** The run on these answers, one round each, up to the round that ends it. */
  function RunOn(cfg: Config, start: State, inputs: seq<RoundInput>): (r: Run)
    requires cfg.maxSteps > 0
    ensures |r.events| <= |inputs|
  {
    if inputs == [] then Run(start, [])
    else More(cfg, RunOn(cfg, start, inputs[..|inputs| - 1]), inputs[|inputs| - 1])
  }
}
