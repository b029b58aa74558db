/** internal/agent/subagents.go: the verdict on a claim of done, and the gate a task is held to. */
module Claims {
  import opened Anchor
  import opened Approvals

  /** What the outside answers while one claim is judged: what each check of the gate gives, whether
      the tree the run started from can be checked out, the gate and the number of tests as they are
      now, and what the person says of a gate that changed. */
  datatype Inputs = Inputs(
    kindIsNone: bool, ran: seq<CheckLog>, vacuous: bool, checkoutWorks: bool,
    gateNow: string, testsNow: int, approval: Approval)

  /** What a claim is judged with: the gate as the task found it (empty when none was fingerprinted),
      the tests it declared, and what is known of the baseline. */
  datatype Held = Held(gate: string, gateTests: int, known: Baseline)

  /** Who claims: a read-only agent, a background agent, and what the gate gives on the tree the run
      started from, when that tree was kept. */
  datatype Claimant = Claimant(research: bool, isChild: bool, hasBaseline: bool, startGate: seq<CheckLog>)

  function PassWith(v: Verdict, pass: bool): Verdict {
    v.(pass := pass)
  }

  const TAKEN_AS_IT_IS := Verdict(true, [], [], false, false)
  const DONE_NOT_VERIFIED := Verdict(true, [], [], true, true)

  predicate GateUnchanged(h: Held, ins: Inputs) {
    ins.gateNow == h.gate && ins.testsNow >= h.gateTests
  }

  /** A PASS from a gate that changed during the task is put to the person. */
  function Guarded(h: Held, v: Verdict, ins: Inputs): (Held, Verdict) {
    if !v.pass || h.gate == "" || GateUnchanged(h, ins) then (h, v)
    else if ins.approval.Approved? then (h.(gate := ins.gateNow, gateTests := ins.testsNow), v)
    else (h, PassWith(v, false))
  }

  function Claimed(who: Claimant, h: Held, ins: Inputs): (Held, Verdict) {
    if who.research then (h, TAKEN_AS_IT_IS)
    else
      var v := VerdictOf(ins.kindIsNone, ins.ran, ins.vacuous);
      if who.isChild && !v.pass && v.checks == [] then (h, TAKEN_AS_IT_IS)
      else if v.noGate then Guarded(h, DONE_NOT_VERIFIED, ins)
      else if !who.hasBaseline then Guarded(h, v, ins)
      else
        var (known, judged) := LazilyJudged(who.startGate, h.known, v, ins.checkoutWorks);
        Guarded(h.(known := known), judged, ins)
  }

  /** The checks that ran pass, or those that fail fail as they did before the run. */
  predicate ChecksHold(who: Claimant, known: Baseline, ins: Inputs) {
    && !ins.kindIsNone
    && (AllPass(ins.ran) || (who.hasBaseline && AllOld(known, ins.ran)))
  }

  predicate GateHeld(h: Held, ins: Inputs) {
    h.gate == "" || GateUnchanged(h, ins) || ins.approval.Approved?
  }

  /** A claim passes exactly when the agent is read-only, or it is a background agent with no check to
      run, or there is no gate (which is said to be unverified) or its checks all pass or fail as on
      the baseline: and, in the last two cases, the gate is the one the task found, or the person
      approved the new one. */
  lemma ClaimPasses(who: Claimant, h: Held, ins: Inputs)
    ensures var (after, v) := Claimed(who, h, ins);
      v.pass <==>
        || who.research
        || (who.isChild && (ins.kindIsNone || ins.ran == []))
        || (GateHeld(h, ins) && ((!ins.kindIsNone && ins.ran == []) || ChecksHold(who, after.known, ins)))
  {
    var v := VerdictOf(ins.kindIsNone, ins.ran, ins.vacuous);
    if !who.research && v.checks != [] && who.hasBaseline {
      var (known, judged) := LazilyJudged(who.startGate, h.known, v, ins.checkoutWorks);
      JudgedPasses(v, known);
      hide Judged, AllOld, AllPass;
    }
  }

  /** A PASS with no check behind it says so, or is a background or read-only agent's. */
  lemma NoCheckIsSaid(who: Claimant, h: Held, ins: Inputs)
    requires Claimed(who, h, ins).1.pass && !who.research && !who.isChild && ins.ran == []
    ensures Claimed(who, h, ins).1.unverified && Claimed(who, h, ins).1.noGate
  {
  }

  /** Judging a claim keeps what is known true of the tree the run started from, moves the gate only
      to one the person approved, and never passes what the whole baseline would not pass. */
  lemma ClaimKeeps(who: Claimant, h: Held, ins: Inputs)
    requires PartOf(h.known, WholeGate(who.startGate))
    ensures var (after, v) := Claimed(who, h, ins);
      && PartOf(after.known, WholeGate(who.startGate))
      && (after.gate != h.gate || after.gateTests != h.gateTests ==>
          v.pass && ins.approval.Approved? && after.gate == ins.gateNow && after.gateTests == ins.testsNow)
      && (v.pass && who.hasBaseline && v.checks != [] ==>
          AllPass(ins.ran) || AllOld(WholeGate(who.startGate), ins.ran))
  {
    var v := VerdictOf(ins.kindIsNone, ins.ran, ins.vacuous);
    LazilyJudgedIsJudged(who.startGate, h.known, v, ins.checkoutWorks);
    JudgedPasses(v, WholeGate(who.startGate));
    hide Judged, AllOld, AllPass, WholeGate;
  }

  /** The part of an agent that judges its claims. */
  class Judge {
    const who: Claimant
    const before: RunBaseline?
    var gate: string
    var gateTests: int

    ghost predicate Valid()
      reads this, before
    {
      && (before != null <==> who.hasBaseline)
      && (before != null ==> before.Valid() && before.gate == who.startGate)
    }

    ghost function Holds(): Held
      reads this, before
    {
      Held(gate, gateTests, if before == null then map[] else before.known)
    }

    constructor (who: Claimant, before: RunBaseline?, gate: string, gateTests: int)
      requires before != null <==> who.hasBaseline
      requires before != null ==> before.Valid() && before.gate == who.startGate
      ensures Valid() && this.who == who && this.before == before
      ensures this.gate == gate && this.gateTests == gateTests
    {
      this.who, this.before, this.gate, this.gateTests := who, before, gate, gateTests;
    }

    method GuardGate(v: Verdict, ins: Inputs) returns (r: Verdict)
      modifies this`gate, this`gateTests
      ensures (Holds(), r) == Guarded(old(Holds()), v, ins)
    {
      if !v.pass || gate == "" {
        return v;
      }
      if ins.gateNow == gate && ins.testsNow >= gateTests {
        return v;
      }
      if ins.approval.Approved? {
        gate, gateTests := ins.gateNow, ins.testsNow;
        return v;
      }
      r := PassWith(v, false);
    }

    method ValidateClaim(ins: Inputs) returns (r: Verdict)
      requires Valid()
      modifies this`gate, this`gateTests, before
      ensures Valid()
      ensures (Holds(), r) == Claimed(who, old(Holds()), ins)
    {
      hide LazilyJudged, VerdictOf;
      if who.research {
        return TAKEN_AS_IT_IS;
      }
      var v := Validate(ins.kindIsNone, ins.ran, ins.vacuous);
      if who.isChild && !v.pass && |v.checks| == 0 {
        return TAKEN_AS_IT_IS;
      }
      if v.noGate {
        r := GuardGate(DONE_NOT_VERIFIED, ins);
        return;
      }
      if before != null {
        v := before.Judge(v, ins.checkoutWorks);
      }
      r := GuardGate(v, ins);
    }
  }
}
