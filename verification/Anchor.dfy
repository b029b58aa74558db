/** internal/anchor/anchor.go and internal/agent/baseline.go: the verdict of the checks, and a failed
    one judged against how the same checks did before the run changed anything. */
module Anchor {

  // ---- Records and verdicts.

  /** One check that ran. `missingTool` says its output reports a program or module that is not
      installed; `failures` and `failCounts` are what its whole output said failed. */
  datatype CheckLog = CheckLog(
    name: string, exit: int, pass: bool, truncated: bool, missingTool: bool,
    failures: seq<string>, failCounts: map<string, seq<int>>,
    preExisting: bool, passedBefore: bool)

  datatype Verdict = Verdict(
    pass: bool, checks: seq<CheckLog>, preExisting: seq<string>, noGate: bool, unverified: bool)

  predicate AllPass(checks: seq<CheckLog>) {
    forall i :: 0 <= i < |checks| ==> checks[i].pass
  }

  function VerdictOf(kindIsNone: bool, ran: seq<CheckLog>, vacuous: bool): Verdict {
    var pass := !kindIsNone && ran != [] && AllPass(ran);
    Verdict(pass, if kindIsNone then [] else ran, [], !kindIsNone && ran == [], pass && vacuous)
  }

  /** Validate: without a gate there is no PASS, and with one every check has to pass. `vacuous` says
      the gate is a bare test command over a tree with no tests. */
  method Validate(kindIsNone: bool, ran: seq<CheckLog>, vacuous: bool) returns (v: Verdict)
    ensures v == VerdictOf(kindIsNone, ran, vacuous)
  {
    if kindIsNone {
      return Verdict(false, [], [], false, false);
    }
    if |ran| == 0 {
      return Verdict(false, [], [], true, false);
    }
    var pass, checks := true, [];
    for i := 0 to |ran|
      invariant checks == ran[..i]
      invariant pass <==> AllPass(ran[..i])
    {
      checks := checks + [ran[i]];
      if !ran[i].pass {
        pass := false;
      }
    }
    assert ran[..|ran|] == ran;
    v := Verdict(pass, checks, [], false, pass && vacuous);
  }

  /** The names of the checks that did not pass, in order. */
  function Failing(checks: seq<CheckLog>): seq<string> {
    if checks == [] then []
    else
      var c := checks[|checks| - 1];
      Failing(checks[..|checks| - 1]) + if c.pass then [] else [c.name]
  }

  lemma {:induction false} FailingAreTheFailed(checks: seq<CheckLog>)
    ensures forall n :: n in Failing(checks) <==>
      exists i :: 0 <= i < |checks| && !checks[i].pass && checks[i].name == n
    ensures Failing(checks) == [] <==> AllPass(checks)
  {
    if checks != [] {
      FailingAreTheFailed(checks[..|checks| - 1]);
    }
  }

  /** Every failing check misses a tool, and there is one. */
  predicate MissingTooling(checks: seq<CheckLog>) {
    && !AllPass(checks)
    && forall i :: 0 <= i < |checks| && !checks[i].pass ==> checks[i].missingTool
  }

  // ---- The same failure as before.

  function CountsOf(log: CheckLog, key: string): seq<int> {
    if key in log.failCounts then log.failCounts[key] else []
  }

  predicate NoMore(before: seq<int>, now: seq<int>) {
    |now| <= |before| && forall i :: 0 <= i < |now| ==> now[i] <= before[i]
  }

  /** None of the counts grew. */
  predicate CountsWithin(before: CheckLog, now: CheckLog) {
    forall key :: key in now.failCounts ==> NoMore(CountsOf(before, key), now.failCounts[key])
  }

  predicate SameFailure(before: CheckLog, now: CheckLog) {
    && before.exit == now.exit && !before.truncated && !now.truncated && now.exit >= 0
    && CountsWithin(before, now)
    && forall line :: line in now.failures ==> line in before.failures
  }

  lemma SameFailureIsTransitive(a: CheckLog, b: CheckLog, c: CheckLog)
    requires SameFailure(a, b) && SameFailure(b, c)
    ensures SameFailure(a, c)
  {
    forall key | key in c.failCounts ensures NoMore(CountsOf(a, key), c.failCounts[key]) {
      assert NoMore(CountsOf(b, key), c.failCounts[key]);
      assert key in b.failCounts ==> NoMore(CountsOf(a, key), b.failCounts[key]);
    }
  }

  /** A record is the same failure as itself exactly when its output was whole and the check ended by
      itself. */
  lemma SameFailureAsItself(log: CheckLog)
    ensures SameFailure(log, log) <==> !log.truncated && log.exit >= 0
  {
    assert forall key :: key in log.failCounts ==> NoMore(CountsOf(log, key), log.failCounts[key]);
  }

  /** Two records each the same failure as the other print the same failures, counted alike. */
  lemma SameFailureBothWays(a: CheckLog, b: CheckLog, key: string)
    requires SameFailure(a, b) && SameFailure(b, a)
    ensures CountsOf(a, key) == CountsOf(b, key)
    ensures forall line :: line in a.failures <==> line in b.failures
  {
    var x, y := CountsOf(a, key), CountsOf(b, key);
    assert key in a.failCounts ==> NoMore(y, x);
    assert key in b.failCounts ==> NoMore(x, y);
  }

  // ---- Judging a failed verdict against a baseline.

  type Baseline = map<string, CheckLog>

  /** A failing check that failed the same way before the run. */
  predicate Old(before: Baseline, c: CheckLog) {
    !c.pass && c.name in before && !before[c.name].pass && SameFailure(before[c.name], c)
  }

  predicate Broken(before: Baseline, c: CheckLog) {
    !c.pass && c.name in before && before[c.name].pass
  }

  function Mark(before: Baseline, c: CheckLog): CheckLog {
    if Old(before, c) then c.(preExisting := true)
    else if Broken(before, c) then c.(passedBefore := true)
    else c
  }

  function Marked(before: Baseline, checks: seq<CheckLog>): (r: seq<CheckLog>)
    ensures |r| == |checks| && forall i :: 0 <= i < |r| ==> r[i] == Mark(before, checks[i])
  {
    seq(|checks|, i requires 0 <= i < |checks| => Mark(before, checks[i]))
  }

  function OldNames(before: Baseline, checks: seq<CheckLog>): seq<string> {
    if checks == [] then []
    else
      var c := checks[|checks| - 1];
      OldNames(before, checks[..|checks| - 1]) + if Old(before, c) then [c.name] else []
  }

  predicate AllOld(before: Baseline, checks: seq<CheckLog>) {
    forall i :: 0 <= i < |checks| && !checks[i].pass ==> Old(before, checks[i])
  }

  function Judged(v: Verdict, before: Baseline): Verdict {
    if v.pass then v
    else v.(
      pass := AllOld(before, v.checks) && OldNames(before, v.checks) != [],
      checks := Marked(before, v.checks),
      preExisting := OldNames(before, v.checks))
  }

  lemma NoneJudged(before: Baseline)
    ensures AllOld(before, []) && OldNames(before, []) == []
  {
  }

  lemma OneMoreJudged(before: Baseline, checks: seq<CheckLog>, i: nat)
    requires i < |checks|
    ensures AllOld(before, checks[..i + 1]) <==> AllOld(before, checks[..i]) && (checks[i].pass || Old(before, checks[i]))
    ensures OldNames(before, checks[..i + 1])
         == OldNames(before, checks[..i]) + if Old(before, checks[i]) then [checks[i].name] else []
  {
    hide Old;
    assert checks[..i + 1][..i] == checks[..i];
  }

  /** WithBaseline: the records are marked where they are. */
  method WithBaseline(v: Verdict, records: array<CheckLog>, before: Baseline) returns (r: Verdict)
    requires records[..] == v.checks
    modifies records
    ensures records[..] == Judged(v, before).checks
    ensures r == Judged(v, before)
  {
    hide SameFailure, AllOld, OldNames;
    if v.pass {
      return v;
    }
    assert AllOld(before, v.checks[..0]) && OldNames(before, v.checks[..0]) == [] by { NoneJudged(before); }
    var allOld, old_: seq<string> := true, [];
    assert forall j :: 0 <= j < records.Length ==> records[j] == records[..][j];
    for i := 0 to records.Length
      invariant forall j :: i <= j < records.Length ==> records[j] == v.checks[j]
      invariant forall j :: 0 <= j < i ==> records[j] == Mark(before, v.checks[j])
      invariant allOld <==> AllOld(before, v.checks[..i])
      invariant old_ == OldNames(before, v.checks[..i])
    {
      var c := records[i];
      assert c == v.checks[i];
      OneMoreJudged(before, v.checks, i);
      if c.pass {
        continue;
      }
      if c.name in before && !before[c.name].pass && SameFailure(before[c.name], c) {
        records[i] := c.(preExisting := true);
        old_ := old_ + [c.name];
      } else if c.name in before && !before[c.name].pass {
        allOld := false;
      } else if c.name in before {
        records[i] := c.(passedBefore := true);
        allOld := false;
      } else {
        allOld := false;
      }
    }
    assert v.checks[..records.Length] == v.checks;
    assert records[..] == Marked(before, v.checks);
    r := v.(checks := records[..], preExisting := old_, pass := allOld && |old_| != 0);
  }

  lemma {:induction false} OldNamesAreTheOld(before: Baseline, checks: seq<CheckLog>)
    ensures OldNames(before, checks) == [] <==> forall i :: 0 <= i < |checks| ==> !Old(before, checks[i])
  {
    hide Old;
    if checks != [] {
      OldNamesAreTheOld(before, checks[..|checks| - 1]);
    }
  }

  /** A verdict passes once judged exactly when it passed already, or some check failed and every one
      that did fails the same way it failed before. */
  lemma JudgedPasses(v: Verdict, before: Baseline)
    ensures Judged(v, before).pass <==>
      v.pass || (!AllPass(v.checks) && AllOld(before, v.checks))
  {
    hide SameFailure;
    OldNamesAreTheOld(before, v.checks);
  }

  /** Judging again changes nothing. */
  lemma JudgedTwice(v: Verdict, before: Baseline)
    ensures Judged(Judged(v, before), before) == Judged(v, before)
  {
    hide SameFailure;
    var once := Marked(before, v.checks);
    forall i | 0 <= i < |once| ensures Old(before, once[i]) == Old(before, v.checks[i]) && Mark(before, once[i]) == once[i] {
      MarkTwice(before, v.checks[i]);
    }
    OldNamesAgree(before, once, v.checks);
    assert Marked(before, once) == once;
  }

  lemma MarkTwice(before: Baseline, c: CheckLog)
    ensures Old(before, Mark(before, c)) == Old(before, c)
    ensures Mark(before, Mark(before, c)) == Mark(before, c)
    ensures Mark(before, c).name == c.name && Mark(before, c).pass == c.pass
  {
    var marked := Mark(before, c);
    if c.name in before {
      var there := before[c.name];
      assert CountsWithin(there, c) <==> CountsWithin(there, marked);
      assert SameFailure(there, c) <==> SameFailure(there, marked);
    }
  }

  lemma {:induction false} OldNamesAgree(before: Baseline, a: seq<CheckLog>, b: seq<CheckLog>)
    requires |a| == |b| && forall i :: 0 <= i < |a| ==> Old(before, a[i]) == Old(before, b[i]) && a[i].name == b[i].name
    ensures OldNames(before, a) == OldNames(before, b)
  {
    hide Old;
    if a != [] {
      OldNamesAgree(before, a[..|a| - 1], b[..|b| - 1]);
    }
  }

  // ---- Running only some of the checks again.

  /** The records of the checks of a gate that are asked for, by name. */
  function RerunOf(gate: seq<CheckLog>, want: set<string>): Baseline {
    if gate == [] then map[]
    else
      var c, ran := gate[|gate| - 1], RerunOf(gate[..|gate| - 1], want);
      if c.name in want then ran[c.name := c] else ran
  }

  method Rerun(gate: seq<CheckLog>, names: seq<string>) returns (ran: Baseline)
    ensures ran == RerunOf(gate, set n | n in names)
  {
    var want: set<string> := {};
    for i := 0 to |names|
      invariant want == set n | n in names[..i]
    {
      want := want + {names[i]};
      assert names[..i + 1] == names[..i] + [names[i]];
    }
    assert names[..|names|] == names;
    ran := map[];
    for i := 0 to |gate|
      invariant ran == RerunOf(gate[..i], want)
    {
      assert gate[..i + 1][..i] == gate[..i];
      if gate[i].name in want {
        ran := ran[gate[i].name := gate[i]];
      }
    }
    assert gate[..|gate|] == gate;
  }

  /** What the whole gate gives. */
  function WholeGate(gate: seq<CheckLog>): Baseline {
    RerunOf(gate, set c | c in gate :: c.name)
  }

  /** Running some of the checks gives what running all of them gives, for those. */
  lemma {:induction false} RerunIsPartOfAll(gate: seq<CheckLog>, some: set<string>, all: set<string>)
    requires forall n :: n in some && (exists i :: 0 <= i < |gate| && gate[i].name == n) ==> n in all
    ensures RerunOf(gate, some) == map n | n in RerunOf(gate, all) && n in some :: RerunOf(gate, all)[n]
  {
    if gate != [] {
      var init, c := gate[..|gate| - 1], gate[|gate| - 1];
      assert gate[|gate| - 1].name == c.name;
      RerunIsPartOfAll(init, some, all);
    }
  }

  // ---- The baseline of a run, measured lazily.

  predicate PartOf(known: Baseline, there: Baseline) {
    forall n :: n in known ==> n in there && known[n] == there[n]
  }

  /** Every failing check the whole baseline has is known. */
  predicate Covered(v: Verdict, known: Baseline, there: Baseline) {
    forall i :: 0 <= i < |v.checks| && !v.checks[i].pass && v.checks[i].name in there ==> v.checks[i].name in known
  }

  /** Only the failing checks are looked up. */
  lemma JudgedLazily(v: Verdict, known: Baseline, there: Baseline)
    requires PartOf(known, there) && Covered(v, known, there)
    ensures Judged(v, known) == Judged(v, there)
  {
    hide SameFailure;
    var checks := v.checks;
    forall i | 0 <= i < |checks|
      ensures Old(known, checks[i]) == Old(there, checks[i]) && Broken(known, checks[i]) == Broken(there, checks[i])
    {
      if !checks[i].pass && checks[i].name in there {
        assert checks[i].name in known;
      }
    }
    assert Marked(known, checks) == Marked(there, checks);
    OldNamesAcross(known, there, checks);
  }

  lemma {:induction false} OldNamesAcross(a: Baseline, b: Baseline, checks: seq<CheckLog>)
    requires forall i :: 0 <= i < |checks| ==> Old(a, checks[i]) == Old(b, checks[i])
    ensures OldNames(a, checks) == OldNames(b, checks)
  {
    hide Old;
    if checks != [] {
      OldNamesAcross(a, b, checks[..|checks| - 1]);
    }
  }

  /** A baseline that measured less never passes more. */
  lemma MeasuringLessPassesLess(v: Verdict, known: Baseline, there: Baseline)
    requires PartOf(known, there)
    ensures Judged(v, known).pass ==> Judged(v, there).pass
  {
    hide SameFailure;
    JudgedPasses(v, known);
    JudgedPasses(v, there);
  }

  /** Nothing measured changes no verdict. */
  lemma NothingMeasured(v: Verdict)
    ensures Judged(v, map[]).pass == v.pass && Judged(v, map[]).checks == v.checks
  {
    JudgedPasses(v, map[]);
  }

  /** The names of the failing checks that have not been measured. */
  function Unknown(known: Baseline, v: Verdict): set<string> {
    set c | c in v.checks && !c.pass && c.name !in known :: c.name
  }

  /** A verdict judged with what is known and what is measured now: the failing checks not known yet,
      when a checkout can be made. */
  function LazilyJudged(gate: seq<CheckLog>, known: Baseline, v: Verdict, checkoutWorks: bool): (Baseline, Verdict) {
    if v.pass then (known, v)
    else
      var now := if checkoutWorks then known + RerunOf(gate, Unknown(known, v)) else known;
      (now, Judged(v, now))
  }

  /** What is judged with the checks measured so far is what the whole baseline would have judged; a
      checkout that fails never passes more than that, and leaves what is known as it was. */
  lemma LazilyJudgedIsJudged(gate: seq<CheckLog>, known: Baseline, v: Verdict, checkoutWorks: bool)
    requires PartOf(known, WholeGate(gate))
    ensures var r := LazilyJudged(gate, known, v, checkoutWorks);
      && PartOf(r.0, WholeGate(gate)) && PartOf(known, r.0)
      && (checkoutWorks ==> r.1 == Judged(v, WholeGate(gate)))
      && (!checkoutWorks ==> r.0 == known)
      && (r.1.pass ==> Judged(v, WholeGate(gate)).pass)
  {
    var there := WholeGate(gate);
    RerunIsPartOfAll(gate, Unknown(known, v), set c | c in gate :: c.name);
    hide RerunOf, Judged;
    var r := LazilyJudged(gate, known, v, checkoutWorks);
    if v.pass {
      assert Judged(v, there) == v;
    } else {
      if checkoutWorks {
        JudgedLazily(v, r.0, there);
      }
      MeasuringLessPassesLess(v, r.0, there);
    }
  }

  lemma UnknownAre(v: Verdict, known: Baseline, unknown: seq<string>)
    requires forall n :: n in unknown <==> n in Failing(v.checks) && n !in known
    ensures (set n | n in unknown) == Unknown(known, v)
    ensures unknown == [] ==> Unknown(known, v) == {}
  {
    FailingAreTheFailed(v.checks);
    hide Failing;
    forall n ensures n in unknown <==> n in Unknown(known, v) {
      if n in unknown {
        var i :| 0 <= i < |v.checks| && !v.checks[i].pass && v.checks[i].name == n;
        assert v.checks[i] in v.checks;
      }
    }
    assert unknown == [] ==> forall n :: n !in Unknown(known, v);
  }

  lemma {:induction false} RerunOfNone(gate: seq<CheckLog>)
    ensures RerunOf(gate, {}) == map[]
  {
    if gate != [] {
      RerunOfNone(gate[..|gate| - 1]);
    }
  }

  /** One run's record of the tree it started from: `gate` is what its checks give there, each time
      they are run, and `known` what has been measured so far. */
  class RunBaseline {
    const gate: seq<CheckLog>
    var known: Baseline

    ghost predicate Valid()
      reads this
    {
      PartOf(known, WholeGate(gate))
    }

    constructor (gate: seq<CheckLog>)
      ensures Valid() && this.gate == gate && known == map[]
    {
      this.gate := gate;
      known := map[];
    }

    /** Run the named checks on a checkout of the tree the run started from, if it can be made. */
    method Measure(names: seq<string>, checkoutWorks: bool)
      requires Valid()
      modifies this`known
      ensures Valid()
      ensures known == if checkoutWorks then old(known) + RerunOf(gate, set n | n in names) else old(known)
    {
      if !checkoutWorks {
        return;
      }
      RerunIsPartOfAll(gate, set n | n in names, set c | c in gate :: c.name);
      var ran := Rerun(gate, names);
      hide RerunOf;
      known := known + ran;
    }

    method UnknownFailing(v: Verdict) returns (unknown: seq<string>)
      ensures (set n | n in unknown) == Unknown(known, v)
      ensures unknown == [] ==> Unknown(known, v) == {}
    {
      hide Failing, Unknown;
      var failing := Failing(v.checks);
      unknown := [];
      for i := 0 to |failing|
        invariant forall n :: n in unknown <==> n in failing[..i] && n !in known
      {
        if failing[i] !in known {
          unknown := unknown + [failing[i]];
        }
        assert failing[..i + 1] == failing[..i] + [failing[i]];
      }
      assert failing[..|failing|] == failing;
      UnknownAre(v, known, unknown);
    }

    method Judge(v: Verdict, checkoutWorks: bool) returns (r: Verdict)
      requires Valid()
      modifies this`known
      ensures Valid()
      ensures (known, r) == LazilyJudged(gate, old(known), v, checkoutWorks)
    {
      hide Judged, RerunOf, Unknown, WholeGate;
      if v.pass {
        return v;
      }
      var unknown := UnknownFailing(v);
      RerunOfNone(gate);
      if |unknown| > 0 {
        Measure(unknown, checkoutWorks);
      }
      assert known == if checkoutWorks then old(known) + RerunOf(gate, Unknown(old(known), v)) else old(known);
      var records := new CheckLog[|v.checks|](i requires 0 <= i < |v.checks| => v.checks[i]);
      assert records[..] == v.checks;
      r := WithBaseline(v, records, known);
    }
  }
}
