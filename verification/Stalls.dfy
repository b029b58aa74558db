/** internal/agent/loop.go: when a run that repeats itself is stopped, and when none is. */
module Stalls {
  import opened Loop
  import opened Runs
  import opened RunOutcomes

  /** A round that ran and claimed nothing. */
  predicate Acted(e: Event) {
    e == Progress || e == Stalled
  }

  /** What one round does to what the stall is judged by. */
  lemma StepStalls(cfg: Config, s: State, ins: RoundInput)
    requires cfg.maxSteps > 0
    ensures var (n, e) := Step(cfg, s, ins);
      && (Acted(e) ==>
          && n.recent == Remembered(s.recent, ins.signature)
          && n.repeats == (if Repeats(s, ins) then s.repeats + 1 else 0)
          && (e == Stalled <==> n.repeats >= STALL_STOP_AT))
      && (e.SentBack? || Validated(e) ==> n.recent == [] && n.repeats == 0)
      && (e == Cut || e == Unusable ==> n.recent == s.recent && n.repeats == s.repeats)
  {
    StepIs(cfg, s, ins);
    OpeningMoves(cfg, s, ins);
    var (next, opening) := NextRound(cfg, s, ins);
    if opening == Progress {
      var ran := AtTheClaim(cfg, s, ins);
      AtTheClaimIs(cfg, s, ins);
      hide Step, NextRound, AtTheClaim, Claim, ProgressRound, UnusableReply, NotedAll, Remembered;
      if ins.decision.WasCut? {
      } else if !Usable(ins.decision) {
      } else if ClaimsDone(cfg, ins) {
        ClaimStalls(cfg, ran, ins);
      } else {
        assert Repeats(ran, ins) == Repeats(s, ins);
      }
    }
  }

  lemma ClaimStalls(cfg: Config, s: State, ins: RoundInput)
    ensures var (n, e) := Claim(cfg, s, ins);
      n.recent == [] && n.repeats == 0 && (e.SentBack? || Validated(e))
  {
    var claim := s.(repeats := 0, recent := []);
    var after := AfterGuards(cfg, claim, ins);
    assert after.recent == [] && after.repeats == 0 by {
      hide HoldOf, AuditDue;
    }
    if HoldOf(cfg, claim, ins) == Goes {
      AnchorStalls(cfg, after, ins);
    }
    hide AfterGuards, HoldOf, AnchorJudges;
  }

  lemma AnchorStalls(cfg: Config, s: State, ins: RoundInput)
    ensures var (n, e) := AnchorJudges(cfg, s, ins);
      n.recent == s.recent && n.repeats == s.repeats && Validated(e)
  {
    hide Claims.Claimed, Anchor.MissingTooling;
  }

  // ---- The signatures of a run.

  /** The commands and output of the rounds that ran and claimed nothing. */
  function Signatures(cfg: Config, start: State, inputs: seq<RoundInput>): seq<string>
    requires cfg.maxSteps > 0
  {
    if inputs == [] then []
    else
      var init, ins := inputs[..|inputs| - 1], inputs[|inputs| - 1];
      var before := RunOn(cfg, start, init);
      Signatures(cfg, start, init) +
      if !before.Ended() && Acted(Step(cfg, before.s, ins).1) then [ins.signature] else []
  }

  function Few(n: nat): nat {
    if n < CYCLE_WINDOW then n else CYCLE_WINDOW
  }

  /** The j-th from the end. */
  function Back(s: seq<string>, j: nat): string
    requires 1 <= j <= |s|
  {
    s[|s| - j]
  }

  /** The window holds at least the last of these signatures. */
  predicate HoldsLast(recent: seq<string>, sigs: seq<string>) {
    && Few(|sigs|) <= |recent| <= CYCLE_WINDOW
    && forall j :: 1 <= j <= Few(|sigs|) ==> Back(recent, j) == Back(sigs, j)
  }

  lemma RememberedHoldsLast(recent: seq<string>, sigs: seq<string>, signature: string)
    requires HoldsLast(recent, sigs)
    ensures HoldsLast(Remembered(recent, signature), sigs + [signature])
  {
    var now, all := Remembered(recent, signature), sigs + [signature];
    forall j | 1 <= j <= Few(|all|) ensures Back(now, j) == Back(all, j) {
      if j > 1 {
        assert Back(recent, j - 1) == Back(sigs, j - 1);
      }
    }
  }

  predicate Periodic(sigs: seq<string>, p: nat) {
    forall i :: 0 <= i < |sigs| - p ==> sigs[i] == sigs[i + p]
  }

  lemma SeenAgain(recent: seq<string>, sigs: seq<string>, signature: string, p: nat)
    requires HoldsLast(recent, sigs) && 1 <= p <= CYCLE_WINDOW && p <= |sigs|
    requires Periodic(sigs + [signature], p)
    ensures signature in recent
  {
    var all, i := sigs + [signature], |sigs| - p;
    assert all[i] == all[i + p] == signature;
    assert Back(recent, p) == Back(sigs, p) == signature;
  }

  // ---- A run that repeats itself is stopped.

  predicate NoClaim(events: seq<Event>) {
    forall k :: 0 <= k < |events| ==> !events[k].SentBack? && !Validated(events[k])
  }

  /** What a run that goes round in circles holds. */
  predicate Circling(s: State, sigs: seq<string>, p: nat) {
    HoldsLast(s.recent, sigs) && s.repeats >= |sigs| - p
  }

  lemma PeriodicPrefix(sigs: seq<string>, more: seq<string>, p: nat)
    requires Periodic(sigs + more, p)
    ensures Periodic(sigs, p)
  {
    forall i | 0 <= i < |sigs| - p ensures sigs[i] == sigs[i + p] {
      assert (sigs + more)[i] == (sigs + more)[i + p];
    }
  }

  lemma {:induction false} BoundedOnwards(cfg: Config, s: State, more: seq<RoundInput>)
    requires cfg.maxSteps > 0 && Bounded(cfg, s) && !RunOn(cfg, s, more).Ended()
    ensures Bounded(cfg, RunOn(cfg, s, more).s)
  {
    hide Step, Bounded, Counts;
    if more != [] {
      var init := more[..|more| - 1];
      BoundedOnwards(cfg, s, init);
      StepKeeps(cfg, RunOn(cfg, s, init).s, more[|more| - 1]);
    }
  }

  /** From any point of a run on: while no claim intervenes and the rounds that run repeat themselves
      with a period of at most four, whatever unusable or cut replies come between, the run is
      stopped as stalled by the fourth round past the first period. */
  lemma {:induction false} RepeatingRunStops(cfg: Config, s: State, more: seq<RoundInput>, p: nat)
    requires cfg.maxSteps > 0 && Bounded(cfg, s) && 1 <= p <= CYCLE_WINDOW
    requires NoClaim(RunOn(cfg, s, more).events) && Periodic(Signatures(cfg, s, more), p)
    ensures var r, sigs := RunOn(cfg, s, more), Signatures(cfg, s, more);
      && |sigs| <= p + 4
      && (|sigs| == p + 4 ==> r.events != [] && r.events[|r.events| - 1] == Stalled)
      && (!r.Ended() ==> Circling(r.s, sigs, p))
  {
    if more == [] {
    } else {
      var init, ins := more[..|more| - 1], more[|more| - 1];
      var before, sigs := RunOn(cfg, s, init), Signatures(cfg, s, init);
      hide Step, Periodic, Circling, Bounded;
      NoClaimBefore(cfg, before, ins);
      PeriodicPrefix(sigs, Signatures(cfg, s, more)[|sigs|..], p) by {
      assert Signatures(cfg, s, more) == sigs + Signatures(cfg, s, more)[|sigs|..];
    }
      RepeatingRunStops(cfg, s, init, p);
      assert sigs + [] == sigs;
      if !before.Ended() {
        BoundedOnwards(cfg, s, init);
        hide NoClaim;
        assert var (n, e) := Step(cfg, before.s, ins);
          && |sigs| < p + 4
          && (!Ends(e) ==> Circling(n, if Acted(e) then sigs + [ins.signature] else sigs, p))
          && (Acted(e) && |sigs| == p + 3 ==> e == Stalled) by {
          StepStalls(cfg, before.s, ins);
          hide Step;
          RememberedHoldsLast(before.s.recent, sigs, ins.signature);
          if Acted(Step(cfg, before.s, ins).1) && |sigs| >= p {
            SeenAgain(before.s.recent, sigs, ins.signature, p);
          }
          hide HoldsLast, Remembered;
        }
      }
    }
  }

  lemma NoClaimBefore(cfg: Config, r: Run, ins: RoundInput)
    requires cfg.maxSteps > 0 && NoClaim(More(cfg, r, ins).events)
    ensures NoClaim(r.events)
    ensures !r.Ended() ==> var e := Step(cfg, r.s, ins).1; !e.SentBack? && !Validated(e)
  {
    hide Step;
    var after := More(cfg, r, ins).events;
    assert forall k :: 0 <= k < |r.events| ==> r.events[k] == after[k];
    assert !r.Ended() ==> after[|r.events|] == Step(cfg, r.s, ins).1;
  }

  /** A run goes on from where it is. */
  lemma {:induction false} RunGoesOn(cfg: Config, start: State, inputs: seq<RoundInput>, more: seq<RoundInput>)
    requires cfg.maxSteps > 0 && !RunOn(cfg, start, inputs).Ended()
    ensures var r := RunOn(cfg, start, inputs);
      RunOn(cfg, start, inputs + more) == Onwards(r, RunOn(cfg, r.s, more))
  {
    var r := RunOn(cfg, start, inputs);
    if more == [] {
      assert inputs + more == inputs && r.events + [] == r.events;
    } else {
      var init, ins, all := more[..|more| - 1], more[|more| - 1], inputs + more;
      LastRound(cfg, start, all);
      LastRound(cfg, r.s, more);
      hide *;
      RunGoesOn(cfg, start, inputs, init);
      assert all[..|all| - 1] == inputs + init && all[|all| - 1] == ins;
      MoreOnwards(cfg, r, RunOn(cfg, r.s, init), ins);
    }
  }

  function Onwards(r: Run, on: Run): Run {
    Run(on.s, r.events + on.events)
  }

  lemma MoreOnwards(cfg: Config, r: Run, on: Run, ins: RoundInput)
    requires cfg.maxSteps > 0 && !r.Ended()
    ensures More(cfg, Onwards(r, on), ins) == Onwards(r, More(cfg, on, ins))
  {
    hide Step;
    if on.events == [] {
      assert r.events + [] == r.events;
    }
    var e := Step(cfg, on.s, ins).1;
    assert r.events + (on.events + [e]) == r.events + on.events + [e];
  }

  // ---- A run that keeps doing something new is not.

  /** No round does and prints what one of the four before it did. */
  predicate AllNew(sigs: seq<string>) {
    forall i, j :: 0 <= j < i < |sigs| && i - j <= CYCLE_WINDOW ==> sigs[j] != sigs[i]
  }

  /** Every round that was answered from memory ran something too. */
  predicate RunsSomething(inputs: seq<RoundInput>) {
    forall k :: 0 <= k < |inputs| && inputs[k].recalled > 0 ==> inputs[k].executed > 0
  }

  /** The window holds nothing but the last of these signatures. */
  predicate Within(recent: seq<string>, sigs: seq<string>) {
    && |recent| <= |sigs| && |recent| <= CYCLE_WINDOW
    && forall j :: 1 <= j <= |recent| ==> Back(recent, j) == Back(sigs, j)
  }

  lemma RememberedWithin(recent: seq<string>, sigs: seq<string>, signature: string)
    requires Within(recent, sigs)
    ensures Within(Remembered(recent, signature), sigs + [signature])
  {
    var now, all := Remembered(recent, signature), sigs + [signature];
    forall j | 1 <= j <= |now| ensures Back(now, j) == Back(all, j) {
      if j > 1 {
        assert Back(recent, j - 1) == Back(sigs, j - 1);
      }
    }
  }

  lemma AllNewPrefix(sigs: seq<string>, more: seq<string>)
    requires AllNew(sigs + more)
    ensures AllNew(sigs)
  {
    forall i, j | 0 <= j < i < |sigs| && i - j <= CYCLE_WINDOW ensures sigs[j] != sigs[i] {
      assert (sigs + more)[j] != (sigs + more)[i];
    }
  }

  lemma OneMoreNew(cfg: Config, s: State, ins: RoundInput, sigs: seq<string>)
    requires cfg.maxSteps > 0 && Within(s.recent, sigs) && s.repeats == 0
    requires ins.recalled > 0 ==> ins.executed > 0
    requires Acted(Step(cfg, s, ins).1) ==> AllNew(sigs + [ins.signature])
    ensures var (n, e) := Step(cfg, s, ins);
      && e != Stalled
      && (!Ends(e) ==> n.repeats == 0 && Within(n.recent, if Acted(e) then sigs + [ins.signature] else sigs))
  {
    StepStalls(cfg, s, ins);
    hide Step;
    RememberedWithin(s.recent, sigs, ins.signature);
    if Acted(Step(cfg, s, ins).1) {
      assert ins.signature !in s.recent by {
        var all := sigs + [ins.signature];
        forall i | 0 <= i < |s.recent| ensures s.recent[i] != ins.signature {
          var j := |s.recent| - i;
          assert Back(s.recent, j) == Back(sigs, j);
          assert all[|sigs| - j] != all[|sigs|];
        }
      }
    }
    assert Within([], sigs);
    hide Within, Remembered;
  }

  /** A run whose every round differs from the four before it, and runs something whenever it was
      answered from memory, is never stopped as stalled. */
  lemma {:induction false} NewRunNeverStalls(cfg: Config, start: State, inputs: seq<RoundInput>)
    requires cfg.maxSteps > 0 && Fresh(start)
    requires AllNew(Signatures(cfg, start, inputs)) && RunsSomething(inputs)
    ensures var r := RunOn(cfg, start, inputs);
      && Stalled !in r.events
      && (!r.Ended() ==> r.s.repeats == 0 && Within(r.s.recent, Signatures(cfg, start, inputs)))
  {
    if inputs == [] {
    } else {
      var init, ins := inputs[..|inputs| - 1], inputs[|inputs| - 1];
      var before, sigs := RunOn(cfg, start, init), Signatures(cfg, start, init);
      hide Step, AllNew, Within, Fresh;
      AllNewPrefix(sigs, Signatures(cfg, start, inputs)[|sigs|..]) by {
      assert Signatures(cfg, start, inputs) == sigs + Signatures(cfg, start, inputs)[|sigs|..];
    }
      NewRunNeverStalls(cfg, start, init);
      if !before.Ended() {
        assert sigs + [] == sigs;
        OneMoreNew(cfg, before.s, ins, sigs);
      } else {
        assert sigs + [] == sigs;
      }
    }
  }
}
