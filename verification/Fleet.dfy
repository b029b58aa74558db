/** internal/agent/fleet.go: the agents of a run and the snapshots the interfaces draw, published by
    several threads at once. One move is what a thread does while it holds the fleet's lock, or
    between two of its locks; a run is any sequence of moves. */
module Fleet {

  // ---- The fleet.

  /** One agent of the run, as a snapshot shows it. */
  datatype Member = Member(id: nat, hasParent: bool, running: bool, round: nat, activity: string, summary: string)

  type Members = seq<Member>

  /** What a thread is in the middle of: deciding what a change is worth, waiting for the lock that
      orders publications, holding it, or handing over a snapshot it took. */
  datatype Doing = Idle | Changed | ToPublish | Holding | Emitting(version: nat)

  /** How far the call that closes the fleet is. */
  datatype Stage = Open | Stopping | LastLook | Shut

  datatype Owner = Nobody | Thread(id: nat)

  const CLOSER: nat := 0
  const TICKER: nat := 1

  /** `history` is every list of members there was, `taken` and `published` the versions of it that were
      taken and handed over, in order. The last two fields remember the moment of closing. */
  datatype State = State(
    history: seq<Members>, spawned: bool, tokens: bool,
    timerSet: bool, closed: bool, stage: Stage, tickerDone: bool,
    threads: map<nat, Doing>, owner: Owner,
    taken: seq<nat>, published: seq<nat>,
    takenAtClose: nat, publishedAtClose: nat)

  const START := State([[]], false, false, false, false, Open, false, map[], Nobody, [], [], 0, 0)

  function DoingOf(s: State, t: nat): Doing {
    if t in s.threads then s.threads[t] else Idle
  }

  function Version(s: State): int {
    |s.history| - 1
  }

  /** Something to show: an agent of the run's own, or tokens. */
  predicate Worth(s: State) {
    s.spawned || s.tokens
  }

  predicate AnyRunning(members: Members) {
    exists i :: 0 <= i < |members| && members[i].running
  }

  // ---- The moves.

  datatype Move =
    | Add(t: nat, member: Member)
    | Update(t: nat, i: nat, member: Member)
    | Spend
    | Decide(t: nat, mustWait: bool)
    | Fire(t: nat)
    | Tick
    | TickerStops
    | Lock(t: nat)
    | Look(t: nat)
    | Deliver(t: nat)
    | CloseStop
    | CloseLook
    | CloseSet

  predicate Worker(s: State, t: nat) {
    t != CLOSER && t != TICKER && DoingOf(s, t) == Idle
  }

  predicate Enabled(s: State, m: Move)
    requires s.history != []
  {
    match m
    case Add(t, _) => Worker(s, t)
    case Update(t, i, member) =>
      && Worker(s, t) && i < |s.history[Version(s)]|
      && member.id == s.history[Version(s)][i].id && member.hasParent == s.history[Version(s)][i].hasParent
    case Spend => true
    case Decide(t, _) => DoingOf(s, t) == Changed
    case Fire(t) => s.timerSet && Worker(s, t)
    case Tick => !s.tickerDone && DoingOf(s, TICKER) == Idle
    case TickerStops => s.stage != Open && !s.tickerDone && DoingOf(s, TICKER) == Idle
    case Lock(t) => DoingOf(s, t) == ToPublish && s.owner == Nobody
    case Look(t) => DoingOf(s, t) == Holding
    case Deliver(t) => DoingOf(s, t).Emitting?
    case CloseStop => s.stage == Open
    case CloseLook => s.stage == Stopping && s.tickerDone
    case CloseSet => s.stage == LastLook && DoingOf(s, CLOSER) == Idle
  }

  function Goes(s: State, t: nat, doing: Doing): State {
    s.(threads := s.threads[t := doing])
  }

  function Do(s: State, m: Move): State
    requires s.history != [] && Enabled(s, m)
  {
    match m
    case Add(t, member) =>
      Goes(s, t, Changed).(history := s.history + [s.history[Version(s)] + [member]], spawned := s.spawned || member.hasParent)
    case Update(t, i, member) =>
      Goes(s, t, Changed).(history := s.history + [s.history[Version(s)][i := member]])
    case Spend => s.(tokens := true)
    case Decide(t, mustWait) =>
      if s.closed || !Worth(s) || s.timerSet then Goes(s, t, Idle)
      else if mustWait then Goes(s, t, Idle).(timerSet := true)
      else Goes(s, t, ToPublish)
    case Fire(t) => Goes(s, t, ToPublish).(timerSet := false)
    case Tick => if AnyRunning(s.history[Version(s)]) then Goes(s, TICKER, ToPublish) else s
    case TickerStops => s.(tickerDone := true)
    case Lock(t) => Goes(s, t, Holding).(owner := Thread(t))
    case Look(t) =>
      if s.closed || !Worth(s) then Goes(s, t, Idle).(owner := Nobody)
      else Goes(s, t, Emitting(Version(s))).(taken := s.taken + [Version(s)])
    case Deliver(t) =>
      Goes(s, t, Idle).(owner := Nobody, published := s.published + [s.threads[t].version])
    case CloseStop => s.(stage := Stopping)
    case CloseLook => Goes(s, CLOSER, ToPublish).(stage := LastLook)
    case CloseSet =>
      s.(stage := Shut, closed := true, takenAtClose := |s.taken|, publishedAtClose := |s.published|)
  }

  // ---- What every move keeps.

  /** The snapshot taken and not handed over yet. */
  function InFlight(s: State): seq<nat> {
    if s.owner.Thread? && DoingOf(s, s.owner.id).Emitting? then [DoingOf(s, s.owner.id).version] else []
  }

  ghost predicate OneOwner(s: State) {
    forall t :: t in s.threads ==> (s.threads[t].Holding? || s.threads[t].Emitting? <==> s.owner == Thread(t))
  }

  predicate Ordered(versions: seq<nat>) {
    forall i, j :: 0 <= i < j < |versions| ==> versions[i] <= versions[j]
  }

  predicate Unpublished(s: State) {
    s.taken == [] || s.taken[|s.taken| - 1] < Version(s)
  }

  /** A thread that will take a snapshot, or decide one is due. */
  predicate WillLook(doing: Doing) {
    doing.Changed? || doing.ToPublish? || doing.Holding?
  }

  ghost predicate SomeoneWillLook(s: State) {
    exists t :: t in s.threads && WillLook(s.threads[t])
  }

  ghost predicate NotLost(s: State) {
    s.spawned && !s.closed && Unpublished(s) ==> s.timerSet || SomeoneWillLook(s)
  }

  predicate CloserInStep(s: State) {
    && (s.closed <==> s.stage.Shut?)
    && (!s.stage.LastLook? ==> DoingOf(s, CLOSER) == Idle)
  }

  predicate ClosedOnce(s: State) {
    && CloserInStep(s)
    && (s.closed ==> |s.taken| == s.takenAtClose && s.publishedAtClose <= |s.published|)
    && (s.closed ==> s.takenAtClose <= s.publishedAtClose + 1)
  }

  ghost predicate Inv(s: State) {
    && s.history != []
    && OneOwner(s)
    && (s.owner.Thread? ==> s.owner.id in s.threads)
    && s.published + InFlight(s) == s.taken
    && Ordered(s.taken)
    && (forall v :: v in s.taken ==> v <= Version(s))
    && NotLost(s)
    && ClosedOnce(s)
  }

  lemma StartsWell()
    ensures Inv(START)
  {
  }

  ghost predicate Ownership(s: State) {
    && OneOwner(s) && (s.owner.Thread? ==> s.owner.id in s.threads)
    && s.published + InFlight(s) == s.taken
  }

  lemma QuietKeepsOwners(s: State, t: nat, doing: Doing)
    requires Ownership(s) && !DoingOf(s, t).Holding? && !DoingOf(s, t).Emitting? && !doing.Holding? && !doing.Emitting?
    ensures Ownership(Goes(s, t, doing))
  {
  }

  lemma LockKeepsOwners(s: State, t: nat)
    requires Ownership(s) && s.owner == Nobody
    ensures Ownership(Goes(s, t, Holding).(owner := Thread(t)))
  {
  }

  lemma LookKeepsOwners(s: State, t: nat, version: nat)
    requires Ownership(s) && DoingOf(s, t).Holding?
    ensures Ownership(Goes(s, t, Idle).(owner := Nobody))
    ensures Ownership(Goes(s, t, Emitting(version)).(taken := s.taken + [version]))
  {
    assert t in s.threads && s.owner == Thread(t);
  }

  lemma DeliverKeepsOwners(s: State, t: nat)
    requires Ownership(s) && DoingOf(s, t).Emitting?
    ensures Ownership(Goes(s, t, Idle).(owner := Nobody, published := s.published + [s.threads[t].version]))
  {
    assert t in s.threads && s.owner == Thread(t);
  }

  lemma OwnersAlike(s: State, n: State)
    requires Ownership(s) && n.threads == s.threads && n.owner == s.owner && n.taken == s.taken && n.published == s.published
    ensures Ownership(n)
  {
  }

  lemma MoveKeepsOwners(s: State, m: Move)
    requires Inv(s) && Enabled(s, m)
    ensures Do(s, m).history != [] && Ownership(Do(s, m))
  {
    assert Ownership(s);
    var n := Do(s, m);
    hide NotLost, Ordered, AnyRunning, Unpublished, Ownership, ClosedOnce, OneOwner, Inv;
    match m
    case Add(t, _) => QuietKeepsOwners(s, t, Changed); OwnersAlike(Goes(s, t, Changed), n);
    case Update(t, _, _) => QuietKeepsOwners(s, t, Changed); OwnersAlike(Goes(s, t, Changed), n);
    case Fire(t) => QuietKeepsOwners(s, t, ToPublish); OwnersAlike(Goes(s, t, ToPublish), n);
    case Tick => QuietKeepsOwners(s, TICKER, ToPublish); OwnersAlike(s, s);
    case Decide(t, _) =>
      QuietKeepsOwners(s, t, Idle);
      QuietKeepsOwners(s, t, ToPublish);
      OwnersAlike(Goes(s, t, Idle), Goes(s, t, Idle).(timerSet := true));
    case CloseLook => QuietKeepsOwners(s, CLOSER, ToPublish); OwnersAlike(Goes(s, CLOSER, ToPublish), n);
    case Lock(t) => LockKeepsOwners(s, t);
    case Look(t) => LookKeepsOwners(s, t, Version(s));
    case Deliver(t) => DeliverKeepsOwners(s, t);
    case _ => OwnersAlike(s, n);
  }

  // ---- No update is lost.

  lemma NotLostByThread(s: State, t: nat)
    requires t in s.threads && WillLook(s.threads[t])
    ensures NotLost(s)
  {
  }

  lemma MoveLosesNothing(s: State, m: Move)
    requires Inv(s) && Enabled(s, m)
    ensures NotLost(Do(s, m))
  {
    if m.Decide? {
      assert NotLost(Do(s, m)) by {
        var n := Do(s, m);
        if n.threads == s.threads[m.t := ToPublish] {
          NotLostByThread(n, m.t);
        }
      }
    } else if m.Look? {
    } else {
      assert NotLost(s);
      hide NotLost, OneOwner, Ordered, ClosedOnce, Inv, AnyRunning;
      var n := Do(s, m);
      if m.Add? || m.Update? || m.Fire? || m.Lock? {
        NotLostByThread(n, m.t);
      } else if m.Deliver? {
        assert NotLost(n) by {
          hide WillLook;
          assert n.threads[m.t] == Idle;
          if n.spawned && !n.closed && Unpublished(n) && !WillLook(Idle) && !s.timerSet {
            var u :| u in s.threads && WillLook(s.threads[u]);
            assert u != m.t;
            assert u in n.threads && WillLook(n.threads[u]);
          }
        }
      } else if m.CloseLook? {
        NotLostByThread(n, CLOSER);
      } else if n.threads != s.threads {
        NotLostByThread(n, TICKER);
      }
    }
  }

  // ---- The order of what is published, and closing.

  lemma MoveKeepsOrder(s: State, m: Move)
    requires Inv(s) && Enabled(s, m)
    ensures var n := Do(s, m); Ordered(n.taken) && forall v :: v in n.taken ==> v <= Version(n)
  {
    hide NotLost, OneOwner, InFlight, AnyRunning, ClosedOnce;
    if m.Look? {
      assert forall i :: 0 <= i < |s.taken| ==> s.taken[i] in s.taken;
    }
  }

  /** Only the closing call moves its own stage, and only it starts its thread. */
  lemma MoveKeepsTheStage(s: State, m: Move)
    requires s.history != [] && Enabled(s, m)
    ensures !m.CloseStop? && !m.CloseLook? && !m.CloseSet? ==> Do(s, m).stage == s.stage && Do(s, m).closed == s.closed
    ensures !m.CloseLook? && DoingOf(s, CLOSER) == Idle ==> DoingOf(Do(s, m), CLOSER) == Idle
  {
    hide AnyRunning, Worth, Version;
    if m.Look? {
    } else if m.Deliver? {
    }
  }

  /** Nothing else counts what was taken and published at the close. */
  lemma MoveKeepsCounts(s: State, m: Move)
    requires s.history != [] && Enabled(s, m) && !m.CloseSet? && s.closed
    ensures var n := Do(s, m);
      && n.closed && n.taken == s.taken && |n.published| >= |s.published|
      && n.takenAtClose == s.takenAtClose && n.publishedAtClose == s.publishedAtClose
  {
    hide AnyRunning, Worth, Version;
    match m
    case Add(_, _) =>
    case Update(_, _, _) =>
    case _ =>
  }

  lemma MoveClosesOnce(s: State, m: Move)
    requires Inv(s) && Enabled(s, m)
    ensures ClosedOnce(Do(s, m))
  {
    assert |s.taken| == |s.published| + |InFlight(s)|;
    assert CloserInStep(Do(s, m)) by {
      MoveKeepsTheStage(s, m);
      if !m.CloseStop? && !m.CloseLook? && !m.CloseSet? {
        hide Do, Enabled, DoingOf;
      } else {
        hide AnyRunning, Worth, Version;
      }
    }
    if s.closed && !m.CloseSet? {
      MoveKeepsCounts(s, m);
      hide Do;
    } else if m.CloseSet? {
      hide Enabled;
    } else {
      StaysOpen(s, m);
      hide Do;
    }
  }

  lemma StaysOpen(s: State, m: Move)
    requires s.history != [] && Enabled(s, m) && !s.closed && !m.CloseSet?
    ensures !Do(s, m).closed
  {
    hide AnyRunning, Worth;
    match m
    case Add(_, _) =>
    case Update(_, _, _) =>
    case _ =>
  }

  lemma MoveKeeps(s: State, m: Move)
    requires Inv(s) && Enabled(s, m)
    ensures Inv(Do(s, m))
  {
    MoveKeepsOwners(s, m);
    MoveLosesNothing(s, m);
    MoveKeepsOrder(s, m);
    MoveClosesOnce(s, m);
    hide Do, NotLost, Ordered, ClosedOnce, OneOwner;
  }

  // ---- Whole runs: any moves of any threads, in any order.

  datatype Reached = Impossible | Reached(state: State)

  function RunOf(moves: seq<Move>): Reached {
    if moves == [] then Reached(START)
    else
      var before, m := RunOf(moves[..|moves| - 1]), moves[|moves| - 1];
      if before.Reached? && before.state.history != [] && Enabled(before.state, m) then Reached(Do(before.state, m))
      else Impossible
  }

  lemma {:induction false} RunsKeep(moves: seq<Move>)
    ensures RunOf(moves).Reached? ==> Inv(RunOf(moves).state)
  {
    hide Inv, Do, Enabled;
    if moves == [] {
      StartsWell();
    } else {
      RunsKeep(moves[..|moves| - 1]);
      var before := RunOf(moves[..|moves| - 1]);
      if RunOf(moves).Reached? {
        MoveKeeps(before.state, moves[|moves| - 1]);
      }
    }
  }

  /** Under every interleaving, once an agent was spawned and until the fleet is closed: a change not
      published yet has a timer set for it, or a thread on its way to look. What was published is what
      was taken, in that order, but for one snapshot that may be on its way; and a later snapshot is
      never of an earlier list. */
  lemma NoUpdateIsLost(moves: seq<Move>)
    requires RunOf(moves).Reached?
    ensures var s := RunOf(moves).state;
      && (s.spawned && !s.closed && Unpublished(s) ==> s.timerSet || SomeoneWillLook(s))
      && s.published <= s.taken && |s.taken| <= |s.published| + 1
      && Ordered(s.published)
  {
    RunsKeep(moves);
    var s := RunOf(moves).state;
    assert s.taken == s.published + InFlight(s);
    assert forall i :: 0 <= i < |s.published| ==> s.published[i] == s.taken[i];
  }

  /** A fleet at rest shows what there is. */
  lemma AtRestIsUpToDate(moves: seq<Move>)
    requires RunOf(moves).Reached?
    requires var s := RunOf(moves).state;
      s.spawned && !s.closed && !s.timerSet && forall t :: t in s.threads ==> s.threads[t] == Idle
    ensures var s := RunOf(moves).state;
      s.published != [] && s.published[|s.published| - 1] == Version(s)
  {
    RunsKeep(moves);
    var s := RunOf(moves).state;
    assert InFlight(s) == [];
    assert s.taken[|s.taken| - 1] in s.taken;
  }

  /** Nothing gets stuck: while a change is unpublished some thread, or the timer, can move. */
  lemma SomeoneCanMove(moves: seq<Move>) returns (m: Move)
    requires RunOf(moves).Reached?
    requires var s := RunOf(moves).state; s.spawned && !s.closed && Unpublished(s)
    ensures RunOf(moves).state.history != [] && Enabled(RunOf(moves).state, m)
    ensures m.Decide? || m.Fire? || m.Lock? || m.Look? || m.Deliver?
  {
    RunsKeep(moves);
    var s := RunOf(moves).state;
    if SomeoneWillLook(s) {
      var t :| t in s.threads && WillLook(s.threads[t]);
      if s.threads[t].Changed? {
        m := Decide(t, false);
      } else if s.threads[t].Holding? {
        m := Look(t);
      } else if s.owner == Nobody {
        m := Lock(t);
      } else {
        var u := s.owner.id;
        m := if s.threads[u].Holding? then Look(u) else Deliver(u);
      }
    } else {
      var t := FreshThread(s);
      m := Fire(t);
    }
  }

  lemma FreshThread(s: State) returns (t: nat)
    ensures t !in s.threads && t != CLOSER && t != TICKER
  {
    t := Beyond(s.threads.Keys + {CLOSER, TICKER});
  }

  lemma {:induction false} Beyond(used: set<nat>) returns (t: nat)
    ensures t !in used && forall u :: u in used ==> u < t
    decreases |used|
  {
    if used == {} {
      t := 0;
    } else {
      var u :| u in used;
      var v := Beyond(used - {u});
      t := if u < v then v else u + 1;
      assert forall w :: w in used ==> w == u || w in used - {u};
    }
  }

  // ---- After the fleet is closed.

  /** At most one snapshot is handed over after the fleet is closed, and only one that was already
      taken, and on its way, when it was. */
  lemma AtMostOneAfterClose(moves: seq<Move>)
    requires RunOf(moves).Reached? && RunOf(moves).state.closed
    ensures var s := RunOf(moves).state;
      && s.publishedAtClose <= |s.published| <= s.publishedAtClose + 1
      && (|s.published| > s.publishedAtClose ==> s.takenAtClose == s.publishedAtClose + 1)
  {
    RunsKeep(moves);
    var s := RunOf(moves).state;
    assert |s.taken| == |s.published| + |InFlight(s)|;
  }

  function RunFrom(s: State, moves: seq<Move>): Reached
    decreases |moves|
  {
    if moves == [] then Reached(s)
    else if s.history != [] && Enabled(s, moves[0]) then RunFrom(Do(s, moves[0]), moves[1..])
    else Impossible
  }

  lemma {:induction false} RunFromAppend(s: State, moves: seq<Move>, last: Move)
    ensures RunFrom(s, moves + [last]) ==
      var r := RunFrom(s, moves);
      if r.Reached? && r.state.history != [] && Enabled(r.state, last) then Reached(Do(r.state, last)) else Impossible
    decreases |moves|
  {
    hide Do, Enabled;
    var all := moves + [last];
    if moves == [] {
      assert all[0] == last && all[1..] == [];
    } else {
      assert all[0] == moves[0] && all[1..] == moves[1..] + [last];
      if s.history != [] && Enabled(s, moves[0]) {
        RunFromAppend(Do(s, moves[0]), moves[1..], last);
      }
    }
  }

  /** The two ways to read a run, from its end and from its start, are one. */
  lemma {:induction false} RunOfIsRunFrom(moves: seq<Move>)
    ensures RunOf(moves) == RunFrom(START, moves)
  {
    hide Do, Enabled;
    if moves != [] {
      var init, last := moves[..|moves| - 1], moves[|moves| - 1];
      RunOfIsRunFrom(init);
      RunFromAppend(START, init, last);
      assert init + [last] == moves;
    }
  }

  /** One move more of a run. */
  lemma OneMove(s: State, m: Move, rest: seq<Move>)
    requires s.history != [] && Enabled(s, m)
    ensures RunFrom(s, [m] + rest) == RunFrom(Do(s, m), rest)
  {
    hide Do, Enabled;
    assert ([m] + rest)[1..] == rest;
  }

  /** A change, the decision to publish it at once, and the look at the fleet. */
  function ChangeAndLook(change: Move): seq<Move> {
    [change] + ([Decide(2, false)] + ([Lock(2)] + ([Look(2)] + [])))
  }

  /** The last look of the call that closes the fleet. */
  const LAST_LOOK: seq<Move> :=
    [CloseStop] + ([TickerStops] + ([CloseLook] + ([Lock(CLOSER)] + ([Look(CLOSER)] + ([Deliver(CLOSER)] + [])))))

  /** A fleet that is spawned and at rest, with thread 2 free to work. */
  predicate Resting(s: State) {
    && s.history != [] && s.spawned && !s.closed && !s.timerSet && s.owner == Nobody
    && DoingOf(s, 2) == Idle && DoingOf(s, CLOSER) == Idle && DoingOf(s, TICKER) == Idle
  }

  lemma ChangeLooks(s: State, change: Move) returns (n: State)
    requires s.history != [] && Enabled(s, change) && (change.Add? || change.Update?) && change.t == 2
    requires Do(s, change).spawned && !s.closed && !s.timerSet && s.owner == Nobody
    requires DoingOf(s, CLOSER) == Idle && DoingOf(s, TICKER) == Idle
    ensures RunFrom(s, ChangeAndLook(change)) == Reached(n)
    ensures n.history != [] && n.history == Do(s, change).history && n.spawned && !n.closed && !n.timerSet
    ensures DoingOf(n, 2).Emitting? && DoingOf(n, CLOSER) == Idle && DoingOf(n, TICKER) == Idle
    ensures n.stage == s.stage && n.tickerDone == s.tickerDone && n.published == s.published && |n.taken| == |s.taken| + 1
  {
    hide RunFrom, AnyRunning;
    var s1 := Do(s, change);
    var s2 := Do(s1, Decide(2, false));
    var s3 := Do(s2, Lock(2));
    n := Do(s3, Look(2));
    OneMove(s, change, [Decide(2, false)] + ([Lock(2)] + ([Look(2)] + [])));
    OneMove(s1, Decide(2, false), [Lock(2)] + ([Look(2)] + []));
    OneMove(s2, Lock(2), [Look(2)] + []);
    OneMove(s3, Look(2), []);
    NoMoves(n);
  }

  lemma NoMoves(s: State)
    ensures RunFrom(s, []) == Reached(s)
  {
  }

  lemma Delivers(s: State, t: nat) returns (n: State)
    requires s.history != [] && DoingOf(s, t).Emitting?
    ensures RunFrom(s, [Deliver(t)] + []) == Reached(n)
    ensures n == Do(s, Deliver(t)) && |n.published| == |s.published| + 1
  {
    n := Do(s, Deliver(t));
    OneMove(s, Deliver(t), []);
    NoMoves(n);
  }

  lemma LastLooks(s: State) returns (n: State)
    requires Resting(s) && s.stage == Open && !s.tickerDone
    ensures RunFrom(s, LAST_LOOK) == Reached(n)
    ensures Resting(n) && n.history == s.history && n.stage == LastLook && n.tickerDone
  {
    hide RunFrom, AnyRunning;
    var s1 := Do(s, CloseStop);
    var s2 := Do(s1, TickerStops);
    var s3 := Do(s2, CloseLook);
    var s4 := Do(s3, Lock(CLOSER));
    var s5 := Do(s4, Look(CLOSER));
    n := Do(s5, Deliver(CLOSER));
    OneMove(s, CloseStop, [TickerStops] + ([CloseLook] + ([Lock(CLOSER)] + ([Look(CLOSER)] + ([Deliver(CLOSER)] + [])))));
    OneMove(s1, TickerStops, [CloseLook] + ([Lock(CLOSER)] + ([Look(CLOSER)] + ([Deliver(CLOSER)] + []))));
    OneMove(s2, CloseLook, [Lock(CLOSER)] + ([Look(CLOSER)] + ([Deliver(CLOSER)] + [])));
    OneMove(s3, Lock(CLOSER), [Look(CLOSER)] + ([Deliver(CLOSER)] + []));
    OneMove(s4, Look(CLOSER), [Deliver(CLOSER)] + []);
    OneMove(s5, Deliver(CLOSER), []);
    NoMoves(n);
  }

  lemma {:induction false} RunFromThen(s: State, a: seq<Move>, b: seq<Move>)
    requires RunFrom(s, a).Reached?
    ensures RunFrom(s, a + b) == RunFrom(RunFrom(s, a).state, b)
    decreases |a|
  {
    hide Do, Enabled;
    if a == [] {
      assert a + b == b;
    } else {
      assert (a + b)[0] == a[0] && (a + b)[1..] == a[1..] + b;
      RunFromThen(Do(s, a[0]), a[1..], b);
    }
  }

  /** "Nothing is published after it" is not what the close gives: an agent is spawned, the fleet takes
      its last look, and another change is looked at before the fleet is marked closed. Its snapshot is
      handed over after. */
  lemma OneIsPublishedAfterClose() returns (moves: seq<Move>)
    ensures RunOf(moves).Reached?
    ensures var s := RunOf(moves).state; s.closed && |s.published| == s.publishedAtClose + 1
  {
    var member := Member(1, true, true, 0, "", "");
    var add := Add(2, member);
    assert
      && Enabled(START, Add(2, member)) && Do(START, Add(2, member)).spawned
      && Do(START, Add(2, member)).history == [[], [member]] by {
      assert START.history[0] + [member] == [member];
    }
    hide Do, RunFrom, RunOf, AnyRunning;
    var s1 := ChangeLooks(START, add);
    var s2 := Delivers(s1, 2);
    DeliverIsResting(s1, s2);
    var s3 := LastLooks(s2);
    var update := Update(2, 0, member.(running := false));
    var s4 := ChangeLooks(s3, update);
    ClosesNow(s4);
    var s5 := Do(s4, CloseSet);
    var s6 := Delivers(s5, 2);
    OneMove(s4, CloseSet, []);
    NoMoves(s5);
    assert [Deliver(2)] + [] == [Deliver(2)] && [CloseSet] + [] == [CloseSet];
    moves := ChangeAndLook(add) + [Deliver(2)] + LAST_LOOK + ChangeAndLook(update) + [CloseSet] + [Deliver(2)];
    RunFromThen(START, ChangeAndLook(add), [Deliver(2)]);
    RunFromThen(START, ChangeAndLook(add) + [Deliver(2)], LAST_LOOK);
    RunFromThen(START, ChangeAndLook(add) + [Deliver(2)] + LAST_LOOK, ChangeAndLook(update));
    RunFromThen(START, ChangeAndLook(add) + [Deliver(2)] + LAST_LOOK + ChangeAndLook(update), [CloseSet]);
    RunFromThen(START, ChangeAndLook(add) + [Deliver(2)] + LAST_LOOK + ChangeAndLook(update) + [CloseSet], [Deliver(2)]);
    RunOfIsRunFrom(moves);
    DeliveredAfter(s4, s5, s6);
  }

  lemma DeliverIsResting(s: State, n: State)
    requires s.history != [] && DoingOf(s, 2).Emitting? && n == Do(s, Deliver(2))
    requires s.spawned && !s.closed && !s.timerSet && DoingOf(s, CLOSER) == Idle && DoingOf(s, TICKER) == Idle
    ensures Resting(n) && n.history == s.history && n.stage == s.stage && n.tickerDone == s.tickerDone
  {
  }

  lemma ClosesNow(s: State)
    requires s.history != [] && s.stage == LastLook && DoingOf(s, CLOSER) == Idle && DoingOf(s, 2).Emitting?
    ensures Enabled(s, CloseSet)
    ensures var n := Do(s, CloseSet);
      && n.history != [] && n.closed && DoingOf(n, 2).Emitting?
      && n.published == s.published && n.publishedAtClose == |s.published|
  {
  }

  lemma DeliveredAfter(s4: State, s5: State, s6: State)
    requires s5.history != [] && DoingOf(s5, 2).Emitting? && s6 == Do(s5, Deliver(2)) && s5.closed
    ensures s6.closed && s6.publishedAtClose == s5.publishedAtClose && |s6.published| == |s5.published| + 1
  {
  }
}
