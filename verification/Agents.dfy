/** internal/agent/subagents.go and parallel.go: background agents that run beside the main one. One
    move is what the main agent, or one of them, does while it holds the lock, or between two locks. */
module Agents {

  // ---- The main agent's record.

  /** A background agent works, stores its report, closes its channel and leaves its wait group. */
  datatype Phase = Working | Reporting | Finished | Left

  datatype Child = Child(id: nat, phase: Phase, cancelled: bool, report: string, delivered: bool)

  /** What the main agent is in the middle of: starting an agent whose place under the limit it has
      checked, or that has a name already; stopping them all, to let a claim go on or to end the turn. */
  datatype Doing = Free | Checked | Named(id: nat) | Cancelling(toEnd: bool) | Waiting(toEnd: bool) | Over

  /** A report handed to the model. */
  datatype Delivery = Delivery(id: nat, report: string)

  /** `held` counts the claims of done sent back over running agents. */
  datatype State = State(
    children: seq<Child>, ids: nat, challenged: bool, held: nat, doing: Doing, delivered: seq<Delivery>)

  const START := State([], 0, false, 0, Free, [])

  predicate HasFinished(c: Child) {
    c.phase.Finished? || c.phase.Left?
  }

  function Running(children: seq<Child>): nat {
    if children == [] then 0
    else Running(children[..|children| - 1]) + if HasFinished(children[|children| - 1]) then 0 else 1
  }

  // ---- The moves.

  datatype Move =
    | SpawnCheck
    | SpawnName
    | SpawnFails
    | SpawnStart
    | TakeReports(ids: set<nat>)
    | Claim
    | CancelAll
    | AllLeft
    | EndTurn
    | StoreReport(i: nat, report: string)
    | CloseDone(i: nat)
    | Leave(i: nat)

  predicate Is(s: State, i: nat, phase: Phase) {
    i < |s.children| && s.children[i].phase == phase
  }

  predicate EveryoneLeft(children: seq<Child>) {
    forall i :: 0 <= i < |children| ==> children[i].phase.Left?
  }

  predicate Enabled(limit: int, s: State, m: Move) {
    match m
    case SpawnCheck => s.doing.Free? && Running(s.children) < limit
    case SpawnName => s.doing.Checked?
    case SpawnFails => s.doing.Named?
    case SpawnStart => s.doing.Named?
    case TakeReports(_) => s.doing.Free?
    case Claim => s.doing.Free?
    case CancelAll => s.doing.Cancelling?
    case AllLeft => s.doing.Waiting? && EveryoneLeft(s.children)
    case EndTurn => s.doing.Free?
    case StoreReport(i, _) => Is(s, i, Working)
    case CloseDone(i) => Is(s, i, Reporting)
    case Leave(i) => Is(s, i, Finished)
  }

  /** A report is taken once it is whole and has not been, and when it is asked for. */
  predicate Taken(c: Child, ids: set<nat>) {
    !c.delivered && HasFinished(c) && (ids == {} || c.id in ids)
  }

  function Marked(children: seq<Child>, ids: set<nat>): (r: seq<Child>)
    ensures |r| == |children|
    ensures forall i :: 0 <= i < |r| ==>
      r[i] == if Taken(children[i], ids) then children[i].(delivered := true) else children[i]
  {
    seq(|children|, i requires 0 <= i < |children| =>
      if Taken(children[i], ids) then children[i].(delivered := true) else children[i])
  }

  function Reports(children: seq<Child>, ids: set<nat>): seq<Delivery> {
    if children == [] then []
    else
      var c := children[|children| - 1];
      Reports(children[..|children| - 1], ids) + if Taken(c, ids) then [Delivery(c.id, c.report)] else []
  }

  function Cancelled(children: seq<Child>): (r: seq<Child>)
    ensures |r| == |children|
    ensures forall i :: 0 <= i < |r| ==> r[i] == children[i].(cancelled := true)
  {
    seq(|children|, i requires 0 <= i < |children| => children[i].(cancelled := true))
  }

  function Moves(s: State, i: nat, c: Child): State
    requires i < |s.children|
  {
    s.(children := s.children[i := c])
  }

  /** A claim of done: sent back the first time agents are running, and the second they are stopped. */
  function ClaimMade(s: State): State {
    if Running(s.children) == 0 then s
    else if s.challenged then s.(doing := Cancelling(false))
    else s.(challenged := true, held := s.held + 1)
  }

  function Do(limit: int, s: State, m: Move): State
    requires Enabled(limit, s, m)
  {
    match m
    case SpawnCheck => s.(doing := Checked)
    case SpawnName => s.(ids := s.ids + 1, doing := Named(s.ids + 1))
    case SpawnFails => s.(doing := Free)
    case SpawnStart => s.(children := s.children + [Child(s.doing.id, Working, false, "", false)], doing := Free)
    case TakeReports(ids) => s.(children := Marked(s.children, ids), delivered := s.delivered + Reports(s.children, ids))
    case Claim => ClaimMade(s)
    case CancelAll => s.(children := Cancelled(s.children), doing := Waiting(s.doing.toEnd))
    case AllLeft => s.(doing := if s.doing.toEnd then Over else Free)
    case EndTurn => s.(doing := Cancelling(true))
    case StoreReport(i, report) => Moves(s, i, s.children[i].(phase := Reporting, report := report))
    case CloseDone(i) => Moves(s, i, s.children[i].(phase := Finished))
    case Leave(i) => Moves(s, i, s.children[i].(phase := Left))
  }

  // ---- What every move keeps.

  predicate WithinLimit(limit: int, s: State) {
    if s.doing.Checked? || s.doing.Named? then Running(s.children) < limit
    else Running(s.children) == 0 || Running(s.children) <= limit
  }

  predicate DistinctIds(children: seq<Child>) {
    forall i, j :: 0 <= i < j < |children| ==> children[i].id != children[j].id
  }

  predicate UniqueIds(s: State) {
    && DistinctIds(s.children)
    && (forall i :: 0 <= i < |s.children| ==> 0 < s.children[i].id <= s.ids)
    && (s.doing.Named? ==> 0 < s.doing.id == s.ids && forall i :: 0 <= i < |s.children| ==> s.children[i].id < s.ids)
  }

  predicate OnceEach(delivered: seq<Delivery>) {
    forall i, j :: 0 <= i < j < |delivered| ==> delivered[i].id != delivered[j].id
  }

  /** The agent of this id is marked as one whose report was handed over. */
  predicate Marks(children: seq<Child>, id: nat) {
    exists i :: 0 <= i < |children| && children[i].delivered && children[i].id == id
  }

  /** A marked agent ended, and its report is with the model; that of another is not. */
  predicate MarkedRight(delivered: seq<Delivery>, c: Child) {
    && (c.delivered ==> HasFinished(c))
    && (c.delivered <==> Delivery(c.id, c.report) in delivered)
  }

  /** Reports that were handed over are those of agents that finished, whole, each once. */
  predicate DeliveredOnce(s: State) {
    && OnceEach(s.delivered)
    && (forall i :: 0 <= i < |s.children| ==> MarkedRight(s.delivered, s.children[i]))
    && (forall d :: d in s.delivered ==> Marks(s.children, d.id))
  }

  predicate HeldOnce(s: State) {
    s.held <= 1 && (s.held == 1 <==> s.challenged)
  }

  predicate OverMeansLeft(s: State) {
    s.doing.Over? ==> EveryoneLeft(s.children)
  }

  ghost predicate Inv(limit: int, s: State) {
    WithinLimit(limit, s) && UniqueIds(s) && DeliveredOnce(s) && HeldOnce(s) && OverMeansLeft(s)
  }

  lemma StartsWell(limit: int)
    ensures Inv(limit, START)
  {
  }

  // The number that run.

  lemma RunningAppend(children: seq<Child>, c: Child)
    ensures Running(children + [c]) == Running(children) + if HasFinished(c) then 0 else 1
  {
    assert (children + [c])[..|children|] == children;
  }

  lemma {:induction false} RunningAlike(a: seq<Child>, b: seq<Child>)
    requires |a| == |b| && forall i :: 0 <= i < |a| ==> a[i].phase == b[i].phase
    ensures Running(a) == Running(b)
  {
    if a != [] {
      RunningAlike(a[..|a| - 1], b[..|b| - 1]);
    }
  }

  lemma {:induction false} RunningFalls(children: seq<Child>, i: nat, c: Child)
    requires i < |children| && (HasFinished(children[i]) ==> HasFinished(c))
    ensures Running(children[i := c]) <= Running(children)
  {
    var n := |children| - 1;
    if i < n {
      RunningFalls(children[..n], i, c);
      assert children[i := c][..n] == children[..n][i := c];
    } else {
      assert children[i := c][..n] == children[..n];
    }
  }

  lemma MoveKeepsLimit(limit: int, s: State, m: Move)
    requires Enabled(limit, s, m) && WithinLimit(limit, s)
    ensures WithinLimit(limit, Do(limit, s, m))
  {
    hide Running, EveryoneLeft;
    match m
    case SpawnStart => RunningAppend(s.children, Child(s.doing.id, Working, false, "", false));
    case TakeReports(ids) => RunningAlike(s.children, Marked(s.children, ids));
    case CancelAll => RunningAlike(s.children, Cancelled(s.children));
    case StoreReport(i, report) => RunningFalls(s.children, i, s.children[i].(phase := Reporting, report := report));
    case CloseDone(i) => RunningFalls(s.children, i, s.children[i].(phase := Finished));
    case Leave(i) => RunningFalls(s.children, i, s.children[i].(phase := Left));
    case _ =>
  }

  // The reports.

  lemma {:induction false} ReportsAreTheTaken(children: seq<Child>, ids: set<nat>, d: Delivery)
    ensures d in Reports(children, ids) <==>
      exists i :: 0 <= i < |children| && Taken(children[i], ids) && d == Delivery(children[i].id, children[i].report)
  {
    hide Taken;
    if children != [] {
      ReportsAreTheTaken(children[..|children| - 1], ids, d);
    }
  }

  lemma {:induction false} ReportsOnce(children: seq<Child>, ids: set<nat>)
    requires DistinctIds(children)
    ensures OnceEach(Reports(children, ids))
  {
    hide Taken;
    if children != [] {
      var n := |children| - 1;
      var init, c := children[..n], children[n];
      ReportsOnce(init, ids);
      var before := Reports(init, ids);
      forall i | 0 <= i < |before| ensures before[i].id != c.id {
        assert before[i] in before;
        ReportsAreTheTaken(init, ids, before[i]);
        var k :| 0 <= k < |init| && Taken(init[k], ids) && before[i] == Delivery(init[k].id, init[k].report);
        assert init[k] == children[k];
      }
    }
  }

  /** The report of an agent that is not marked is not with the model, under any text. */
  lemma NotDeliveredYet(s: State, i: nat, d: Delivery)
    requires DistinctIds(s.children) && DeliveredOnce(s) && i < |s.children| && !s.children[i].delivered && d in s.delivered
    ensures d.id != s.children[i].id
  {
    hide MarkedRight, OnceEach;
    assert Marks(s.children, d.id);
    var j :| 0 <= j < |s.children| && s.children[j].delivered && s.children[j].id == d.id;
  }

  /** Marks stay when agents keep their ids and theirs. */
  lemma MarksStay(a: seq<Child>, b: seq<Child>, id: nat)
    requires |a| <= |b| && forall i :: 0 <= i < |a| ==> b[i].id == a[i].id && (a[i].delivered ==> b[i].delivered)
    requires Marks(a, id)
    ensures Marks(b, id)
  {
    var i :| 0 <= i < |a| && a[i].delivered && a[i].id == id;
    assert b[i].delivered && b[i].id == id;
  }

  /** An agent that moves on, its report kept or not yet given. */
  lemma ChildMoveDeliversNothing(s: State, i: nat, c: Child)
    requires UniqueIds(s) && DeliveredOnce(s) && i < |s.children|
    requires c.id == s.children[i].id && c.delivered == s.children[i].delivered
    requires c.delivered ==> HasFinished(c) && c.report == s.children[i].report
    ensures DeliveredOnce(Moves(s, i, c))
  {
    hide OnceEach, DistinctIds, HasFinished;
    var n := Moves(s, i, c);
    assert MarkedRight(s.delivered, s.children[i]);
    if !c.delivered && Delivery(c.id, c.report) in s.delivered {
      NotDeliveredYet(s, i, Delivery(c.id, c.report));
    }
    assert MarkedRight(n.delivered, c);
    hide MarkedRight, Marks;
    forall j | 0 <= j < |n.children| ensures MarkedRight(n.delivered, n.children[j]) {
      if j != i {
        assert n.children[j] == s.children[j];
      }
    }
    forall d | d in n.delivered ensures Marks(n.children, d.id) {
      MarksStay(s.children, n.children, d.id);
    }
  }

  lemma TakingDeliversOnce(limit: int, s: State, ids: set<nat>)
    requires UniqueIds(s) && DeliveredOnce(s) && s.doing.Free?
    ensures DeliveredOnce(Do(limit, s, TakeReports(ids)))
  {
    var n, added := Do(limit, s, TakeReports(ids)), Reports(s.children, ids);
    assert OnceEach(s.delivered) && DistinctIds(s.children);
    ReportsOnce(s.children, ids);
    hide Reports, OnceEach, DistinctIds, UniqueIds, MarkedRight;
    forall d | d in added ensures Marks(n.children, d.id) && forall e :: e in s.delivered ==> e.id != d.id {
      ReportsAreTheTaken(s.children, ids, d);
      var i :| 0 <= i < |s.children| && Taken(s.children[i], ids) && d == Delivery(s.children[i].id, s.children[i].report);
      assert n.children[i].delivered && n.children[i].id == d.id;
      forall e | e in s.delivered ensures e.id != d.id {
        NotDeliveredYet(s, i, e);
      }
    }
    assert OnceEach(s.delivered + added) by {
      forall i, j | 0 <= i < |s.delivered| && 0 <= j < |added| ensures s.delivered[i].id != added[j].id {
        assert s.delivered[i] in s.delivered && added[j] in added;
      }
    }
    forall i | 0 <= i < |n.children| ensures MarkedRight(n.delivered, n.children[i]) {
      MarkedIsRight(s, n, ids, i);
    }
    hide Marks;
    forall d | d in n.delivered ensures Marks(n.children, d.id) {
      if d in s.delivered {
        MarksStay(s.children, n.children, d.id);
      }
    }
  }

  lemma MarkedIsRight(s: State, n: State, ids: set<nat>, i: nat)
    requires DistinctIds(s.children) && DeliveredOnce(s) && i < |s.children|
    requires n.children == Marked(s.children, ids) && n.delivered == s.delivered + Reports(s.children, ids)
    ensures MarkedRight(n.delivered, n.children[i])
  {
    var c := s.children[i];
    var d := Delivery(c.id, c.report);
    ReportsAreTheTaken(s.children, ids, d);
    assert MarkedRight(s.delivered, c);
    hide Reports, HasFinished, DeliveredOnce, Marks, OnceEach;
    if d in Reports(s.children, ids) {
      var j :| 0 <= j < |s.children| && Taken(s.children[j], ids) && d == Delivery(s.children[j].id, s.children[j].report);
    }
  }

  lemma MoveDeliversOnce(limit: int, s: State, m: Move)
    requires Enabled(limit, s, m) && UniqueIds(s) && DeliveredOnce(s)
    ensures DeliveredOnce(Do(limit, s, m))
  {
    var n := Do(limit, s, m);
    if m.SpawnStart? {
      assert DeliveredOnce(Do(limit, s, SpawnStart)) by {
        hide OnceEach, DistinctIds, HasFinished;
        var n, c := Do(limit, s, SpawnStart), Child(s.doing.id, Working, false, "", false);
        forall d | d in s.delivered ensures d.id != c.id && Marks(n.children, d.id) {
          MarksStay(s.children, n.children, d.id);
          var i :| 0 <= i < |s.children| && s.children[i].delivered && s.children[i].id == d.id;
        }
        assert MarkedRight(n.delivered, c);
        forall i | 0 <= i < |n.children| ensures MarkedRight(n.delivered, n.children[i]) {
          if i < |s.children| {
            assert n.children[i] == s.children[i];
          }
        }
      }
    } else if m.TakeReports? {
      TakingDeliversOnce(limit, s, m.ids);
    } else if m.CancelAll? {
    } else if m.StoreReport? || m.CloseDone? || m.Leave? {
      var c := n.children[m.i];
      assert MarkedRight(s.delivered, s.children[m.i]);
      ChildMoveDeliversNothing(s, m.i, c);
    } else {
      assert n.children == s.children && n.delivered == s.delivered;
      hide Do, Enabled, OnceEach, Marks, MarkedRight;
    }
  }

  lemma MoveKeeps(limit: int, s: State, m: Move)
    requires Inv(limit, s) && Enabled(limit, s, m)
    ensures Inv(limit, Do(limit, s, m))
  {
    assert HeldOnce(Do(limit, s, m)) && OverMeansLeft(Do(limit, s, m)) by {
      hide Running, Marked, Reports, Cancelled;
    }
    assert UniqueIds(Do(limit, s, m)) by {
      hide Running, EveryoneLeft, HasFinished, Taken, Reports;
      if !m.SpawnStart? {
        hide DistinctIds;
      }
    }
    hide Do, Enabled, WithinLimit, UniqueIds, DeliveredOnce, HeldOnce, OverMeansLeft;
    MoveKeepsLimit(limit, s, m);
    MoveDeliversOnce(limit, s, m);
  }

  // ---- Whole turns: any moves of the main agent and the others, in any order.

  datatype Reached = Impossible | Reached(state: State)

  function TurnOf(limit: int, moves: seq<Move>): Reached {
    if moves == [] then Reached(START)
    else
      var before, m := TurnOf(limit, moves[..|moves| - 1]), moves[|moves| - 1];
      if before.Reached? && Enabled(limit, before.state, m) then Reached(Do(limit, before.state, m)) else Impossible
  }

  lemma {:induction false} TurnsKeep(limit: int, moves: seq<Move>)
    ensures TurnOf(limit, moves).Reached? ==> Inv(limit, TurnOf(limit, moves).state)
  {
    hide Inv, Do, Enabled;
    if moves == [] {
      StartsWell(limit);
    } else {
      TurnsKeep(limit, moves[..|moves| - 1]);
      if TurnOf(limit, moves).Reached? {
        MoveKeeps(limit, TurnOf(limit, moves[..|moves| - 1]).state, moves[|moves| - 1]);
      }
    }
  }

  /** Under every interleaving: at most the limit run at once, and none at all when there is none to
      give; every agent has an id of its own; a report is handed over at most once, and only once it is
      whole; at most one claim is sent back over running agents; and when the turn is over every agent
      has left. */
  lemma TurnsAreBounded(limit: int, moves: seq<Move>)
    requires TurnOf(limit, moves).Reached?
    ensures var s := TurnOf(limit, moves).state;
      && (Running(s.children) == 0 || Running(s.children) <= limit)
      && (forall i, j :: 0 <= i < j < |s.children| ==> s.children[i].id != s.children[j].id)
      && (forall i, j :: 0 <= i < j < |s.delivered| ==> s.delivered[i].id != s.delivered[j].id)
      && (forall d :: d in s.delivered ==> IsWhole(s, d))
      && s.held <= 1
      && (s.doing.Over? ==> EveryoneLeft(s.children))
  {
    TurnsKeep(limit, moves);
    var s := TurnOf(limit, moves).state;
    hide TurnOf, Running, EveryoneLeft;
    forall d | d in s.delivered ensures IsWhole(s, d) {
    }
  }

  /** A report as an agent that finished left it. */
  predicate IsWhole(s: State, d: Delivery) {
    exists i :: 0 <= i < |s.children| && HasFinished(s.children[i]) && d == ReportOf(s.children[i])
  }

  function ReportOf(c: Child): Delivery {
    Delivery(c.id, c.report)
  }

  /** The end of a turn waits for nobody for ever: while it waits, some agent can move, or all left. */
  lemma WaitingEnds(limit: int, s: State) returns (m: Move)
    requires s.doing.Waiting?
    ensures Enabled(limit, s, m) && (m.AllLeft? || m.StoreReport? || m.CloseDone? || m.Leave?)
  {
    if EveryoneLeft(s.children) {
      m := AllLeft;
    } else {
      var i :| 0 <= i < |s.children| && !s.children[i].phase.Left?;
      match s.children[i].phase
      case Working => m := StoreReport(i, "");
      case Reporting => m := CloseDone(i);
      case Finished => m := Leave(i);
    }
  }

  /** Each move of an agent takes it a step nearer its end, so the wait is bounded. */
  function StepsLeft(children: seq<Child>): nat {
    if children == [] then 0
    else StepsLeft(children[..|children| - 1]) + StepsOf(children[|children| - 1].phase)
  }

  function StepsOf(phase: Phase): nat {
    match phase
    case Working => 3
    case Reporting => 2
    case Finished => 1
    case Left => 0
  }

  lemma {:induction false} OneStepNearer(children: seq<Child>, i: nat, c: Child)
    requires i < |children| && StepsOf(c.phase) < StepsOf(children[i].phase)
    ensures StepsLeft(children[i := c]) < StepsLeft(children)
  {
    var n := |children| - 1;
    if i < n {
      OneStepNearer(children[..n], i, c);
      assert children[i := c][..n] == children[..n][i := c];
    } else {
      assert children[i := c][..n] == children[..n];
    }
  }

  lemma WaitingGetsNearer(limit: int, s: State, m: Move)
    requires Enabled(limit, s, m) && (m.StoreReport? || m.CloseDone? || m.Leave?)
    ensures StepsLeft(Do(limit, s, m).children) < StepsLeft(s.children)
  {
    OneStepNearer(s.children, m.i, Do(limit, s, m).children[m.i]);
  }

  // ---- Subtasks side by side: a slot each while they run.

  /** A subtask that got no worktree, waits for a slot, has one, or has ended and given it back. */
  datatype Piece = NoPlace | InLine | InSlot | Ended

  function Taking(pieces: seq<Piece>): nat {
    if pieces == [] then 0
    else Taking(pieces[..|pieces| - 1]) + if pieces[|pieces| - 1].InSlot? then 1 else 0
  }

  datatype Turn = Enter(i: nat) | Exit(i: nat)

  /** Entering blocks while every slot is taken. */
  predicate MayTurn(slots: nat, pieces: seq<Piece>, t: Turn) {
    match t
    case Enter(i) => i < |pieces| && pieces[i].InLine? && Taking(pieces) < slots
    case Exit(i) => i < |pieces| && pieces[i].InSlot?
  }

  function Turned(slots: nat, pieces: seq<Piece>, t: Turn): seq<Piece>
    requires MayTurn(slots, pieces, t)
  {
    match t
    case Enter(i) => pieces[i := InSlot]
    case Exit(i) => pieces[i := Ended]
  }

  predicate AllEnded(pieces: seq<Piece>) {
    forall i :: 0 <= i < |pieces| ==> pieces[i].NoPlace? || pieces[i].Ended?
  }

  lemma {:induction false} TakingChanges(pieces: seq<Piece>, i: nat, p: Piece)
    requires i < |pieces|
    ensures Taking(pieces[i := p]) + (if pieces[i].InSlot? then 1 else 0) == Taking(pieces) + if p.InSlot? then 1 else 0
  {
    var n := |pieces| - 1;
    if i < n {
      TakingChanges(pieces[..n], i, p);
      assert pieces[i := p][..n] == pieces[..n][i := p];
    } else {
      assert pieces[i := p][..n] == pieces[..n];
    }
  }

  /** Where any order of entering and leaving gets to. */
  datatype Line = Blocked | At(pieces: seq<Piece>)

  function TurnsOf(slots: nat, start: seq<Piece>, turns: seq<Turn>): Line {
    if turns == [] then At(start)
    else
      var before, t := TurnsOf(slots, start, turns[..|turns| - 1]), turns[|turns| - 1];
      if before.At? && MayTurn(slots, before.pieces, t) then At(Turned(slots, before.pieces, t)) else Blocked
  }

  /** In whatever order they come and go, no more subtasks run at once than there are slots; and while
      one has not ended, one can enter or leave, so the parent does get past its wait. */
  lemma {:induction false} SlotsBound(slots: nat, start: seq<Piece>, turns: seq<Turn>) returns (next: Turn)
    requires slots > 0 && Taking(start) == 0 && TurnsOf(slots, start, turns).At?
    ensures var pieces := TurnsOf(slots, start, turns).pieces;
      && |pieces| == |start| && Taking(pieces) <= slots
      && (!AllEnded(pieces) ==> MayTurn(slots, pieces, next))
  {
    var pieces := TurnsOf(slots, start, turns).pieces;
    if turns != [] {
      var init, t := turns[..|turns| - 1], turns[|turns| - 1];
      var _ := SlotsBound(slots, start, init);
      TakingChanges(TurnsOf(slots, start, init).pieces, t.i, if t.Enter? then InSlot else Ended);
    }
    next := SomeTurn(slots, pieces);
  }

  /** Agents started before a plan and its subtasks side by side have the same limit each, not together:
      whatever moves both have made, in whatever order, at most twice the limit run at once. */
  lemma BothBound(limit: nat, moves: seq<Move>, start: seq<Piece>, turns: seq<Turn>)
    requires limit > 0 && Taking(start) == 0
    requires TurnOf(limit, moves).Reached? && TurnsOf(limit, start, turns).At?
    ensures Running(TurnOf(limit, moves).state.children) + Taking(TurnsOf(limit, start, turns).pieces) <= 2 * limit
  {
    TurnsAreBounded(limit, moves);
    var _ := SlotsBound(limit, start, turns);
    hide *;
  }

  lemma SomeTurn(slots: nat, pieces: seq<Piece>) returns (t: Turn)
    requires slots > 0
    ensures !AllEnded(pieces) ==> MayTurn(slots, pieces, t)
  {
    t := Exit(0);
    if !AllEnded(pieces) {
      var i :| 0 <= i < |pieces| && !pieces[i].NoPlace? && !pieces[i].Ended?;
      if pieces[i].InSlot? {
        t := Exit(i);
      } else if Taking(pieces) < slots {
        t := Enter(i);
      } else {
        var j := SomeoneInside(pieces);
        t := Exit(j);
      }
    }
  }

  lemma {:induction false} SomeoneInside(pieces: seq<Piece>) returns (i: nat)
    requires Taking(pieces) > 0
    ensures i < |pieces| && pieces[i].InSlot?
  {
    if pieces[|pieces| - 1].InSlot? {
      i := |pieces| - 1;
    } else {
      i := SomeoneInside(pieces[..|pieces| - 1]);
    }
  }
}
