/** internal/agent/round.go and workmemory.go: what memory answers, in any round of any run. */
module Recalls {
  import opened Strings
  import opened FileReads
  import opened ReadKeys
  import opened WorkMemory
  import opened Ledger
  import opened RunMemory
  import opened Rounds
  import opened Batches
  import opened Coherence

  // ---- One round, state by state.

  /** The next state of a round, and the action it goes on with. */
  function NextState(env: Env, s: Progress, actions: seq<Action>, i: nat): (r: (Progress, nat))
    requires i < |actions|
    ensures i < r.1 <= |actions|
  {
    var n := BatchFrom(env, s.mem, actions, i, 0);
    if n > 1 then (BatchRecorded(env, s, i, LinesOf(actions, i, n), n), i + n)
    else (RunOne(env, s, i, actions[i]), i + 1)
  }

  /** The round that is at s before action i comes by this state, when an action is looked up or at its
      end. */
  ghost predicate ComesBy(env: Env, s: Progress, actions: seq<Action>, i: nat, at: Progress)
    requires i <= |actions|
    decreases |actions| - i
  {
    at == s || (i < |actions| && var (next, j) := NextState(env, s, actions, i); ComesBy(env, next, actions, j, at))
  }

  /** A round ends in its last state. */
  lemma {:induction false} ComesToItsEnd(env: Env, s: Progress, actions: seq<Action>, i: nat)
    requires i <= |actions|
    ensures ComesBy(env, s, actions, i, RoundFrom(env, s, actions, i))
    decreases |actions| - i
  {
    hide BatchFrom, BatchRecorded, LinesOf, RunOne;
    if i < |actions| {
      var (next, j) := NextState(env, s, actions, i);
      ComesToItsEnd(env, next, actions, j);
    }
  }

  ghost predicate WellAnswered(env: Env) {
    Fingerprints(env) && HintsFailures(env) && OthersKeepTheTree(env)
  }

  ghost predicate Sound(env: Env, s: Progress) {
    Coherent(env, s) && Valid(s.mem.memory)
  }

  lemma NextIsSound(env: Env, s: Progress, actions: seq<Action>, i: nat)
    requires i < |actions| && WellAnswered(env) && Sound(env, s)
    ensures Sound(env, NextState(env, s, actions, i).0)
  {
    hide Coherent, Fingerprints, HintsFailures, OthersKeepTheTree, RunOne, BatchFrom, LinesOf, BatchRecorded, Valid;
    var n := BatchFrom(env, s.mem, actions, i, 0);
    if n > 1 {
      var lines := LinesOf(actions, i, n);
      BatchFromIsBatch(env, s.mem, actions, i, 0);
      LinesAreReads(env, s.mem, actions, i, n);
      BatchIsCoherent(env, s, i, lines, n);
      BatchIsValid(env, s, i, lines, n);
    } else {
      ActionIsCoherent(env, s, i, actions[i]);
      RunOneIsValid(env, s, i, actions[i]);
    }
  }

  lemma {:induction false} StatesAreSound(env: Env, s: Progress, actions: seq<Action>, i: nat, at: Progress)
    requires i <= |actions| && WellAnswered(env) && Sound(env, s) && ComesBy(env, s, actions, i, at)
    ensures Sound(env, at)
    decreases |actions| - i
  {
    hide Sound, WellAnswered, NextState;
    if at != s {
      NextIsSound(env, s, actions, i);
      var (next, j) := NextState(env, s, actions, i);
      StatesAreSound(env, next, actions, j, at);
    }
  }

  // ---- Round after round.

  /** A round of a run: what the outside answers in it, the tree it finds and what it does. */
  datatype RoundOf = RoundOf(env: Env, tree: nat, actions: seq<Action>)

  /** How a round starts: it looks at the tree first. */
  function Opening(r: RoundOf, mem: Mem): Progress {
    Progress(r.tree, "", NoFailure, Synced(mem, r.env.look(r.tree)))
  }

  function Closing(r: RoundOf, mem: Mem): Mem {
    RoundFrom(r.env, Opening(r, mem), r.actions, 0).mem
  }

  /** What a run remembers after these rounds. */
  function MemAfter(mem: Mem, rounds: seq<RoundOf>): Mem {
    if rounds == [] then mem else Closing(rounds[|rounds| - 1], MemAfter(mem, rounds[..|rounds| - 1]))
  }

  /** Which commands only read, what a command prints on a tree and how a tree looks are the same in both;
      the round, the policy, the person and all else may differ. */
  ghost predicate SameWorld(a: Env, b: Env) {
    a.isRead == b.isRead && a.exec == b.exec && a.look == b.look
  }

  ghost predicate InThisWorld(world: Env, rounds: seq<RoundOf>) {
    forall r :: r in rounds ==> SameWorld(world, r.env) && WellAnswered(r.env)
  }

  lemma PrintedInBoth(a: Env, b: Env, tree: nat, m: Memory)
    requires SameWorld(a, b) && AllPrinted(a, tree, m)
    ensures AllPrinted(b, tree, m)
  {
    hide ReadKey, FileRead, Widened, EndedWell;
    forall k | k in m.kept ensures exists command :: PrintedBy(b, tree, k, m.kept[k], command) {
      var command :| PrintedBy(a, tree, k, m.kept[k], command);
      assert PrintedBy(b, tree, k, m.kept[k], command);
    }
  }

  lemma RestsInBoth(a: Env, b: Env, mem: Mem)
    requires SameWorld(a, b) && Rests(a, mem)
    ensures Rests(b, mem)
  {
    hide AllPrinted;
    if mem.seen.Tree? {
      var t :| a.look(t) == mem.seen && AllPrinted(a, t, mem.memory);
      PrintedInBoth(a, b, t, mem.memory);
    }
  }

  lemma OpeningIsSound(r: RoundOf, mem: Mem)
    requires Rests(r.env, mem) && Valid(mem.memory) && WellAnswered(r.env)
    ensures Sound(r.env, Opening(r, mem))
  {
    hide Rests, AllPrinted, SeenIs, Fingerprints, HintsFailures, OthersKeepTheTree;
    SyncRestores(r.env, mem, r.tree);
    assert Valid(NOTHING);
  }

  /** Between two rounds: the records are those of the tree last seen. */
  lemma {:induction false} RunRests(world: Env, mem: Mem, rounds: seq<RoundOf>)
    requires Rests(world, mem) && Valid(mem.memory) && InThisWorld(world, rounds)
    ensures Rests(world, MemAfter(mem, rounds)) && Valid(MemAfter(mem, rounds).memory)
    decreases |rounds|
  {
    hide Rests, Valid, SameWorld, WellAnswered, RoundFrom, Opening;
    if rounds != [] {
      var before, r := rounds[..|rounds| - 1], rounds[|rounds| - 1];
      assert r in rounds && forall q :: q in before ==> q in rounds;
      RunRests(world, mem, before);
      OneRoundRests(world, MemAfter(mem, before), r);
    }
  }

  lemma OneRoundRests(world: Env, mem: Mem, r: RoundOf)
    requires Rests(world, mem) && Valid(mem.memory) && SameWorld(world, r.env) && WellAnswered(r.env)
    ensures Rests(world, Closing(r, mem)) && Valid(Closing(r, mem).memory)
  {
    hide Rests, Valid, WellAnswered, RoundFrom, Opening, ComesBy, Coherent;
    var start := Opening(r, mem);
    var end := RoundFrom(r.env, start, r.actions, 0);
    RestsInBoth(world, r.env, mem);
    OpeningIsSound(r, mem);
    ComesToItsEnd(r.env, start, r.actions, 0);
    StatesAreSound(r.env, start, r.actions, 0, end);
    CoherentRests(r.env, end);
    RestsInBoth(r.env, world, end.mem);
  }

  /** What a run starts from: no reads, and no look at the tree. */
  predicate RemembersNothing(mem: Mem) {
    mem.memory == NOTHING && mem.seen == Unknown
  }

  /** The run is in round r after these rounds, in this state. */
  ghost predicate Reached(mem: Mem, rounds: seq<RoundOf>, r: RoundOf, at: Progress) {
    ComesBy(r.env, Opening(r, MemAfter(mem, rounds)), r.actions, 0, at)
  }

  /** In every state of every run: whatever wrote to the tree between its rounds, and whatever else the
      outside answers from one to the next, every record is what its command prints on the tree as it is. */
  lemma RoundsAreCoherent(world: Env, mem: Mem, rounds: seq<RoundOf>, r: RoundOf, at: Progress)
    requires RemembersNothing(mem) && InThisWorld(world, rounds + [r]) && Reached(mem, rounds, r, at)
    ensures Coherent(r.env, at) && Valid(at.mem.memory)
  {
    hide Rests, AllPrinted, SeenIs, Valid, SameWorld, WellAnswered, Opening, ComesBy;
    assert r in rounds + [r] && forall q :: q in rounds ==> q in rounds + [r];
    assert Rests(world, mem) && Valid(mem.memory) by { NothingRests(world, mem); }
    RunRests(world, mem, rounds);
    var last := MemAfter(mem, rounds);
    RestsInBoth(world, r.env, last);
    OpeningIsSound(r, last);
    StatesAreSound(r.env, Opening(r, last), r.actions, 0, at);
  }

  lemma NothingRests(world: Env, mem: Mem)
    requires RemembersNothing(mem)
    ensures Rests(world, mem) && Valid(mem.memory)
  {
  }

  // ---- What is answered.

  /** The record was kept for a command of these words; for one the shell reads by its words, it is what
      the command prints, unless that command was broken over lines. */
  ghost predicate AnswersTheWords(env: Env, tree: nat, rec: ReadRecord, c: string, command: string) {
    && Fields(c) == Fields(command)
    && (PrintsByWords(env) && Unquoting(command) && OneLine(command) && OneLine(c) ==>
        rec.output == env.exec(tree, command).output)
  }

  /** The record tells the lines of the file the command asks for, whose path the shell reads as written. */
  ghost predicate AnswersTheLines(files: Files, tree: nat, rec: ReadRecord, c: string, command: string) {
    var asked := FileRead(command);
    asked.Lines? && TellsTheLines(files(tree, asked.path), rec.output, c, asked)
  }

  ghost predicate AnsweredBy(env: Env, files: Files, at: Progress, command: string, k: string, c: string) {
    && k in at.mem.memory.kept && PrintedBy(env, at.tree, k, at.mem.memory.kept[k], c)
    && (AnswersTheWords(env, at.tree, at.mem.memory.kept[k], c, command)
        || AnswersTheLines(files, at.tree, at.mem.memory.kept[k], c, command))
  }

  ghost predicate AreFiles(files: Files) {
    forall tree, path :: AFile(files(tree, path))
  }

  lemma KeptAnswer(env: Env, files: Files, at: Progress, command: string) returns (k: string, c: string)
    requires Coherent(env, at) && env.isRead(command)
    requires ReadKey(command) in at.mem.memory.kept
    ensures k == ReadKey(command) && AnsweredBy(env, files, at, command, k, c)
  {
    HitOfTheSameWords(env, at, command);
    hide Coherent, PrintedBy, PrintsByWords, Fields, ReadKey, FileRead, Unquoting, OneLine, EndedWell;
    k := ReadKey(command);
    c :| && PrintedBy(env, at.tree, k, at.mem.memory.kept[k], c) && Fields(c) == Fields(command)
         && (PrintsByWords(env) && Unquoting(command) && OneLine(command) && OneLine(c) ==>
             at.mem.memory.kept[k].output == env.exec(at.tree, command).output && EndedWell(env.exec(at.tree, command)));
  }

  lemma HeldAnswer(env: Env, files: Files, at: Progress, command: string, k: string) returns (c: string)
    requires Coherent(env, at) && PrintsLines(env, files) && AreFiles(files)
    requires FileRead(command).Lines? && Holds(at.mem.memory, k, FileRead(command))
    ensures AnsweredBy(env, files, at, command, k, c)
  {
    var asked := FileRead(command);
    hide Coherent, PrintedBy, PrintsLines, FileRead, Whole, TellsTheLines, AFile;
    assert AFile(files(at.tree, asked.path));
    HitHoldsEveryLine(env, files, at, k, asked);
    var rec := at.mem.memory.kept[k];
    c :| PrintedBy(env, at.tree, k, rec, c) && TellsTheLines(files(at.tree, asked.path), rec.output, c, asked);
  }

  /** The record an answer comes from. */
  lemma AnswerComesFrom(env: Env, files: Files, at: Progress, command: string) returns (k: string, c: string)
    requires Coherent(env, at) && Valid(at.mem.memory) && PrintsLines(env, files) && AreFiles(files)
    requires env.isRead(command) && AnswerTo(at.mem.memory, command).Recalled?
    ensures AnsweredBy(env, files, at, command, k, c)
    ensures at.mem.memory.kept[k].round == AnswerTo(at.mem.memory, command).round
  {
    var m := at.mem.memory;
    AnswerIsAnAnswer(m, command);
    hide Coherent, Valid, PrintsLines, AreFiles, AnswerTo, ReadKey, FileRead, Shown, Holds, AnsweredBy;
    if ReadKey(command) in m.kept && Shown(m, ReadKey(command)) {
      k, c := KeptAnswer(env, files, at, command);
    } else {
      k :| Holds(m, k, FileRead(command)) && m.kept[k].round == AnswerTo(m, command).round;
      c := HeldAnswer(env, files, at, command, k);
    }
  }

  ghost predicate TrulyAnswered(env: Env, files: Files, at: Progress, command: string, round: nat) {
    exists k, c :: AnsweredBy(env, files, at, command, k, c) && at.mem.memory.kept[k].round == round
  }

  /** In every state of every run, a read answered from memory is answered with the record of a read that
      printed it on the tree as it is. */
  lemma AnswersAreTrue(world: Env, files: Files, mem: Mem, rounds: seq<RoundOf>, r: RoundOf, at: Progress,
                       command: string)
    requires RemembersNothing(mem) && InThisWorld(world, rounds + [r]) && Reached(mem, rounds, r, at)
    requires PrintsLines(r.env, files) && AreFiles(files) && r.env.isRead(command)
    requires AnswerTo(at.mem.memory, command).Recalled?
    ensures TrulyAnswered(r.env, files, at, command, AnswerTo(at.mem.memory, command).round)
  {
    RoundsAreCoherent(world, mem, rounds, r, at);
    hide *;
    var k, c := AnswerComesFrom(r.env, files, at, command);
  }

  // ---- The sources are those of the last look.

  /** The last look is of the tree as it is, unless something may have written since. */
  predicate LookIsCurrent(env: Env, s: Progress) {
    s.mem.unsynced || s.mem.seen == env.look(s.tree)
  }

  lemma RecordedIsCurrent(env: Env, s: Progress, i: nat, command: string, r: Ran)
    requires LookIsCurrent(env, s)
    ensures LookIsCurrent(env, Recorded(env, s, i, command, r, TreeAfter(env, s.tree, command)))
  {
    hide Noted, Remembered, EndedWell, Printed;
  }

  lemma OneIsCurrent(env: Env, s: Progress, i: nat, action: Action)
    requires LookIsCurrent(env, s)
    ensures LookIsCurrent(env, RunOne(env, s, i, action))
  {
    hide Recorded, Refused, AnswerTo, Blank, Hinted;
    if action.Shell? {
      var command := action.command;
      RecordedIsCurrent(env, s, i, command, Hinted(env, command, env.exec(s.tree, command)));
      RefusedKeepsAll(s, i, command, env.fake(command));
      if env.verdict(command).Deny? {
        RefusedKeepsAll(s, i, command, env.verdict(command).reason);
      }
    }
  }

  lemma {:induction false} BatchIsCurrent(env: Env, s: Progress, first: nat, batch: seq<string>, n: nat)
    requires LookIsCurrent(env, s) && n <= |batch| && forall j :: 0 <= j < n ==> env.isRead(batch[j])
    ensures LookIsCurrent(env, BatchRecorded(env, s, first, batch, n))
  {
    hide Recorded, LookIsCurrent;
    if n > 0 {
      var before := BatchRecorded(env, s, first, batch, n - 1);
      BatchIsCurrent(env, s, first, batch, n - 1);
      RecordedIsCurrent(env, before, first + n - 1, batch[n - 1], env.exec(s.tree, batch[n - 1]));
    }
  }

  lemma {:induction false} StatesAreCurrent(env: Env, s: Progress, actions: seq<Action>, i: nat, at: Progress)
    requires i <= |actions| && LookIsCurrent(env, s) && ComesBy(env, s, actions, i, at)
    ensures LookIsCurrent(env, at)
    decreases |actions| - i
  {
    hide LookIsCurrent, RunOne, BatchFrom, LinesOf, BatchRecorded;
    if at != s {
      var (next, j) := NextState(env, s, actions, i);
      var n := BatchFrom(env, s.mem, actions, i, 0);
      if n > 1 {
        BatchFromIsBatch(env, s.mem, actions, i, 0);
        LinesAreReads(env, s.mem, actions, i, n);
        BatchIsCurrent(env, s, i, LinesOf(actions, i, n), n);
      } else {
        OneIsCurrent(env, s, i, actions[i]);
      }
      StatesAreCurrent(env, next, actions, j, at);
    }
  }

  /** In every state of a round, the fingerprint of the sources that is taken, from the last look or by
      walking the tree, is the one the tree gives. */
  lemma SourcesAreCurrent(r: RoundOf, mem: Mem, at: Progress)
    requires ComesBy(r.env, Opening(r, mem), r.actions, 0, at)
    ensures SourcesOf(at.mem, r.env.look(at.tree)) == r.env.look(at.tree)
  {
    assert LookIsCurrent(r.env, Opening(r, mem));
    hide Opening, ComesBy;
    StatesAreCurrent(r.env, Opening(r, mem), r.actions, 0, at);
  }
}
