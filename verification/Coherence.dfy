/** internal/agent/workmemory.go and round.go: what is answered from memory is what running the
    command again would print. */
module Coherence {
  import opened Strings
  import opened FileReads
  import opened ReadKeys
  import opened WorkMemory
  import opened Ledger
  import opened RunMemory
  import opened Approvals
  import opened Rounds
  import opened Batches

  // ---- Files and what a read of them prints.

  /** The lines of the file a path names, in a state of the tree. */
  type Files = (nat, string) -> seq<string>

  predicate IsLine(line: string) {
    '\n' !in line
  }

  function Printout(lines: seq<string>): string {
    if lines == [] then "" else Printout(lines[..|lines| - 1]) + lines[|lines| - 1] + "\n"
  }

  /** Lines first..last of a file, as far as it goes. */
  function Slice(file: seq<string>, first: int, last: int): seq<string>
    requires 1 <= first
  {
    var end := if last < |file| then last else |file|;
    if first - 1 <= end then file[first - 1..end] else []
  }

  /** cat -n numbers what it prints. */
  predicate Numbers(command: string) {
    var words := Fields(command);
    |words| > 1 && words[0] == "cat" && words[1] == "-n"
  }

  /** A command recognised as a read of some lines prints those lines, when it ends well, does not number
      them, and its path is one the shell reads as it is written. */
  ghost predicate PrintsLines(env: Env, files: Files) {
    forall tree, command :: env.isRead(command) ==> PrintsItsLines(env, files, tree, command)
  }

  predicate PrintsItsLines(env: Env, files: Files, tree: nat, command: string) {
    var lines, r := FileRead(command), env.exec(tree, command);
    lines.Lines? && ReadsAsWritten(command) && !Numbers(command) && EndedWell(r) ==>
      r.output == Printout(Slice(files(tree, lines.path), lines.first, lines.last))
  }

  // ---- Widening a range that came back short.

  /** What the memory takes for the number of lines of an output. */
  function LinesCounted(output: string): nat {
    CountChar(TrimRight(output, {'\n'}), '\n') + 1
  }

  lemma TrimOneNewline(s: string)
    ensures TrimRight(s + "\n", {'\n'}) == TrimRight(s, {'\n'})
  {
    assert (s + "\n")[..|s|] == s;
  }

  lemma {:induction false} NoNewlines(s: string)
    requires IsLine(s)
    ensures CountChar(s, '\n') == 0
  {
    if s != "" {
      assert s[0] in s;
      assert forall c :: c in s[1..] ==> c in s;
      NoNewlines(s[1..]);
    }
  }

  lemma {:induction false} NewlinesOfPrintout(lines: seq<string>)
    requires forall l :: l in lines ==> IsLine(l)
    ensures CountChar(Printout(lines), '\n') == |lines|
  {
    if lines != [] {
      var init, last := lines[..|lines| - 1], lines[|lines| - 1];
      NewlinesOfPrintout(init);
      assert last in lines;
      NoNewlines(last);
      CountAppend(Printout(init) + last, "\n", '\n');
      CountAppend(Printout(init), last, '\n');
      assert CountChar("\n", '\n') == 1;
    }
  }

  /** A printout whose last line is not blank is counted right; a blank last line is not counted. */
  lemma {:induction false} CountedLines(lines: seq<string>)
    requires lines != [] && forall l :: l in lines ==> IsLine(l)
    ensures lines[|lines| - 1] != "" ==> LinesCounted(Printout(lines)) == |lines|
    ensures lines[|lines| - 1] == "" ==> LinesCounted(Printout(lines)) == LinesCounted(Printout(lines[..|lines| - 1]))
  {
    var init, last := lines[..|lines| - 1], lines[|lines| - 1];
    var before := Printout(init);
    assert last in lines;
    TrimOneNewline(before + last);
    if last != "" {
      assert last[|last| - 1] in last;
      NewlinesOfPrintout(init);
      NoNewlines(last);
      CountAppend(before, last, '\n');
    } else {
      assert before + last == before;
    }
    hide TrimRight, CountChar;
  }

  lemma {:induction false} CountedAtMost(lines: seq<string>)
    requires forall l :: l in lines ==> IsLine(l)
    ensures LinesCounted(Printout(lines)) <= if lines == [] then 1 else |lines|
  {
    if lines != [] {
      CountedLines(lines);
      CountedAtMost(lines[..|lines| - 1]);
    }
    hide LinesCounted;
  }

  /** A read of lines first..last of a longer file is taken to have reached its end exactly when its
      last line is blank and it asked for more than one. */
  lemma WidenedWrongly(file: seq<string>, path: string, first: int, last: int)
    requires 1 <= first <= last < |file| && last != WHOLE_FILE && forall l :: l in file ==> IsLine(l)
    ensures Widened(Lines(path, first, last), Printout(Slice(file, first, last))).last == WHOLE_FILE
      <==> last > first && file[last - 1] == ""
  {
    var lines := Slice(file, first, last);
    assert lines == file[first - 1..last] && lines[|lines| - 1] == file[last - 1];
    assert forall l :: l in lines ==> l in file;
    CountedLines(lines);
    CountedAtMost(lines[..|lines| - 1]);
    hide LinesCounted, Printout;
  }

  /** The shortest case: two lines asked for of a file of three, the second blank. */
  lemma WidenedByABlankLine()
    ensures Printout(Slice(["a", "", "b"], 1, 2)) == "a\n\n"
    ensures Widened(Lines("f", 1, 2), "a\n\n") == Lines("f", 1, WHOLE_FILE)
  {
    var file := ["a", "", "b"];
    assert Slice(file, 1, 2) == ["a", ""];
    assert ["a", ""][..1] == ["a"] && ["a"][..0] == [];
    assert Printout(["a"]) == "a\n";
    TrimOneNewline("a\n");
    assert "a\n" + "\n" == "a\n\n";
    TrimOneNewline("a");
    assert "a" + "\n" == "a\n";
    NoNewlines("a");
  }

  // ---- What is kept was printed by the tree as it is.

  /** Two states of the tree no read tells apart. */
  ghost predicate SameReads(env: Env, t: nat, u: nat) {
    forall command :: env.isRead(command) ==> env.exec(t, command) == env.exec(u, command)
  }

  /** The fingerprint tells every two states apart that some read does, when it can be taken. */
  ghost predicate Fingerprints(env: Env) {
    forall t, u :: env.look(t).Tree? && env.look(u).Tree? && env.look(t).all == env.look(u).all ==> SameReads(env, t, u)
  }

  /** An action that is no shell command and wrote no file left the tree as it was. */
  ghost predicate OthersKeepTheTree(env: Env) {
    forall t, i :: env.other(t, i).Handled? && !env.other(t, i).wroteFile ==> SameReads(env, t, env.other(t, i).tree)
  }

  /** The record of a key is what a command of those words prints on this tree. */
  ghost predicate PrintedBy(env: Env, tree: nat, k: string, rec: ReadRecord, command: string) {
    && ReadKey(command) == k && env.isRead(command) && EndedWell(env.exec(tree, command))
    && rec.output == env.exec(tree, command).output
    && rec.lines == Widened(FileRead(command), rec.output)
  }

  ghost predicate AllPrinted(env: Env, tree: nat, m: Memory) {
    forall k :: k in m.kept ==> exists command :: PrintedBy(env, tree, k, m.kept[k], command)
  }

  ghost predicate SeenIs(env: Env, mem: Mem, tree: nat) {
    mem.seen.Tree? ==> exists t :: env.look(t) == mem.seen && SameReads(env, t, tree)
  }

  /** Inside a round: every record is what the tree prints now, and the fingerprint is this tree's. */
  ghost predicate Coherent(env: Env, s: Progress) {
    AllPrinted(env, s.tree, s.mem.memory) && SeenIs(env, s.mem, s.tree)
  }

  /** Between rounds, when anything may have written: the records are those of the tree last seen. */
  ghost predicate Rests(env: Env, mem: Mem) {
    mem.seen.Tree? ==> exists t :: env.look(t) == mem.seen && AllPrinted(env, t, mem.memory)
  }

  lemma PrintedOnBoth(env: Env, t: nat, u: nat, m: Memory)
    requires SameReads(env, t, u) && AllPrinted(env, t, m)
    ensures AllPrinted(env, u, m)
  {
    hide ReadKey, FileRead, Widened, EndedWell;
    forall k | k in m.kept ensures exists command :: PrintedBy(env, u, k, m.kept[k], command) {
      var command :| PrintedBy(env, t, k, m.kept[k], command);
      assert PrintedBy(env, u, k, m.kept[k], command);
    }
  }

  /** A sync makes the memory that of the tree as it is, whatever wrote to it before. */
  lemma {:induction false} SyncRestores(env: Env, mem: Mem, tree: nat)
    requires Fingerprints(env) && Rests(env, mem)
    ensures AllPrinted(env, tree, Synced(mem, env.look(tree)).memory)
    ensures SeenIs(env, Synced(mem, env.look(tree)), tree)
  {
    var now := env.look(tree);
    assert SameReads(env, tree, tree);
    if now.Tree? && mem.seen.Tree? && now.all == mem.seen.all {
      var t :| env.look(t) == mem.seen && AllPrinted(env, t, mem.memory);
      assert SameReads(env, t, tree);
      PrintedOnBoth(env, t, tree, mem.memory);
    }
    hide AllPrinted;
    assert AllPrinted(env, tree, NOTHING);
  }

  /** A round leaves the memory at rest, ready for anything to write before the next. */
  lemma CoherentRests(env: Env, s: Progress)
    requires Coherent(env, s)
    ensures Rests(env, s.mem)
  {
    if s.mem.seen.Tree? {
      var t :| env.look(t) == s.mem.seen && SameReads(env, t, s.tree);
      PrintedOnBoth(env, s.tree, t, s.mem.memory);
    }
  }

  // ---- One action keeps it.

  lemma RememberingPrints(env: Env, tree: nat, m: Memory, command: string, round: nat, output: string)
    requires AllPrinted(env, tree, m) && env.isRead(command)
    requires EndedWell(env.exec(tree, command)) && output == env.exec(tree, command).output
    ensures AllPrinted(env, tree, Remembered(m, command, round, output))
  {
    hide FileRead, Widened, EndedWell;
    var now, key := Remembered(m, command, round, output), ReadKey(command);
    assert PrintedBy(env, tree, key, now.kept[key], command);
    hide ReadKey;
    forall k | k in now.kept ensures exists c :: PrintedBy(env, tree, k, now.kept[k], c) {
      if k != key {
        assert k in m.kept && now.kept[k] == m.kept[k];
      }
    }
  }

  /** A command that ran and was recorded: a read on the tree as it is, or a line after which the tree
      is looked at again. */
  lemma RecordedIsCoherent(env: Env, s: Progress, i: nat, command: string, r: Ran)
    requires Coherent(env, s) && Fingerprints(env)
    requires EndedWell(r) ==> r == env.exec(s.tree, command)
    ensures Coherent(env, Recorded(env, s, i, command, r, TreeAfter(env, s.tree, command)))
  {
    hide AllPrinted, SeenIs, Noted, Printed, Remembered, Synced, EndedWell;
    var e := Execution(command, env.round, r.exit, r.couldNotRun, r.output, env.reportsFailure(r.output));
    var noted := s.mem.(executed := s.mem.executed + 1, verif := Noted(s.mem.verif, e, env.checks));
    if !env.isRead(command) {
      CoherentRests(env, s);
      SyncRestores(env, noted, TreeAfter(env, s.tree, command));
    } else {
      SeenAlike(env, s.mem, noted, s.tree);
      if EndedWell(r) {
        RememberingPrints(env, s.tree, s.mem.memory, command, env.round, r.output);
        SeenAlike(env, s.mem, noted.(memory := Remembered(noted.memory, command, env.round, r.output)), s.tree);
      }
    }
  }

  lemma SeenAlike(env: Env, a: Mem, b: Mem, tree: nat)
    requires SeenIs(env, a, tree) && a.seen == b.seen
    ensures SeenIs(env, b, tree)
  {
    hide SameReads;
  }

  /** Only the tree, the records and the fingerprint last seen matter. */
  lemma CoherentAlike(env: Env, a: Progress, b: Progress)
    requires Coherent(env, a) && a.tree == b.tree && a.mem.memory == b.mem.memory && a.mem.seen == b.mem.seen
    ensures Coherent(env, b)
  {
    hide AllPrinted;
    SeenAlike(env, a.mem, b.mem, a.tree);
    hide SeenIs;
  }

  lemma EndingWellIsNotHinted(env: Env, command: string, r: Ran)
    requires HintsFailures(env) && EndedWell(Hinted(env, command, r))
    ensures Hinted(env, command, r) == r
  {
    assert env.hint(command, r.output, r.exit) == "";
    assert r.output + "" == r.output;
  }

  lemma LineIsCoherent(env: Env, s: Progress, i: nat, command: string)
    requires Coherent(env, s) && Fingerprints(env) && HintsFailures(env)
    ensures Coherent(env, RunLine(env, s, i, command))
  {
    hide Coherent, Fingerprints, HintsFailures, Recorded, Refused;
    var r := Hinted(env, command, env.exec(s.tree, command));
    if EndedWell(r) {
      EndingWellIsNotHinted(env, command, env.exec(s.tree, command));
    }
    RecordedIsCoherent(env, s, i, command, r);
    var after := RunLine(env, s, i, command);
    if after != Recorded(env, s, i, command, r, TreeAfter(env, s.tree, command)) {
      RefusedKeepsAll(s, i, command, env.fake(command));
      if env.verdict(command).Deny? {
        RefusedKeepsAll(s, i, command, env.verdict(command).reason);
      }
      CoherentAlike(env, s, after);
    }
  }

  lemma RefusedKeepsAll(s: Progress, i: nat, command: string, why: string)
    ensures Refused(s, i, command, why).mem == s.mem && Refused(s, i, command, why).tree == s.tree
  {
  }

  lemma OtherIsCoherent(env: Env, s: Progress, i: nat, kind: string)
    requires Coherent(env, s) && Fingerprints(env) && OthersKeepTheTree(env)
    ensures Coherent(env, RunOther(env, s, i, kind))
  {
    var after := RunOther(env, s, i, kind);
    CoherentRests(env, s);
    var unsynced := s.mem.(unsynced := true);
    match env.other(s.tree, i)
    case NotHandled =>
      hide Coherent;
      CoherentAlike(env, s, after);
    case Handled(_, _, wroteFile, tree) =>
      if wroteFile {
        var counted := unsynced.(executed := unsynced.executed + 1);
        SyncRestores(env, counted, tree);
        hide AllPrinted, SeenIs, Synced;
      } else {
        assert SameReads(env, s.tree, tree);
        PrintedOnBoth(env, s.tree, tree, s.mem.memory);
        hide AllPrinted, SeenIs;
      }
  }

  /** Any action of a round leaves every record what the tree prints now. */
  lemma ActionIsCoherent(env: Env, s: Progress, i: nat, action: Action)
    requires Coherent(env, s) && Fingerprints(env) && HintsFailures(env) && OthersKeepTheTree(env)
    ensures Coherent(env, RunOne(env, s, i, action))
  {
    hide Coherent, Fingerprints, HintsFailures, OthersKeepTheTree, RunLine, RunOther, AnswerTo, Blank, Dec;
    match action
    case Another(kind) => OtherIsCoherent(env, s, i, kind);
    case Shell(command) =>
      LineIsCoherent(env, s, i, command);
      var after := RunOne(env, s, i, action);
      if after != RunLine(env, s, i, command) {
        CoherentAlike(env, s, after);
      }
  }

  lemma {:induction false} BatchIsCoherent(env: Env, s: Progress, first: nat, batch: seq<string>, n: nat)
    requires Coherent(env, s) && Fingerprints(env) && n <= |batch| && forall j :: 0 <= j < n ==> env.isRead(batch[j])
    ensures Coherent(env, BatchRecorded(env, s, first, batch, n))
  {
    hide Coherent, Fingerprints, Recorded;
    if n > 0 {
      BatchIsCoherent(env, s, first, batch, n - 1);
      assert env.isRead(batch[n - 1]);
      var before, command := BatchRecorded(env, s, first, batch, n - 1), batch[n - 1];
      RecordedIsCoherent(env, before, first + n - 1, command, env.exec(s.tree, command));
    }
  }

  /** Through a whole round, reads side by side included, every record is what the tree prints. */
  lemma {:induction false} RoundIsCoherent(env: Env, s: Progress, actions: seq<Action>, i: nat)
    requires i <= |actions| && Coherent(env, s) && Fingerprints(env) && HintsFailures(env) && OthersKeepTheTree(env)
    ensures Coherent(env, RoundFrom(env, s, actions, i))
    decreases |actions| - i
  {
    hide Coherent, Fingerprints, HintsFailures, OthersKeepTheTree, RunOne, BatchFrom, LinesOf, BatchRecorded;
    if i < |actions| {
      var n := BatchFrom(env, s.mem, actions, i, 0);
      if n > 1 {
        var lines := LinesOf(actions, i, n);
        BatchFromIsBatch(env, s.mem, actions, i, 0);
        LinesAreReads(env, s.mem, actions, i, n);
        BatchIsCoherent(env, s, i, lines, n);
        RoundIsCoherent(env, BatchRecorded(env, s, i, lines, n), actions, i + n);
      } else {
        ActionIsCoherent(env, s, i, actions[i]);
        RoundIsCoherent(env, RunOne(env, s, i, actions[i]), actions, i + 1);
      }
    }
  }

  lemma LinesAreReads(env: Env, mem: Mem, actions: seq<Action>, i: nat, n: nat)
    requires i + n <= |actions| && forall j :: i <= j < i + n ==> ParallelRead(env, mem, actions[j])
    ensures forall j :: 0 <= j < n ==> env.isRead(LinesOf(actions, i, n)[j])
  {
    hide AnswerTo, Blank;
    forall j | 0 <= j < n ensures env.isRead(LinesOf(actions, i, n)[j]) {
      assert ParallelRead(env, mem, actions[i + j]);
    }
  }

  // ---- What a hit means.

  /** The file goes on after the last line that was asked for, which is blank, and more than one was. */
  predicate GoesOnAfterABlank(file: seq<string>, first: int, last: int) {
    1 <= first < last < |file| && file[last - 1] == ""
  }

  ghost predicate AFile(file: seq<string>) {
    |file| < WHOLE_FILE && forall l :: l in file ==> IsLine(l)
  }

  predicate IsIn(lines: Lines, n: int)
    requires lines.Lines?
  {
    lines.first <= n <= lines.last
  }

  /** A line of its own, in what was printed. */
  ghost predicate HasLine(output: string, line: string) {
    exists before, after :: IsPrintedBetween(output, before, line, after)
  }

  predicate IsPrintedBetween(output: string, before: string, line: string, after: string) {
    output == before + (line + "\n") + after && (before == "" || before[|before| - 1] == '\n')
  }

  /** Every line of the file that is asked for was printed. */
  ghost predicate HoldsTheLines(file: seq<string>, output: string, asked: Lines)
    requires asked.Lines? && 1 <= asked.first
  {
    forall n :: IsIn(asked, n) && n <= |file| ==> HasLine(output, file[n - 1])
  }

  lemma {:induction false} PrintedLine(lines: seq<string>, i: nat)
    requires i < |lines|
    ensures HasLine(Printout(lines), lines[i])
  {
    var n := |lines| - 1;
    var init, last := lines[..n], lines[n];
    if i == n {
      assert IsPrintedBetween(Printout(lines), Printout(init), last, "");
    } else {
      PrintedLine(init, i);
      var before, after :| IsPrintedBetween(Printout(init), before, init[i], after);
      assert IsPrintedBetween(Printout(lines), before, lines[i], after + last + "\n");
    }
  }

  lemma WidenedTo(lines: Lines, output: string)
    requires lines.Lines?
    ensures var w := Widened(lines, output);
      w.Lines? && w.path == lines.path && w.first == lines.first && (w.last == lines.last || w.last == WHOLE_FILE)
  {
    hide CountChar, TrimRight;
  }

  lemma NotABlankEnd(file: seq<string>, printed: Lines, output: string)
    requires AFile(file) && printed.Lines? && 1 <= printed.first <= printed.last < |file| && printed.last != WHOLE_FILE
    requires output == Printout(Slice(file, printed.first, printed.last))
    requires !GoesOnAfterABlank(file, printed.first, printed.last)
    ensures Widened(printed, output).last != WHOLE_FILE
  {
    WidenedWrongly(file, printed.path, printed.first, printed.last);
    assert printed == Lines(printed.path, printed.first, printed.last);
    hide Widened, Printout, Slice;
  }

  lemma LinesWerePrinted(file: seq<string>, printed: Lines, asked: Lines)
    requires printed.Lines? && asked.Lines? && 1 <= printed.first && 1 <= asked.first
    requires forall n :: IsIn(asked, n) && n <= |file| ==> IsIn(printed, n)
    ensures HoldsTheLines(file, Printout(Slice(file, printed.first, printed.last)), asked)
  {
    hide Printout, HasLine;
    var lines := Slice(file, printed.first, printed.last);
    forall n | IsIn(asked, n) && n <= |file| ensures HasLine(Printout(lines), file[n - 1]) {
      assert IsIn(printed, n);
      assert lines[n - printed.first] == file[n - 1];
      PrintedLine(lines, n - printed.first);
    }
  }

  /** What a record kept for command c says of the lines asked of its file: they were all printed; unless
      the path of c is one the shell reads otherwise, c numbers its lines, or it stopped at a blank line of a
      file that goes on. */
  ghost predicate TellsTheLines(file: seq<string>, output: string, c: string, asked: Lines)
    requires asked.Lines? && 1 <= asked.first
  {
    var printed := FileRead(c);
    && printed.Lines? && printed.path == asked.path
    && (!ReadsAsWritten(c) || Numbers(c) || GoesOnAfterABlank(file, printed.first, printed.last)
        || HoldsTheLines(file, output, asked))
  }

  /** A command answered because a read shown whole holds its lines: that read was printed by the tree
      as it is now, by a command over the path it names, and tells the lines the command asks for. */
  lemma HitHoldsEveryLine(env: Env, files: Files, s: Progress, k: string, asked: Lines)
    requires Coherent(env, s) && PrintsLines(env, files)
    requires asked.Lines? && 1 <= asked.first && Holds(s.mem.memory, k, asked) && AFile(files(s.tree, asked.path))
    ensures var rec := s.mem.memory.kept[k];
      exists c :: PrintedBy(env, s.tree, k, rec, c) && TellsTheLines(files(s.tree, asked.path), rec.output, c, asked)
  {
    var rec, file := s.mem.memory.kept[k], files(s.tree, asked.path);
    var c :| PrintedBy(env, s.tree, k, rec, c);
    assert PrintsItsLines(env, files, s.tree, c);
    var printed := FileRead(c);
    assert printed.Lines? && printed.path == asked.path by {
      hide CountChar, TrimRight, FileRead, ReadKey, Whole;
    }
    hide Widened, FileRead, ReadKey, Whole, Printout, Slice, EndedWell, ReadsAsWritten, Numbers, HoldsTheLines;
    if ReadsAsWritten(c) && !Numbers(c) && !GoesOnAfterABlank(file, printed.first, printed.last) {
      assert forall n :: IsIn(asked, n) && n <= |file| ==> IsIn(printed, n) by {
        hide *;
        WidenedTo(printed, rec.output);
        if printed.last < |file| && printed.last != WHOLE_FILE {
          NotABlankEnd(file, printed, rec.output);
        }
      }
      LinesWerePrinted(file, printed, asked);
    }
    assert TellsTheLines(file, rec.output, c, asked);
  }

  /** Reads without quotes or backslashes, on one line, are read by their words: the shell drops the blanks
      between them. */
  ghost predicate PrintsByWords(env: Env) {
    forall tree, a, b :: ReadByWords(env, a) && ReadByWords(env, b) && Fields(a) == Fields(b) ==>
      env.exec(tree, a) == env.exec(tree, b)
  }

  predicate ReadByWords(env: Env, command: string) {
    env.isRead(command) && Unquoting(command) && OneLine(command)
  }

  /** A command answered by its own words was printed by a command of those words; and for one on a single
      line, without quotes or backslashes, the answer is what it would print itself, unless the command it
      was kept for was broken over lines. */
  lemma HitOfTheSameWords(env: Env, s: Progress, command: string)
    requires Coherent(env, s) && ReadKey(command) in s.mem.memory.kept && env.isRead(command)
    ensures var k := ReadKey(command);
      exists c ::
        && PrintedBy(env, s.tree, k, s.mem.memory.kept[k], c) && Fields(c) == Fields(command)
        && (PrintsByWords(env) && Unquoting(command) && OneLine(command) && OneLine(c) ==>
            s.mem.memory.kept[k].output == env.exec(s.tree, command).output && EndedWell(env.exec(s.tree, command)))
  {
    hide ReadKey, FileRead, Widened, EndedWell, Fields, Unquoting, OneLine;
    var k := ReadKey(command);
    var c :| PrintedBy(env, s.tree, k, s.mem.memory.kept[k], c);
    SameKeyIsSameWords(c, command);
    if PrintsByWords(env) && Unquoting(command) && OneLine(command) && OneLine(c) {
      SameWordsSameQuotes(command, c);
      assert ReadByWords(env, c) && ReadByWords(env, command);
    }
  }

  // ---- What the hypotheses are for.

  /** The environment in which every command but one prints "one". */
  function AllButOne(odd: string): Env {
    Env(1, _ => true, _ => "", (_, _, _) => "", _ => Allow, (_, _) => Declined,
        (_, command) => Ran(if command == odd then "two" else "one", false, 0, false), (tree, _) => tree,
        _ => Tree("0", "0"), (_, _) => NotHandled, _ => false, _ => [])
  }

  function Odd(odd: string): Memory {
    Memory(map[ReadKey(odd) := ReadRecord(1, "two", Widened(FileRead(odd), "two"))], [ReadKey(odd)])
  }

  /** Commands that share a key share an answer, whatever they print. */
  lemma SharedKeySharesTheAnswer(odd: string, command: string)
    requires ReadKey(odd) == ReadKey(command) && odd != command
    ensures AllPrinted(AllButOne(odd), 0, Odd(odd)) && Valid(Odd(odd))
    ensures AnswerTo(Odd(odd), command) == Recalled(1)
    ensures Odd(odd).kept[ReadKey(command)].output != AllButOne(odd).exec(0, command).output
  {
    hide ReadKey, FileRead, Widened;
    var m, k := Odd(odd), ReadKey(odd);
    assert PrintedBy(AllButOne(odd), 0, k, m.kept[k], odd);
    OneIsShown(m, k);
    assert "two" != "one" by { assert "two"[0] != "one"[0]; }
  }

  lemma OneIsShown(m: Memory, k: string)
    requires m.order == [k]
    ensures Shown(m, k)
  {
    hide Output;
    assert LayFrom(m, 1, EVIDENCE_TOTAL)[0].key == k;
  }

  /** So a search for "a b" is answered with that for "a  b", the blank being inside quotes. */
  lemma QuotedBlanksShareAKey()
    ensures var odd, command := "grep 'a" + "  " + "b' f", "grep 'a" + " " + "b' f";
      && AllPrinted(AllButOne(odd), 0, Odd(odd)) && AnswerTo(Odd(odd), command) == Recalled(1)
      && Odd(odd).kept[ReadKey(odd)].output != AllButOne(odd).exec(0, command).output
  {
    var odd, command := "grep 'a" + "  " + "b' f", "grep 'a" + " " + "b' f";
    GapsShareAKey("grep 'a", "  ", "b' f");
    assert |odd| != |command|;
    hide *;
    SharedKeySharesTheAnswer(odd, command);
  }

  /** And one command with that of two, the break between them being a blank. */
  lemma BrokenLinesShareAKey()
    ensures var odd, command := "echo a" + "\n" + "echo b", "echo a" + " " + "echo b";
      && AllPrinted(AllButOne(odd), 0, Odd(odd)) && AnswerTo(Odd(odd), command) == Recalled(1)
      && Odd(odd).kept[ReadKey(odd)].output != AllButOne(odd).exec(0, command).output
  {
    var odd, command := "echo a" + "\n" + "echo b", "echo a" + " " + "echo b";
    GapsShareAKey("echo a", "\n", "echo b");
    assert odd[6] == '\n' && command[6] == ' ';
    hide *;
    SharedKeySharesTheAnswer(odd, command);
  }

  /** A read answers every read of the path it names, whatever files the shell opens for the two. */
  lemma {:induction false} SharedPathSharesTheAnswer(odd: string, command: string)
    requires ReadKey(odd) != ReadKey(command) && FileRead(odd).Lines? && FileRead(odd) == FileRead(command)
    ensures AllPrinted(AllButOne(odd), 0, Odd(odd)) && AnswerTo(Odd(odd), command) == Recalled(1)
    ensures Odd(odd).kept[ReadKey(odd)].output != AllButOne(odd).exec(0, command).output
  {
    var m, k, lines := Odd(odd), ReadKey(odd), FileRead(command);
    WidenedTo(lines, "two");
    hide ReadKey, FileRead, Widened, Whole, LayFrom, AnswerTo;
    assert PrintedBy(AllButOne(odd), 0, k, m.kept[k], odd);
    OneIsWhole(m, k);
    assert Holds(m, k, lines) && Valid(m);
    OnlyReadAnswers(m, k, command);
    assert odd != command && "two"[0] != "one"[0];
  }

  lemma {:induction false} OnlyReadAnswers(m: Memory, k: string, command: string)
    requires Valid(m) && m.kept.Keys == {k} && ReadKey(command) != k
    requires FileRead(command).Lines? && Holds(m, k, FileRead(command))
    ensures AnswerTo(m, command) == Recalled(m.kept[k].round)
  {
    AnswerIsAnAnswer(m, command);
    hide Whole, Shown, AnswerTo, ReadKey, FileRead, Valid;
    forall key | Holds(m, key, FileRead(command)) ensures key == k {
      assert key in m.kept.Keys;
    }
    hide Holds;
  }

  lemma OneIsWhole(m: Memory, k: string)
    requires m.order == [k] && k in m.kept && |m.kept[k].output| <= EVIDENCE_EACH
    ensures Whole(m, k)
  {
    assert LayFrom(m, 1, EVIDENCE_TOTAL)[0] == Laid(k, true);
  }

  /** A path in quotes is the path, also when it holds a backslash the shell takes away without them. */
  lemma QuotedPathSharesTheAnswer(path: string)
    requires PlainWord(path) && !HasPrefix(path, "-")
    ensures var odd, command := "cat" + " " + path, "cat" + " " + ("'" + path + "'");
      && AllPrinted(AllButOne(odd), 0, Odd(odd)) && AnswerTo(Odd(odd), command) == Recalled(1)
      && Odd(odd).kept[ReadKey(odd)].output != AllButOne(odd).exec(0, command).output
  {
    var odd, command := "cat" + " " + path, "cat" + " " + ("'" + path + "'");
    hide *;
    CatIsRead(path);
    CatWords(path);
    QuotedCatIsRead(path);
    SameKeyIsSameWords(odd, command);
    assert ["cat", path][1] != ["cat", "'" + path + "'"][1] by { assert |path| < |"'" + path + "'"|; }
    SharedPathSharesTheAnswer(odd, command);
  }

  /** A path that climbs out of a directory is the one without it, also when the directory is a link. */
  lemma ClimbSharesTheAnswer(dir: string, name: string)
    requires IsName(dir) && IsName(name) && !HasPrefix(dir, "-") && !HasPrefix(name, "-")
    ensures var odd, command := "cat" + " " + (dir + "/../" + name), "cat" + " " + name;
      && AllPrinted(AllButOne(odd), 0, Odd(odd)) && AnswerTo(Odd(odd), command) == Recalled(1)
      && Odd(odd).kept[ReadKey(odd)].output != AllButOne(odd).exec(0, command).output
  {
    var path := dir + "/../" + name;
    var odd, command := "cat" + " " + path, "cat" + " " + name;
    ClimbIsUndone(dir, name);
    assert PlainWord(name);
    hide *;
    CatIsRead(path);
    CatWords(path);
    CatIsRead(name);
    CatWords(name);
    SameKeyIsSameWords(odd, command);
    assert ["cat", path][1] != ["cat", name][1] by { assert |path| > |name|; }
    SharedPathSharesTheAnswer(odd, command);
  }

  /** A box that writes to the tree, without a sync after it, leaves the memory with what the tree no
      longer prints, and a read is answered with it. */
  function Boxed(): Env {
    Env(1, _ => true, _ => "", (_, _, _) => "", _ => Allow, (_, _) => Declined,
        (tree, _) => Ran(if tree == 0 then "before" else "after", false, 0, false), (tree, _) => tree,
        tree => if tree == 0 then Tree("0", "0") else Tree("1", "1"),
        (_, _) => Handled("started", false, false, 1), _ => false, _ => [])
  }

  lemma BoxWritesAreNotSeen()
    ensures var env := Boxed();
      var mem := Mem(Memory(map["ls" := ReadRecord(1, "before", NotALineRead)], ["ls"]), env.look(0), false, 1, 0, map[]);
      var after := RunOne(env, Progress(0, "", NoFailure, mem), 0, Another("box_up"));
      && Fingerprints(env) && HintsFailures(env)
      && AnswerTo(after.mem.memory, "ls") == Recalled(1)
      && after.mem.memory.kept["ls"].output == "before" && env.exec(after.tree, "ls").output == "after"
  {
    var env := Boxed();
    var m := Memory(map["ls" := ReadRecord(1, "before", NotALineRead)], ["ls"]);
    LastWord("ls");
    assert ReadKey("ls") == "ls";
    OneIsShown(m, "ls");
    forall t, u | env.look(t).Tree? && env.look(u).Tree? && env.look(t).all == env.look(u).all ensures SameReads(env, t, u) {
      assert "0"[0] != "1"[0];
    }
  }
}
