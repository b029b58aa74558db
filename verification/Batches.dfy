/** internal/agent/parallelreads.go: when reads that run side by side are as good as one after another. */
module Batches {
  import opened Strings
  import opened FileReads
  import opened WorkMemory
  import opened BatchMemory
  import opened Ledger
  import opened RunMemory
  import opened Rounds

  /** Every line is a read the policy allows and the memory does not hold: what makes a batch. */
  ghost predicate IsBatch(env: Env, s: Progress, batch: seq<string>) {
    && |batch| <= MAX_PARALLEL_READS
    && forall j :: 0 <= j < |batch| ==> ParallelRead(env, s.mem, Shell(batch[j]))
  }

  /** A hint is only for a command that failed, and longer than a newline. */
  ghost predicate HintsFailures(env: Env) {
    forall command, output, exit ::
      var hint := env.hint(command, output, exit);
      (exit == 0 ==> hint == "") && |hint| != 1
  }

  function Result(env: Env, s: Progress, command: string): Ran {
    env.exec(s.tree, command)
  }

  /** A read that ended well answers a later one of the same words, or of lines it holds, when it fits
      its entry of the prompt. */
  predicate Answers(command: string, output: string, later: string) {
    || ReadKey(command) == ReadKey(later)
    || var held, lines := Widened(FileRead(command), output), FileRead(later);
       && lines.Lines? && held.Lines? && |output| <= EVIDENCE_EACH
       && held.path == lines.path && held.first <= lines.first && lines.last <= held.last
  }

  predicate AnsweredByEarlier(env: Env, s: Progress, batch: seq<string>, j: nat)
    requires j < |batch|
  {
    exists h :: 0 <= h < j && EndedWell(Result(env, s, batch[h])) && Answers(batch[h], Result(env, s, batch[h]).output, batch[j])
  }

  /** Nothing tells the j-th read of a batch from one run on its own: no earlier read answers it, it is
      not refused as a made-up check, and nothing is added to what it prints. */
  predicate Plain(env: Env, s: Progress, batch: seq<string>, j: nat)
    requires j < |batch|
  {
    && !AnsweredByEarlier(env, s, batch, j)
    && env.fake(batch[j]) == ""
    && env.hint(batch[j], Result(env, s, batch[j]).output, Result(env, s, batch[j]).exit) == ""
  }

  // ---- The memory along a batch.

  function MemoryAfter(env: Env, s: Progress, batch: seq<string>, n: nat): Memory
    requires n <= |batch|
  {
    if n == 0 then s.mem.memory
    else
      var before, r := MemoryAfter(env, s, batch, n - 1), Result(env, s, batch[n - 1]);
      if EndedWell(r) then Remembered(before, batch[n - 1], env.round, r.output) else before
  }

  lemma {:induction false} MemoryOfTheBatch(env: Env, s: Progress, first: nat, batch: seq<string>, n: nat)
    requires Valid(s.mem.memory) && n <= |batch| && forall j :: 0 <= j < |batch| ==> env.isRead(batch[j])
    ensures BatchRecorded(env, s, first, batch, n).mem.memory == MemoryAfter(env, s, batch, n)
  {
    hide Remembered, Noted, Printed, Valid;
    if n > 0 {
      MemoryOfTheBatch(env, s, first, batch, n - 1);
    }
  }

  /** The keys of the reads that ended well, oldest first. */
  function CleanKeys(env: Env, s: Progress, batch: seq<string>, n: nat): (keys: seq<string>)
    requires n <= |batch|
    ensures |keys| <= n
  {
    if n == 0 then []
    else CleanKeys(env, s, batch, n - 1) + if EndedWell(Result(env, s, batch[n - 1])) then [ReadKey(batch[n - 1])] else []
  }

  lemma {:induction false} CleanKeysAre(env: Env, s: Progress, batch: seq<string>, n: nat, k: string)
    requires n <= |batch|
    ensures k in CleanKeys(env, s, batch, n) <==>
      exists h :: 0 <= h < n && EndedWell(Result(env, s, batch[h])) && ReadKey(batch[h]) == k
  {
    hide ReadKey;
    if n > 0 {
      CleanKeysAre(env, s, batch, n - 1, k);
    }
  }

  /** The record the h-th read leaves. */
  function ReadRecordOf(env: Env, s: Progress, command: string): ReadRecord {
    var output := Result(env, s, command).output;
    ReadRecord(env.round, output, Widened(FileRead(command), output))
  }

  ghost predicate OldAsBefore(m: Memory, m0: Memory, k: string) {
    && (k in m.kept ==> k in m0.kept && m.kept[k] == m0.kept[k])
    && (Shown(m, k) ==> Shown(m0, k)) && (Whole(m, k) ==> Whole(m0, k))
  }

  predicate NewestAre(order: seq<string>, keys: seq<string>) {
    |keys| <= |order| && order[|order| - |keys|..] == keys
  }

  ghost predicate Olds(m: Memory, m0: Memory, keys: seq<string>) {
    forall k :: k !in keys ==> OldAsBefore(m, m0, k)
  }

  /** The first n reads that ended well are kept as they were recorded. */
  ghost predicate Keeps(env: Env, s: Progress, batch: seq<string>, n: nat, m: Memory)
    requires n <= |batch|
  {
    forall h :: 0 <= h < n && EndedWell(Result(env, s, batch[h])) ==>
      ReadKey(batch[h]) in m.kept && m.kept[ReadKey(batch[h])] == ReadRecordOf(env, s, batch[h])
  }

  /** After n reads of a batch: the newest reads are those that ended well, and of the others nothing
      is shown that was not shown before. */
  ghost predicate Along(env: Env, s: Progress, batch: seq<string>, n: nat)
    requires n <= |batch|
  {
    var m, keys := MemoryAfter(env, s, batch, n), CleanKeys(env, s, batch, n);
    NewestAre(m.order, keys) && Olds(m, s.mem.memory, keys) && Keeps(env, s, batch, n, m)
  }

  /** One of the newest three reads is shown, whole when it fits. */
  lemma NewestAreShown(m: Memory, keys: seq<string>, k: string)
    requires Valid(m) && NewestAre(m.order, keys) && |keys| <= 3 && k in keys
    ensures k in m.kept && Shown(m, k) && (Whole(m, k) <==> |m.kept[k].output| <= EVIDENCE_EACH)
  {
    hide Valid, LayFrom, KeyIn, WholeIn;
    var i :| 0 <= i < |keys| && keys[i] == k;
    var at := |m.order| - |keys| + i;
    assert m.order[|m.order| - |keys|..][i] == m.order[at] == k;
    SizeIs(m, at);
    NewestThree(m, |m.order|, EVIDENCE_TOTAL, |m.order| - 1 - at);
  }

  lemma {:induction false} MemoryIsValid(env: Env, s: Progress, batch: seq<string>, n: nat)
    requires Valid(s.mem.memory) && n <= |batch|
    ensures Valid(MemoryAfter(env, s, batch, n))
  {
    hide Valid, Remembered;
    if n > 0 {
      MemoryIsValid(env, s, batch, n - 1);
      RememberedIsValid(MemoryAfter(env, s, batch, n - 1), batch[n - 1], env.round, Result(env, s, batch[n - 1]).output);
    }
  }

  /** A read of the batch is answered by the memory along the way exactly when an earlier one of the
      batch answers it. */
  lemma HeldAlong(env: Env, s: Progress, batch: seq<string>, n: nat)
    requires Valid(s.mem.memory) && n < |batch| && n <= 3 && Along(env, s, batch, n)
    requires !Held(s.mem.memory, batch[n])
    ensures Held(MemoryAfter(env, s, batch, n), batch[n]) <==> AnsweredByEarlier(env, s, batch, n)
  {
    MemoryIsValid(env, s, batch, n);
    if AnsweredByEarlier(env, s, batch, n) {
      EarlierIsHeld(env, s, batch, n);
    }
    if Held(MemoryAfter(env, s, batch, n), batch[n]) {
      HeldIsEarlier(env, s, batch, n);
    }
  }

  lemma {:induction false} EarlierIsHeld(env: Env, s: Progress, batch: seq<string>, n: nat)
    requires n < |batch| && n <= 3 && Valid(MemoryAfter(env, s, batch, n)) && Along(env, s, batch, n)
    requires AnsweredByEarlier(env, s, batch, n)
    ensures Held(MemoryAfter(env, s, batch, n), batch[n])
  {
    var m, keys := MemoryAfter(env, s, batch, n), CleanKeys(env, s, batch, n);
    hide MemoryAfter, CleanKeys, ReadKey, FileRead, Shown, Whole, Valid, Widened, EndedWell, NewestAre, OldAsBefore;
    var h :| 0 <= h < n && EndedWell(Result(env, s, batch[h])) && Answers(batch[h], Result(env, s, batch[h]).output, batch[n]);
    var k := ReadKey(batch[h]);
    CleanKeysAre(env, s, batch, n, k);
    NewestAreShown(m, keys, k);
    assert m.kept[k] == ReadRecordOf(env, s, batch[h]);
    if k != ReadKey(batch[n]) {
      assert Holds(m, k, FileRead(batch[n]));
    }
  }

  lemma HeldIsEarlier(env: Env, s: Progress, batch: seq<string>, n: nat)
    requires n < |batch| && n <= 3 && Valid(MemoryAfter(env, s, batch, n)) && Along(env, s, batch, n)
    requires !Held(s.mem.memory, batch[n]) && Held(MemoryAfter(env, s, batch, n), batch[n])
    ensures AnsweredByEarlier(env, s, batch, n)
  {
    var m, keys := MemoryAfter(env, s, batch, n), CleanKeys(env, s, batch, n);
    hide MemoryAfter, CleanKeys, ReadKey, FileRead, Shown, Whole, Valid, Widened, EndedWell, NewestAre, Answers;
    var key, lines := ReadKey(batch[n]), FileRead(batch[n]);
    if key in m.kept && Shown(m, key) {
      assert key in keys || OldAsBefore(m, s.mem.memory, key);
      CleanKeysAre(env, s, batch, n, key);
      var h :| 0 <= h < n && EndedWell(Result(env, s, batch[h])) && ReadKey(batch[h]) == key;
    } else {
      var k :| Holds(m, k, lines);
      assert k in keys || OldAsBefore(m, s.mem.memory, k);
      assert OldAsBefore(m, s.mem.memory, k) ==> Holds(s.mem.memory, k, lines);
      CleanKeysAre(env, s, batch, n, k);
      var h :| 0 <= h < n && EndedWell(Result(env, s, batch[h])) && ReadKey(batch[h]) == k;
      NewestAreShown(m, keys, k);
      HoldingAnswers(env, s, m, batch[h], batch[n]);
    }
  }

  lemma HoldingAnswers(env: Env, s: Progress, m: Memory, command: string, later: string)
    requires FileRead(later).Lines? && Holds(m, ReadKey(command), FileRead(later))
    requires m.kept[ReadKey(command)] == ReadRecordOf(env, s, command) && |ReadRecordOf(env, s, command).output| <= EVIDENCE_EACH
    ensures Answers(command, Result(env, s, command).output, later)
  {
    hide ReadKey, FileRead, Widened, Whole;
  }

  lemma {:induction false} NewestAreWithout(order: seq<string>, key: string, keys: seq<string>)
    requires NewestAre(order, keys) && key !in keys
    ensures NewestAre(Without(order, key), keys)
  {
    if |order| == |keys| {
      assert order == keys;
      WithoutNone(order, key);
    } else {
      var rest := order[1..];
      if order[0] != key {
        NewestAreWithout(rest, key, keys);
      }
      hide NewestAre;
    }
  }

  /** The read goes to the newest place, after the earlier ones of the batch, and takes none of theirs. */
  lemma OrderGrows(m: Memory, command: string, round: nat, output: string, keys: seq<string>)
    requires NewestAre(m.order, keys) && ReadKey(command) !in keys
    ensures var now, key := Remembered(m, command, round, output), ReadKey(command);
      && NewestAre(now.order, keys + [key])
      && key in now.kept && now.kept[key] == ReadRecord(round, output, Widened(FileRead(command), output))
      && (forall k :: k != key ==> (k in now.kept <==> k in m.kept) && (k in m.kept ==> now.kept[k] == m.kept[k]))
  {
    var key := ReadKey(command);
    hide ReadKey, FileRead, Widened;
    NewestAreWithout(m.order, key, keys);
    hide NewestAre, Without;
  }

  /** Once a read is remembered, the older reads show no more than before. */
  lemma OldsStay(m: Memory, m0: Memory, command: string, round: nat, output: string, keys: seq<string>)
    requires Valid(m) && (ReadKey(command) in m.kept ==> !Shown(m, ReadKey(command))) && Olds(m, m0, keys)
    requires NewestAre(m.order, keys) && ReadKey(command) !in keys
    ensures Olds(Remembered(m, command, round, output), m0, keys + [ReadKey(command)])
  {
    OrderGrows(m, command, round, output, keys);
    hide ReadKey, FileRead, Valid, Widened, Shown, Whole, Remembered, NewestAre;
    forall k | k !in keys + [ReadKey(command)] ensures OldAsBefore(Remembered(m, command, round, output), m0, k) {
      RememberingShowsLess(m, command, round, output, k);
      assert OldAsBefore(m, m0, k);
    }
  }

  lemma KeepsMore(env: Env, s: Progress, batch: seq<string>, n: nat, m: Memory, keys: seq<string>)
    requires n < |batch| && Keeps(env, s, batch, n, m) && EndedWell(Result(env, s, batch[n]))
    requires NewestAre(m.order, keys) && ReadKey(batch[n]) !in keys && keys == CleanKeys(env, s, batch, n)
    ensures Keeps(env, s, batch, n + 1, Remembered(m, batch[n], env.round, Result(env, s, batch[n]).output))
  {
    hide ReadKey, FileRead, Widened, Remembered, NewestAre, EndedWell, CleanKeys, Result;
    OrderGrows(m, batch[n], env.round, Result(env, s, batch[n]).output, keys);
    var now := Remembered(m, batch[n], env.round, Result(env, s, batch[n]).output);
    forall h | 0 <= h < n + 1 && EndedWell(Result(env, s, batch[h]))
      ensures ReadKey(batch[h]) in now.kept && now.kept[ReadKey(batch[h])] == ReadRecordOf(env, s, batch[h])
    {
      if h < n {
        CleanKeysAre(env, s, batch, n, ReadKey(batch[h]));
      }
    }
  }

  lemma KeepsAsMany(env: Env, s: Progress, batch: seq<string>, n: nat, m: Memory)
    requires n < |batch| && Keeps(env, s, batch, n, m) && !EndedWell(Result(env, s, batch[n]))
    ensures Keeps(env, s, batch, n + 1, m)
  {
    hide ReadKey, FileRead, Widened, EndedWell, Result;
  }

  /** One read more. */
  lemma AlongStep(env: Env, s: Progress, batch: seq<string>, n: nat)
    requires Valid(s.mem.memory) && n < |batch| && n <= 3 && Along(env, s, batch, n)
    requires !Held(s.mem.memory, batch[n]) && !AnsweredByEarlier(env, s, batch, n)
    ensures Along(env, s, batch, n + 1)
  {
    assert var m, key := MemoryAfter(env, s, batch, n), ReadKey(batch[n]);
      Valid(m) && (key in m.kept ==> !Shown(m, key)) && key !in CleanKeys(env, s, batch, n) by {
      MemoryIsValid(env, s, batch, n);
      HeldAlong(env, s, batch, n);
      hide MemoryAfter, Along, Valid, CleanKeys, Held, Shown, ReadRecordOf, ReadKey, FileRead, Widened;
      CleanKeysAre(env, s, batch, n, ReadKey(batch[n]));
    }
    hide MemoryAfter, CleanKeys, ReadKey, Valid, Shown, Held, Olds, Keeps, NewestAre, Remembered, EndedWell, Result,
      FileRead, Widened, AnsweredByEarlier;
    var m, r := MemoryAfter(env, s, batch, n), Result(env, s, batch[n]);
    var keys := CleanKeys(env, s, batch, n);
    if EndedWell(r) {
      OrderGrows(m, batch[n], env.round, r.output, keys);
      OldsStay(m, s.mem.memory, batch[n], env.round, r.output, keys);
      KeepsMore(env, s, batch, n, m, keys);
    } else {
      KeepsAsMany(env, s, batch, n, m);
    }
  }

  /** While no read of a batch is answered by an earlier one, the memory answers none of them. */
  lemma {:induction false} BatchGoesAlong(env: Env, s: Progress, batch: seq<string>, n: nat)
    requires Valid(s.mem.memory) && n <= |batch| <= MAX_PARALLEL_READS
    requires forall j :: 0 <= j < |batch| ==> !Held(s.mem.memory, batch[j])
    requires forall j :: 0 <= j < n ==> !AnsweredByEarlier(env, s, batch, j)
    ensures Along(env, s, batch, n)
  {
    hide AnsweredByEarlier, Held;
    if n == 0 {
    } else {
      BatchGoesAlong(env, s, batch, n - 1);
      AlongStep(env, s, batch, n - 1);
    }
  }

  // ---- One after another, the same.

  /** A read that nothing tells apart is run as the batch runs it. */
  lemma PlainRead(env: Env, s: Progress, i: nat, command: string)
    requires Reads(env, command) && env.verdict(command) == Allow && env.fake(command) == ""
    requires AnswerTo(s.mem.memory, command) == Answer.Run
    ensures RunOne(env, s, i, Shell(command))
         == Recorded(env, s, i, command, Hinted(env, command, env.exec(s.tree, command)), s.tree)
  {
    hide AnswerTo, Recorded, Blank;
  }

  lemma NoHint(env: Env, command: string, r: Ran)
    requires env.hint(command, r.output, r.exit) == ""
    ensures Hinted(env, command, r) == r
  {
    assert r.output + "" == r.output;
  }

  /** The last read of a batch, and those before it. */
  lemma LastRead(env: Env, s: Progress, first: nat, batch: seq<string>, n: nat)
    requires 0 < n <= |batch|
    ensures var before, r := BatchRecorded(env, s, first, batch, n - 1), Result(env, s, batch[n - 1]);
      BatchRecorded(env, s, first, batch, n) == Recorded(env, before, first + n - 1, batch[n - 1], r, s.tree)
    ensures OneByOne(env, s, first, batch, n) ==
      RunOne(env, OneByOne(env, s, first, batch, n - 1), first + n - 1, Shell(batch[n - 1]))
  {
    hide RunOne, Recorded;
  }

  lemma NoneYet(env: Env, s: Progress, first: nat, batch: seq<string>)
    ensures BatchRecorded(env, s, first, batch, 0) == OneByOne(env, s, first, batch, 0) == s
  {
  }

  lemma BatchMember(env: Env, s: Progress, batch: seq<string>, j: nat)
    requires IsBatch(env, s, batch) && j < |batch|
    ensures Reads(env, batch[j]) && env.isRead(batch[j]) && env.verdict(batch[j]) == Allow
    ensures AnswerTo(s.mem.memory, batch[j]) == Answer.Run
  {
    hide AnswerTo, Blank;
    assert ParallelRead(env, s.mem, Shell(batch[j]));
  }

  lemma PlainMeans(env: Env, s: Progress, batch: seq<string>, j: nat)
    requires j < |batch|
    ensures Plain(env, s, batch, j) <==>
      && !AnsweredByEarlier(env, s, batch, j)
      && env.fake(batch[j]) == ""
      && env.hint(batch[j], Result(env, s, batch[j]).output, Result(env, s, batch[j]).exit) == ""
  {
    hide AnsweredByEarlier;
  }

  /** If nothing tells the reads of a batch apart from reads run on their own, running them side by
      side gives the same output, failure, counters and memory as one after another. */
  lemma {:induction false} BatchIsOneByOne(env: Env, s: Progress, first: nat, batch: seq<string>, n: nat)
    requires Valid(s.mem.memory) && IsBatch(env, s, batch) && n <= |batch|
    requires forall j :: 0 <= j < n ==> Plain(env, s, batch, j)
    ensures OneByOne(env, s, first, batch, n) == BatchRecorded(env, s, first, batch, n)
  {
    hide *;
    if n == 0 {
      NoneYet(env, s, first, batch);
    } else {
      var before, command := BatchRecorded(env, s, first, batch, n - 1), batch[n - 1];
      BatchIsOneByOne(env, s, first, batch, n - 1);
      forall j | 0 <= j < n ensures !AnsweredByEarlier(env, s, batch, j) {
        PlainMeans(env, s, batch, j);
      }
      NotAnsweredAlong(env, s, first, batch, n - 1);
      BatchMember(env, s, batch, n - 1);
      PlainMeans(env, s, batch, n - 1);
      PlainRead(env, before, first + n - 1, command);
      NoHint(env, command, Result(env, s, command));
      ResultOf(env, s, before, command);
      LastRead(env, s, first, batch, n);
    }
  }

  lemma ResultOf(env: Env, s: Progress, t: Progress, command: string)
    requires t.tree == s.tree
    ensures env.exec(t.tree, command) == Result(env, s, command)
  {
  }

  lemma NotAnsweredAlong(env: Env, s: Progress, first: nat, batch: seq<string>, n: nat)
    requires Valid(s.mem.memory) && IsBatch(env, s, batch) && n < |batch|
    requires forall j :: 0 <= j < n ==> !AnsweredByEarlier(env, s, batch, j)
    ensures AnswerTo(BatchRecorded(env, s, first, batch, n).mem.memory, batch[n]) == Answer.Run
      <==> !AnsweredByEarlier(env, s, batch, n)
  {
    hide AnsweredByEarlier, Held, AnswerTo, MemoryAfter, Along, BatchRecorded, Valid, Blank;
    forall j | 0 <= j < |batch| ensures !Held(s.mem.memory, batch[j]) && env.isRead(batch[j]) {
      assert ParallelRead(env, s.mem, Shell(batch[j]));
      AnswerMeansHeld(s.mem.memory, batch[j]);
    }
    BatchGoesAlong(env, s, batch, n);
    HeldAlong(env, s, batch, n);
    MemoryOfTheBatch(env, s, first, batch, n);
    MemoryIsValid(env, s, batch, n);
    AnswerMeansHeld(MemoryAfter(env, s, batch, n), batch[n]);
  }

  // ---- One after another, and only then the same.

  /** What one read run on its own does to the count of commands that ran, and to the output. */
  lemma OneReadCounts(env: Env, s: Progress, i: nat, command: string)
    requires Reads(env, command) && env.verdict(command) == Allow
    ensures var n := RunOne(env, s, i, Shell(command));
      var ran := AnswerTo(s.mem.memory, command) == Answer.Run && env.fake(command) == "";
      && n.tree == s.tree
      && n.mem.executed == s.mem.executed + (if ran then 1 else 0)
      && (ran ==> |n.out| == |s.out| + |Printed(command, Hinted(env, command, env.exec(s.tree, command)))|)
  {
    hide AnswerTo, Blank, Remembered, Noted, Printed, Dec;
  }

  lemma RecordedCounts(env: Env, s: Progress, i: nat, command: string, r: Ran, tree: nat)
    requires env.isRead(command)
    ensures var n := Recorded(env, s, i, command, r, tree);
      n.tree == tree && n.mem.executed == s.mem.executed + 1 && |n.out| == |s.out| + |Printed(command, r)|
  {
    hide Remembered, Noted, Printed;
  }

  lemma HintedPrintsMore(env: Env, command: string, r: Ran)
    requires HintsFailures(env)
    ensures |Printed(command, Hinted(env, command, r))| >= |Printed(command, r)|
    ensures |Printed(command, Hinted(env, command, r))| == |Printed(command, r)| <==> env.hint(command, r.output, r.exit) == ""
  {
    var hint := env.hint(command, r.output, r.exit);
    assert |hint| != 1;
    hide HasSuffix, DecInt;
  }

  /** What the n-th read does, each of the two ways. */
  lemma OneReadEachWay(env: Env, s: Progress, first: nat, batch: seq<string>, n: nat)
    requires IsBatch(env, s, batch) && n < |batch| && HintsFailures(env)
    requires OneByOne(env, s, first, batch, n).tree == s.tree
    ensures var a, b := OneByOne(env, s, first, batch, n), BatchRecorded(env, s, first, batch, n);
      var x, y := OneByOne(env, s, first, batch, n + 1), BatchRecorded(env, s, first, batch, n + 1);
      var ran := AnswerTo(a.mem.memory, batch[n]) == Answer.Run && env.fake(batch[n]) == "";
      && x.tree == s.tree
      && y.mem.executed == b.mem.executed + 1 && x.mem.executed == a.mem.executed + (if ran then 1 else 0)
      && (ran ==> |x.out| - |a.out| >= |y.out| - |b.out|)
      && (ran && |x.out| - |a.out| == |y.out| - |b.out| ==>
            env.hint(batch[n], Result(env, s, batch[n]).output, Result(env, s, batch[n]).exit) == "")
  {
    hide *;
    var a, b := OneByOne(env, s, first, batch, n), BatchRecorded(env, s, first, batch, n);
    BatchMember(env, s, batch, n);
    LastRead(env, s, first, batch, n + 1);
    ResultOf(env, s, a, batch[n]);
    OneReadCounts(env, a, first + n, batch[n]);
    RecordedCounts(env, b, first + n, batch[n], Result(env, s, batch[n]), s.tree);
    HintedPrintsMore(env, batch[n], Result(env, s, batch[n]));
  }

  /** One after another, no more commands run than side by side; and if as many do, no less is printed. */
  lemma {:induction false} OneByOneCounts(env: Env, s: Progress, first: nat, batch: seq<string>, n: nat)
    requires IsBatch(env, s, batch) && n <= |batch| && HintsFailures(env)
    ensures var a, b := OneByOne(env, s, first, batch, n), BatchRecorded(env, s, first, batch, n);
      && a.tree == s.tree && a.mem.executed <= b.mem.executed
      && (a.mem.executed == b.mem.executed ==> |a.out| >= |b.out|)
  {
    hide *;
    if n == 0 {
      NoneYet(env, s, first, batch);
    } else {
      OneByOneCounts(env, s, first, batch, n - 1);
      OneReadEachWay(env, s, first, batch, n - 1);
    }
  }

  /** Where the two ways agree at the end of a batch, in what ran and in how much was printed, they
      agreed all along. */
  lemma {:induction false} AgreeingIsPlain(env: Env, s: Progress, first: nat, batch: seq<string>, n: nat)
    requires Valid(s.mem.memory) && IsBatch(env, s, batch) && n <= |batch| && HintsFailures(env)
    requires var a, b := OneByOne(env, s, first, batch, n), BatchRecorded(env, s, first, batch, n);
      a.mem.executed == b.mem.executed && |a.out| == |b.out|
    ensures forall j :: 0 <= j < n ==> Plain(env, s, batch, j)
  {
    hide *;
    if n > 0 {
      var k := n - 1;
      OneByOneCounts(env, s, first, batch, k);
      OneReadEachWay(env, s, first, batch, k);
      AgreeingIsPlain(env, s, first, batch, k);
      BatchIsOneByOne(env, s, first, batch, k);
      assert forall j :: 0 <= j < k ==> !AnsweredByEarlier(env, s, batch, j) by {
        hide *;
        forall j | 0 <= j < k ensures !AnsweredByEarlier(env, s, batch, j) {
          PlainMeans(env, s, batch, j);
        }
      }
      NotAnsweredAlong(env, s, first, batch, k);
      PlainMeans(env, s, batch, k);
    }
  }

  /** Reads run side by side give what they give one after another exactly when no read of the batch
      is answered by an earlier one, none is refused as a made-up check, and nothing is added to what
      any of them prints. */
  lemma SideBySideIsOneByOne(env: Env, s: Progress, first: nat, batch: seq<string>)
    requires Valid(s.mem.memory) && IsBatch(env, s, batch) && HintsFailures(env)
    ensures OneByOne(env, s, first, batch, |batch|) == BatchRecorded(env, s, first, batch, |batch|)
      <==> forall j :: 0 <= j < |batch| ==> Plain(env, s, batch, j)
  {
    if forall j :: 0 <= j < |batch| ==> Plain(env, s, batch, j) {
      BatchIsOneByOne(env, s, first, batch, |batch|);
    }
    if OneByOne(env, s, first, batch, |batch|) == BatchRecorded(env, s, first, batch, |batch|) {
      AgreeingIsPlain(env, s, first, batch, |batch|);
    }
    hide OneByOne, BatchRecorded, Plain;
  }

  // ---- A whole round.

  lemma RecordedIsValid(env: Env, s: Progress, i: nat, command: string, r: Ran, tree: nat)
    requires Valid(s.mem.memory)
    ensures Valid(Recorded(env, s, i, command, r, tree).mem.memory)
  {
    RememberedIsValid(s.mem.memory, command, env.round, r.output);
    assert Valid(NOTHING);
    hide Valid, Remembered, Noted, Printed;
  }

  lemma RefusedKeeps(s: Progress, i: nat, command: string, why: string)
    ensures Refused(s, i, command, why).mem == s.mem
  {
  }

  lemma AllowedIsValid(env: Env, s: Progress, i: nat, command: string)
    requires Valid(s.mem.memory)
    ensures Valid(RunAllowed(env, s, i, command).mem.memory)
  {
    hide Valid, Recorded, Hinted, TreeAfter;
    RecordedIsValid(env, s, i, command, Hinted(env, command, env.exec(s.tree, command)), TreeAfter(env, s.tree, command));
  }

  lemma RunLineIsValid(env: Env, s: Progress, i: nat, command: string)
    requires Valid(s.mem.memory)
    ensures Valid(RunLine(env, s, i, command).mem.memory)
  {
    hide Valid, RunAllowed, Refused;
    AllowedIsValid(env, s, i, command);
    if env.fake(command) != "" {
      RefusedKeeps(s, i, command, env.fake(command));
    } else if env.verdict(command).Deny? {
      RefusedKeeps(s, i, command, env.verdict(command).reason);
    }
  }

  lemma RunOtherIsValid(env: Env, s: Progress, i: nat, kind: string)
    requires Valid(s.mem.memory)
    ensures Valid(RunOther(env, s, i, kind).mem.memory)
  {
    assert Valid(NOTHING);
    hide Valid;
  }

  lemma RunOneIsValid(env: Env, s: Progress, i: nat, action: Action)
    requires Valid(s.mem.memory)
    ensures Valid(RunOne(env, s, i, action).mem.memory)
  {
    hide Valid, RunLine, RunOther, AnswerTo, Blank, Dec;
    match action
    case Shell(command) => RunLineIsValid(env, s, i, command);
    case Another(kind) => RunOtherIsValid(env, s, i, kind);
  }

  lemma {:induction false} BatchIsValid(env: Env, s: Progress, first: nat, batch: seq<string>, n: nat)
    requires Valid(s.mem.memory) && n <= |batch|
    ensures Valid(BatchRecorded(env, s, first, batch, n).mem.memory)
  {
    hide Valid, Recorded;
    if n > 0 {
      BatchIsValid(env, s, first, batch, n - 1);
      var r := Result(env, s, batch[n - 1]);
      RecordedIsValid(env, BatchRecorded(env, s, first, batch, n - 1), first + n - 1, batch[n - 1], r, s.tree);
    }
  }

  /** What a round runs side by side is a batch. */
  lemma {:induction false} BatchFromIsBatch(env: Env, mem: Mem, actions: seq<Action>, i: nat, n: nat)
    requires i + n <= |actions| && n <= MAX_PARALLEL_READS
    requires forall j :: i <= j < i + n ==> ParallelRead(env, mem, actions[j])
    ensures forall j :: i <= j < i + BatchFrom(env, mem, actions, i, n) ==> ParallelRead(env, mem, actions[j])
    decreases MAX_PARALLEL_READS - n
  {
    hide ParallelRead;
    if i + n < |actions| && n < MAX_PARALLEL_READS && ParallelRead(env, mem, actions[i + n]) {
      BatchFromIsBatch(env, mem, actions, i, n + 1);
    }
  }

  lemma LinesAreABatch(env: Env, s: Progress, actions: seq<Action>, i: nat, n: nat)
    requires i + n <= |actions| && n <= MAX_PARALLEL_READS
    requires forall j :: i <= j < i + n ==> ParallelRead(env, s.mem, actions[j])
    ensures IsBatch(env, s, LinesOf(actions, i, n))
    ensures forall j :: 0 <= j < n ==> actions[i + j] == Shell(LinesOf(actions, i, n)[j])
  {
    hide AnswerTo, Reads;
    var lines := LinesOf(actions, i, n);
    forall j | 0 <= j < n ensures actions[i + j] == Shell(lines[j]) && ParallelRead(env, s.mem, Shell(lines[j])) {
      assert ParallelRead(env, s.mem, actions[i + j]);
    }
  }

  lemma {:induction false} OneByOneThenOn(env: Env, s: Progress, actions: seq<Action>, i: nat, lines: seq<string>, n: nat)
    requires n <= |lines| && i + n <= |actions|
    requires forall j :: 0 <= j < n ==> actions[i + j] == Shell(lines[j])
    ensures OneAtATime(env, s, actions, i) == OneAtATime(env, OneByOne(env, s, i, lines, n), actions, i + n)
  {
    hide RunOne;
    if n > 0 {
      OneByOneThenOn(env, s, actions, i, lines, n - 1);
      assert actions[i + (n - 1)] == Shell(lines[n - 1]);
    }
  }

  /** Every batch the round runs side by side is one that nothing tells apart. */
  ghost predicate BatchesPlain(env: Env, s: Progress, actions: seq<Action>, i: nat)
    requires i <= |actions|
    decreases |actions| - i
  {
    i == |actions| ||
    var n := BatchFrom(env, s.mem, actions, i, 0);
    var lines := LinesOf(actions, i, n);
    if n > 1 then
      && (forall j :: 0 <= j < n ==> Plain(env, s, lines, j))
      && BatchesPlain(env, BatchRecorded(env, s, i, lines, n), actions, i + n)
    else BatchesPlain(env, RunOne(env, s, i, actions[i]), actions, i + 1)
  }

  /** A whole round with reads side by side gives what its actions give one after another: the same
      output, last failure, tree, counters and memory. */
  lemma {:induction false} RoundIsSequential(env: Env, s: Progress, actions: seq<Action>, i: nat)
    requires Valid(s.mem.memory) && i <= |actions| && BatchesPlain(env, s, actions, i)
    ensures RoundFrom(env, s, actions, i) == OneAtATime(env, s, actions, i)
    decreases |actions| - i
  {
    hide Valid, RunOne, BatchFrom, LinesOf, Plain, BatchRecorded, OneByOne, IsBatch, ParallelRead;
    if i < |actions| {
      var n := BatchFrom(env, s.mem, actions, i, 0);
      if n > 1 {
        var lines := LinesOf(actions, i, n);
        BatchFromIsBatch(env, s.mem, actions, i, 0);
        LinesAreABatch(env, s, actions, i, n);
        BatchIsOneByOne(env, s, i, lines, n);
        OneByOneThenOn(env, s, actions, i, lines, n);
        BatchIsValid(env, s, i, lines, n);
        RoundIsSequential(env, BatchRecorded(env, s, i, lines, n), actions, i + n);
      } else {
        RunOneIsValid(env, s, i, actions[i]);
        RoundIsSequential(env, RunOne(env, s, i, actions[i]), actions, i + 1);
      }
    }
  }
}
