/** internal/agent/workmemory.go: the working memory of a run, updated in place. */
module RunMemory {
  import opened Strings
  import opened FileReads
  import opened WorkMemory
  import opened Ledger

  /** What a walk of the working tree gives: its fingerprint, when it could be taken, and that of its
      sources. */
  datatype Look = Unknown | Tree(all: string, sources: string)

  /** What a run remembers. */
  datatype Mem = Mem(
    memory: Memory, seen: Look, unsynced: bool, executed: nat, recalled: nat, verif: Checks)

  /** Every kept read is dropped when the tree is not the one last seen, or cannot be told to be. */
  function Synced(mem: Mem, now: Look): Mem {
    mem.(memory := if now.Tree? && mem.seen.Tree? && now.all == mem.seen.all then mem.memory else NOTHING,
         seen := now, unsynced := false)
  }

  /** The sources are those of the last walk when nothing may have written since. */
  function SourcesOf(mem: Mem, walk: Look): Look {
    if mem.seen.Tree? && !mem.unsynced then mem.seen else walk
  }

  /** The key is not among the first i of the order. */
  predicate SoughtUpTo(order: seq<string>, key: string, i: nat) {
    i <= |order| && Without(order, key) == order[..i] + Without(order[i..], key)
  }

  lemma SoughtFromTheStart(order: seq<string>, key: string)
    ensures SoughtUpTo(order, key, 0)
  {
    hide Without;
    assert order[..0] == [] && order[0..] == order;
    assert [] + Without(order, key) == Without(order, key);
  }

  lemma SoughtAt(order: seq<string>, key: string, i: nat)
    requires i < |order| && SoughtUpTo(order, key, i)
    ensures order[i] == key ==> Without(order, key) == order[..i] + order[i + 1..]
    ensures order[i] != key ==> SoughtUpTo(order, key, i + 1)
  {
    var rest := order[i..];
    assert rest[0] == order[i] && rest[1..] == order[i + 1..];
    assert Without(rest, key) == if order[i] == key then order[i + 1..] else [order[i]] + Without(order[i + 1..], key);
    hide Without;
    assert order[..i] + ([order[i]] + Without(order[i + 1..], key)) == order[..i + 1] + Without(order[i + 1..], key);
  }

  lemma SoughtToTheEnd(order: seq<string>, key: string)
    requires SoughtUpTo(order, key, |order|)
    ensures Without(order, key) == order
  {
    assert order[|order|..] == [] && order[..|order|] == order;
    assert order + [] == order;
  }

  class WorkingMemory {
    var kept: map<string, ReadRecord>
    var order: seq<string>
    var seen: Look
    var unsynced: bool
    var executed: nat
    var recalled: nat
    const ledger: CheckLedger

    constructor (ledger: CheckLedger)
      ensures this.ledger == ledger
      ensures View() == Mem(NOTHING, Unknown, false, 0, 0, ledger.verif)
      ensures IsValid()
    {
      kept, order, seen, unsynced, executed, recalled := map[], [], Unknown, false, 0, 0;
      this.ledger := ledger;
    }

    ghost function Reads(): Memory
      reads this`kept, this`order
    {
      Memory(kept, order)
    }

    ghost predicate IsValid()
      reads this`kept, this`order
    {
      Valid(Reads())
    }

    ghost function View(): Mem
      reads this, ledger
    {
      Mem(Reads(), seen, unsynced, executed, recalled, ledger.verif)
    }

    /** Newest first, each read in what is left of the budget. */
    method Layout() returns (shown: set<string>, whole: set<string>)
      requires IsValid()
      ensures forall k :: k in shown <==> Shown(Reads(), k)
      ensures forall k :: k in whole <==> Whole(Reads(), k)
    {
      hide LayFrom, KeyIn, WholeIn;
      ghost var m := Reads();
      ghost var done: seq<Laid> := [];
      assert forall k :: !KeyIn(done, k) && !WholeIn(done, k) by { NothingDone(); }
      shown, whole := {}, {};
      var left := EVIDENCE_TOTAL;
      var i := |order|;
      while i > 0 && left > 0
        invariant 0 <= i <= |order| && left >= 0
        invariant LayOut(m) == done + LayFrom(m, i, left)
        invariant forall k :: k in shown <==> KeyIn(done, k)
        invariant forall k :: k in whole <==> WholeIn(done, k)
        decreases i
      {
        LayStep(m, i, left, done);
        var key := order[i - 1];
        var size := |kept[key].output|;
        var limit := Min(EVIDENCE_EACH, left);
        DoneGrows(done, Laid(key, size <= limit));
        shown := shown + {key};
        if size <= limit {
          whole := whole + {key};
        }
        done := done + [Laid(key, size <= limit)];
        left := left - Min(size, limit);
        i := i - 1;
      }
      NothingLeftToLay(m, i, left);
      assert done + [] == done;
    }

    /** Whether a command is answered by a read that is still shown, and of which round. */
    method Recall(command: string) returns (a: Answer)
      requires IsValid()
      ensures IsAnswer(Reads(), command, a)
    {
      ghost var m := Reads();
      hide LayOut, FileRead, ReadKey;
      var key := ReadKey(command);
      var shown, whole := Layout();
      if key in kept && key in shown {
        return Recalled(kept[key].round);
      }
      var lines := FileRead(command);
      if lines.NotALineRead? {
        return Run;
      }
      a := BestOf(lines, whole);
    }

    /** Of the reads that hold these lines, whatever order they are looked at in, the newest round. */
    method BestOf(lines: Lines, whole: set<string>) returns (a: Answer)
      requires IsValid() && lines.Lines? && forall k :: k in whole <==> Whole(Reads(), k)
      ensures if exists k :: Holds(Reads(), k, lines) then a.Recalled? && Newest(Reads(), lines, a.round) else a == Run
    {
      hide Whole, Valid;
      ghost var m := Reads();
      a := Run;
      var left := kept.Keys;
      while left != {}
        invariant left <= kept.Keys
        invariant a == Run ==> forall k :: k in kept && k !in left ==> !Holds(m, k, lines)
        invariant a.Recalled? ==> exists k :: k in kept && k !in left && Holds(m, k, lines) && kept[k].round == a.round
        invariant a.Recalled? ==> forall k :: k in kept && k !in left && Holds(m, k, lines) ==> kept[k].round <= a.round
      {
        var k :| k in left;
        left := left - {k};
        var held := kept[k];
        if k !in whole || held.lines.NotALineRead? || held.lines.path != lines.path
          || held.lines.first > lines.first || held.lines.last < lines.last
        {
          continue;
        }
        assert Holds(m, k, lines);
        if a == Run || held.round > a.round {
          a := Recalled(held.round);
        }
      }
    }

    method Forget(key: string)
      requires IsValid()
      modifies this`kept, this`order
      ensures IsValid() && Reads() == Forgotten(old(Reads()), key)
    {
      hide Valid, Without, SoughtUpTo;
      ghost var m, all := Reads(), order;
      ForgottenIsValid(m, key);
      kept := kept - {key};
      var i := 0;
      SoughtFromTheStart(all, key);
      while i < |order|
        invariant 0 <= i <= |order| && order == all && kept == m.kept - {key}
        invariant SoughtUpTo(all, key, i)
      {
        SoughtAt(all, key, i);
        if order[i] == key {
          order := order[..i] + order[i + 1..];
          return;
        }
        i := i + 1;
      }
      SoughtToTheEnd(all, key);
    }

    method Remember(command: string, round: nat, output: string)
      requires IsValid()
      modifies this`kept, this`order
      ensures IsValid() && Reads() == Remembered(old(Reads()), command, round, output)
    {
      hide ReadKey, FileRead, Valid, Forgotten;
      RememberedIsValid(Reads(), command, round, output);
      var key := ReadKey(command);
      if key in kept {
        Forget(key);
      }
      var lines := FileRead(command);
      if lines.Lines? && lines.last != WHOLE_FILE &&
        CountChar(TrimRight(output, {'\n'}), '\n') + 1 < lines.last - lines.first + 1
      {
        lines := lines.(last := WHOLE_FILE);
      }
      kept := kept[key := ReadRecord(round, output, lines)];
      order := order + [key];
    }

    method Invalidate()
      modifies this`kept, this`order
      ensures IsValid() && Reads() == NOTHING
    {
      kept, order := map[], [];
    }

    method Sync(now: Look) returns (changed: bool)
      requires IsValid()
      modifies this`kept, this`order, this`seen, this`unsynced
      ensures IsValid() && View() == Synced(old(View()), now)
      ensures changed ==> Reads() == NOTHING
    {
      changed := now.Unknown? || seen.Unknown? || now.all != seen.all;
      seen, unsynced := now, false;
      if changed {
        Invalidate();
      }
    }
  }

  lemma NothingDone()
    ensures forall k :: !KeyIn([], k) && !WholeIn([], k)
  {
  }

  lemma NothingLeftToLay(m: Memory, i: nat, left: nat)
    requires Valid(m) && i <= |m.order| && (i == 0 || left == 0)
    ensures LayFrom(m, i, left) == []
  {
  }

  lemma LayStep(m: Memory, i: nat, left: nat, done: seq<Laid>)
    requires Valid(m) && 0 < i <= |m.order| && left > 0
    requires LayOut(m) == done + LayFrom(m, i, left)
    ensures m.order[i - 1] in m.kept
    ensures var size, limit := |m.kept[m.order[i - 1]].output|, Min(EVIDENCE_EACH, left);
      LayOut(m) == done + [Laid(m.order[i - 1], size <= limit)] + LayFrom(m, i - 1, left - Min(size, limit))
  {
    assert m.order[i - 1] in m.order;
    hide *;
    NewestFirst(m, i, left, 1);
    SizeIs(m, i - 1);
    MinIsLess(EVIDENCE_EACH, left);
    MinIsLess(|Output(m, i - 1)|, Min(EVIDENCE_EACH, left));
  }

  lemma SizeIs(m: Memory, i: nat)
    requires Valid(m) && i < |m.order|
    ensures m.order[i] in m.kept && Output(m, i) == m.kept[m.order[i]].output
  {
    assert m.order[i] in m.order;
  }

  lemma DoneGrows(done: seq<Laid>, one: Laid)
    ensures forall k :: KeyIn(done + [one], k) <==> KeyIn(done, k) || k == one.key
    ensures forall k :: WholeIn(done + [one], k) <==> WholeIn(done, k) || one == Laid(k, true)
  {
    var all := done + [one];
    assert all[|done|] == one;
    assert forall j :: 0 <= j < |done| ==> all[j] == done[j];
  }
}
