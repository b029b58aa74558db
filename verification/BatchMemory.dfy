/** internal/agent/workmemory.go: what remembering a read does to the reads already shown. */
module BatchMemory {
  import opened Strings
  import opened FileReads
  import opened WorkMemory

  /** The newest of n reads as the layout shows it, and the others. */
  lemma NewestLaid(m: Memory, n: nat, left: nat)
    requires Valid(m) && 0 < n <= |m.order| && left > 0
    ensures var size, limit := |Output(m, n - 1)|, Min(EVIDENCE_EACH, left);
      && Min(size, limit) <= left && 0 < limit <= EVIDENCE_EACH && limit <= left
      && LayFrom(m, n, left) == [Laid(m.order[n - 1], size <= limit)] + LayFrom(m, n - 1, left - Min(size, limit))
  {
    hide Output;
  }

  lemma NothingLaid(m: Memory, n: nat, left: nat)
    requires Valid(m) && n <= |m.order| && (n == 0 || left == 0)
    ensures LayFrom(m, n, left) == []
  {
  }

  /** What is shown in a smaller budget is shown in a larger one, and so is what is shown whole. */
  ghost predicate ShowsLess(a: seq<Laid>, b: seq<Laid>) {
    && (forall k :: KeyIn(a, k) ==> KeyIn(b, k))
    && (forall k :: WholeIn(a, k) ==> WholeIn(b, k))
  }

  lemma ShowsLessCons(k: string, fits: bool, fitsToo: bool, a: seq<Laid>, b: seq<Laid>)
    requires ShowsLess(a, b) && (fits ==> fitsToo)
    ensures ShowsLess([Laid(k, fits)] + a, [Laid(k, fitsToo)] + b)
  {
    var x, y := [Laid(k, fits)] + a, [Laid(k, fitsToo)] + b;
    assert y[0] == Laid(k, fitsToo);
    forall key | KeyIn(x, key) ensures KeyIn(y, key) {
      if KeyIn(a, key) {
        var j :| 0 <= j < |b| && b[j].key == key;
        assert y[j + 1].key == key;
      }
    }
    forall key | WholeIn(x, key) ensures WholeIn(y, key) {
      var i :| 0 <= i < |x| && x[i] == Laid(key, true);
      if i > 0 {
        assert a[i - 1] == Laid(key, true);
        assert WholeIn(a, key);
        var j :| 0 <= j < |b| && b[j] == Laid(key, true);
        assert y[j + 1] == Laid(key, true);
      }
    }
  }

  lemma EmptyShowsLess(b: seq<Laid>)
    ensures ShowsLess([], b)
  {
  }

  lemma {:induction false} SmallerBudget(m: Memory, n: nat, less: nat, left: nat)
    requires Valid(m) && n <= |m.order| && less <= left
    ensures ShowsLess(LayFrom(m, n, less), LayFrom(m, n, left))
  {
    hide *;
    if n == 0 || less == 0 {
      NothingLaid(m, n, less);
      EmptyShowsLess(LayFrom(m, n, left));
    } else {
      NewestLaid(m, n, less);
      NewestLaid(m, n, left);
      var size, tight, roomy := |Output(m, n - 1)|, Min(EVIDENCE_EACH, less), Min(EVIDENCE_EACH, left);
      BudgetsShrinkAlike(size, less, left);
      SmallerBudget(m, n - 1, less - Min(size, tight), left - Min(size, roomy));
      ShowsLessCons(m.order[n - 1], size <= tight, size <= roomy,
        LayFrom(m, n - 1, less - Min(size, tight)), LayFrom(m, n - 1, left - Min(size, roomy)));
    }
  }

  lemma BudgetsShrinkAlike(size: nat, less: nat, left: nat)
    requires less <= left
    ensures less - Min(size, Min(EVIDENCE_EACH, less)) <= left - Min(size, Min(EVIDENCE_EACH, left))
    ensures size <= Min(EVIDENCE_EACH, less) ==> size <= Min(EVIDENCE_EACH, left)
  {
  }

  /** Layouts depend on the reads they lay out only. */
  ghost predicate SameReads(a: Memory, b: Memory, n: nat)
    requires Valid(a) && Valid(b)
  {
    && n <= |a.order| && n <= |b.order|
    && forall j :: 0 <= j < n ==> a.order[j] == b.order[j] && Output(a, j) == Output(b, j)
  }

  lemma {:induction false} SameLayout(a: Memory, b: Memory, n: nat, left: nat)
    requires Valid(a) && Valid(b) && SameReads(a, b, n)
    ensures LayFrom(a, n, left) == LayFrom(b, n, left)
  {
    hide LayFrom, Output, Valid;
    if n == 0 || left == 0 {
      NothingLaid(a, n, left);
      NothingLaid(b, n, left);
    } else {
      NewestLaid(a, n, left);
      NewestLaid(b, n, left);
      var size := |Output(a, n - 1)|;
      SameLayout(a, b, n - 1, left - Min(size, Min(EVIDENCE_EACH, left)));
    }
  }

  // ---- Forgetting a read the prompt does not show.

  lemma {:induction false} WithoutAt(order: seq<string>, key: string, e: nat)
    requires Distinct(order) && e < |order| && order[e] == key
    ensures Without(order, key) == order[..e] + order[e + 1..]
  {
    if e > 0 {
      WithoutAt(order[1..], key, e - 1);
      assert order[1..][..e - 1] == order[1..e] && order[1..][e..] == order[e + 1..];
      assert [order[0]] + order[1..e] == order[..e];
    }
  }

  lemma {:induction false} WithoutNone(order: seq<string>, key: string)
    requires key !in order
    ensures Without(order, key) == order
  {
    if order != [] {
      WithoutNone(order[1..], key);
    }
  }

  /** The place a read had before the e-th was forgotten. */
  function PlaceBefore(e: nat, j: nat): nat {
    if j < e then j else j + 1
  }

  lemma ForgottenOrder(m: Memory, e: nat)
    requires Valid(m) && e < |m.order|
    ensures Valid(Forgotten(m, m.order[e])) && |Forgotten(m, m.order[e]).order| == |m.order| - 1
    ensures forall j :: 0 <= j < |m.order| - 1 ==> Forgotten(m, m.order[e]).order[j] == m.order[PlaceBefore(e, j)]
  {
    ForgottenIsValid(m, m.order[e]);
    hide Without, Valid, Distinct;
    assert Distinct(m.order);
    WithoutPlaces(m.order, m.order[e], e);
  }

  lemma WithoutPlaces(order: seq<string>, key: string, e: nat)
    requires Distinct(order) && e < |order| && order[e] == key
    ensures |Without(order, key)| == |order| - 1
    ensures forall j :: 0 <= j < |order| - 1 ==> Without(order, key)[j] == order[PlaceBefore(e, j)]
  {
    WithoutAt(order, key, e);
    hide Without, Distinct;
  }

  /** The reads that are left once the e-th is forgotten. */
  lemma ForgottenRead(m: Memory, e: nat, j: nat)
    requires Valid(m) && e < |m.order| && j < |m.order| - 1
    ensures Valid(Forgotten(m, m.order[e])) && |Forgotten(m, m.order[e]).order| == |m.order| - 1
    ensures Forgotten(m, m.order[e]).order[j] == m.order[PlaceBefore(e, j)]
    ensures Output(Forgotten(m, m.order[e]), j) == Output(m, PlaceBefore(e, j))
  {
    ForgottenOrder(m, e);
    var f, i := Forgotten(m, m.order[e]), PlaceBefore(e, j);
    assert f.kept == m.kept - {m.order[e]};
    assert f.order[j] in f.order && m.order[i] in m.order && f.order[j] == m.order[i];
    hide Without, Forgotten;
  }

  /** A read the layout never reaches can be forgotten: the others are shown as they were. */
  lemma {:induction false} ForgetUnreached(m: Memory, e: nat, n: nat, left: nat)
    requires Valid(m) && e < n <= |m.order| && !KeyIn(LayFrom(m, n, left), m.order[e])
    ensures Valid(Forgotten(m, m.order[e])) && n - 1 <= |Forgotten(m, m.order[e]).order|
    ensures LayFrom(Forgotten(m, m.order[e]), n - 1, left) == LayFrom(m, n, left)
  {
    hide *;
    var f := Forgotten(m, m.order[e]);
    ForgottenOrder(m, e);
    if left == 0 {
      NothingLaid(m, n, left);
      NothingLaid(f, n - 1, left);
    } else {
      NewestLaid(m, n, left);
      var size, limit := |Output(m, n - 1)|, Min(EVIDENCE_EACH, left);
      var rest := LayFrom(m, n - 1, left - Min(size, limit));
      KeyInCons(Laid(m.order[n - 1], size <= limit), rest, m.order[e]);
      assert e < n - 1;
      ForgetUnreached(m, e, n - 1, left - Min(size, limit));
      NewestLaid(f, n - 1, left);
      ForgottenRead(m, e, n - 2);
      PlaceAfter(e, n - 2);
    }
  }

  lemma PlaceAfter(e: nat, j: nat)
    requires e <= j
    ensures PlaceBefore(e, j) == j + 1
  {
  }

  lemma KeyInCons(one: Laid, rest: seq<Laid>, k: string)
    ensures KeyIn([one] + rest, k) <==> one.key == k || KeyIn(rest, k)
    ensures WholeIn([one] + rest, k) <==> one == Laid(k, true) || WholeIn(rest, k)
  {
    var all := [one] + rest;
    assert all[0] == one;
    assert forall j :: 0 <= j < |rest| ==> all[j + 1] == rest[j];
    assert forall j :: 0 < j < |all| ==> all[j] == rest[j - 1];
  }

  // ---- Remembering a read the prompt does not show.

  /** The memory the new read is added to. */
  function Base(m: Memory, key: string): Memory {
    if key in m.kept then Forgotten(m, key) else m
  }

  lemma BaseShowsTheSame(m: Memory, key: string)
    requires Valid(m) && (key in m.kept ==> !Shown(m, key))
    ensures Valid(Base(m, key)) && key !in Base(m, key).order
    ensures LayOut(Base(m, key)) == LayOut(m)
  {
    if key in m.kept {
      assert key in m.order;
      var e :| 0 <= e < |m.order| && m.order[e] == key;
      ForgottenOrder(m, e);
      ForgetUnreached(m, e, |m.order|, EVIDENCE_TOTAL);
      WithoutKeeps(m.order, key);
      hide LayFrom, Without, Output;
    }
  }

  lemma RememberedReads(m: Memory, command: string, round: nat, output: string)
    requires Valid(m) && Valid(Base(m, ReadKey(command)))
    ensures var base, now := Base(m, ReadKey(command)), Remembered(m, command, round, output);
      && Valid(now) && |now.order| == |base.order| + 1 && now.order == base.order + [ReadKey(command)]
      && SameReads(now, base, |base.order|) && Output(now, |base.order|) == output
  {
    RememberedIsValid(m, command, round, output);
    hide ReadKey, FileRead, Widened, Forgotten;
    var base, now := Base(m, ReadKey(command)), Remembered(m, command, round, output);
    forall j | 0 <= j < |base.order| ensures now.order[j] == base.order[j] && Output(now, j) == Output(base, j) {
      assert base.order[j] in base.order;
      assert now.order[j] != now.order[|base.order|];
    }
  }

  /** Remembering a read shows no other read that was not shown, and none whole that was not. */
  lemma RememberingShowsLess(m: Memory, command: string, round: nat, output: string, k: string)
    requires Valid(m) && (ReadKey(command) in m.kept ==> !Shown(m, ReadKey(command)))
    requires k != ReadKey(command)
    ensures Valid(Remembered(m, command, round, output))
    ensures Shown(Remembered(m, command, round, output), k) ==> Shown(m, k)
    ensures Whole(Remembered(m, command, round, output), k) ==> Whole(m, k)
  {
    var key := ReadKey(command);
    var base, now := Base(m, key), Remembered(m, command, round, output);
    BaseShowsTheSame(m, key);
    RememberedReads(m, command, round, output);
    hide Base, Remembered, ReadKey, LayFrom, Output, KeyIn, WholeIn, Valid, SameReads;
    var n := |base.order|;
    var limit := Min(EVIDENCE_EACH, EVIDENCE_TOTAL);
    var left := EVIDENCE_TOTAL - Min(|output|, limit);
    NewestLaid(now, n + 1, EVIDENCE_TOTAL);
    SameLayout(now, base, n, left);
    SmallerBudget(base, n, left, EVIDENCE_TOTAL);
    KeyInCons(Laid(key, |output| <= limit), LayFrom(base, n, left), k);
  }

  // ---- The newest reads are shown.

  /** Of the newest three reads each is shown, and whole exactly when it fits its own entry. */
  lemma {:induction false} NewestThree(m: Memory, n: nat, left: nat, j: nat)
    requires Valid(m) && j < n <= |m.order| && left >= (j + 1) * EVIDENCE_EACH
    ensures KeyIn(LayFrom(m, n, left), m.order[n - 1 - j])
    ensures WholeIn(LayFrom(m, n, left), m.order[n - 1 - j]) <==> |Output(m, n - 1 - j)| <= EVIDENCE_EACH
  {
    hide *;
    MinIsLess(EVIDENCE_EACH, left);
    var size := |Output(m, n - 1)|;
    NewestLaid(m, n, left);
    EntryFits(size, left);
    var rest := left - Min(size, EVIDENCE_EACH);
    if j > 0 {
      KeysDiffer(m, n - 1 - j, n - 1);
    }
    KeyInCons(Laid(m.order[n - 1], size <= EVIDENCE_EACH), LayFrom(m, n - 1, rest), m.order[n - 1 - j]);
    if j > 0 {
      NewestThree(m, n - 1, rest, j - 1);
    } else {
      NotAmongOlder(m, n - 1, rest, n - 1);
    }
  }

  lemma EntryFits(size: nat, left: nat)
    requires left >= EVIDENCE_EACH
    ensures Min(EVIDENCE_EACH, left) == EVIDENCE_EACH && Min(size, EVIDENCE_EACH) <= EVIDENCE_EACH
  {
  }

  lemma KeysDiffer(m: Memory, i: nat, j: nat)
    requires Valid(m) && i < j < |m.order|
    ensures m.order[i] != m.order[j]
  {
  }

  lemma NotAmongOlder(m: Memory, n: nat, left: nat, i: nat)
    requires Valid(m) && n <= i < |m.order|
    ensures !KeyIn(LayFrom(m, n, left), m.order[i]) && !WholeIn(LayFrom(m, n, left), m.order[i])
  {
    LayFromIsNewestFirst(m, n, left);
    hide LayFrom;
  }
}
