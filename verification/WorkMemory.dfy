/** internal/agent/workmemory.go: the reads a run keeps, what the prompt shows of them, and which
    commands they answer. */
module WorkMemory {
  import opened Strings
  import opened Utf8
  import opened MiddleCut
  import opened FileReads

  const EVIDENCE_EACH := 48000
  const EVIDENCE_TOTAL := 160000

  /** One read whose output is kept, and the lines of a file it holds when it was a plain file read. */
  datatype ReadRecord = ReadRecord(round: nat, output: string, lines: Lines)

  /** The kept reads by key, and their keys oldest first. */
  datatype Memory = Memory(kept: map<string, ReadRecord>, order: seq<string>)

  const NOTHING := Memory(map[], [])

  ghost predicate Valid(m: Memory) {
    Distinct(m.order) && forall k :: k in m.order <==> k in m.kept
  }

  function Min(a: int, b: int): int {
    if a < b then a else b
  }

  // ---- What the prompt shows.

  /** A read the prompt shows, and whether it shows it whole. */
  datatype Laid = Laid(key: string, whole: bool)

  /** The output of the n-th oldest read. */
  function Output(m: Memory, n: nat): string
    requires n < |m.order|
  {
    if m.order[n] in m.kept then m.kept[m.order[n]].output else ""
  }

  /** Layout of the n oldest reads, newest first, in the budget that is left. */
  function LayFrom(m: Memory, n: nat, left: nat): seq<Laid>
    requires n <= |m.order|
  {
    if n == 0 || left == 0 then []
    else
      var out, limit := Output(m, n - 1), Min(EVIDENCE_EACH, left);
      [Laid(m.order[n - 1], |out| <= limit)] + LayFrom(m, n - 1, left - Min(|out|, limit))
  }

  function LayOut(m: Memory): seq<Laid> {
    LayFrom(m, |m.order|, EVIDENCE_TOTAL)
  }

  predicate KeyIn(laid: seq<Laid>, k: string) {
    exists j :: 0 <= j < |laid| && laid[j].key == k
  }

  predicate WholeIn(laid: seq<Laid>, k: string) {
    exists j :: 0 <= j < |laid| && laid[j] == Laid(k, true)
  }

  predicate Shown(m: Memory, k: string) {
    KeyIn(LayOut(m), k)
  }

  predicate Whole(m: Memory, k: string) {
    WholeIn(LayOut(m), k)
  }

  /** A read as the prompt carries it: its text, and whether nothing of it was cut. */
  datatype Carried = Carried(text: string, uncut: bool)

  /** What the prompt carries of each of the n oldest reads, newest first. */
  function RenderFrom(m: Memory, n: nat, left: int): seq<Carried>
    requires n <= |m.order|
  {
    if n == 0 || left <= 0 then []
    else
      var out, limit := Output(m, n - 1), Min(EVIDENCE_EACH, left);
      var text := MiddleTruncated(out, limit);
      [Carried(text, |out| <= limit)] + RenderFrom(m, n - 1, left - |text|)
  }

  function Rendered(m: Memory): seq<Carried> {
    RenderFrom(m, |m.order|, EVIDENCE_TOTAL)
  }

  lemma {:induction false} LayFromIsNewestFirst(m: Memory, n: nat, left: nat)
    requires Valid(m) && n <= |m.order|
    ensures |LayFrom(m, n, left)| <= n
    ensures forall j :: 0 <= j < |LayFrom(m, n, left)| ==> LayFrom(m, n, left)[j].key == m.order[n - 1 - j]
  {
    hide Output;
    if n > 0 && left > 0 {
      var out := Output(m, n - 1);
      LayFromIsNewestFirst(m, n - 1, left - Min(|out|, Min(EVIDENCE_EACH, left)));
    }
  }

  /** The newest read, and the others. */
  lemma NewestFirst(m: Memory, n: nat, left: nat, less: int)
    requires Valid(m) && 0 < n <= |m.order| && left > 0 && less > 0
    ensures var out := Output(m, n - 1);
      var limit, tight := Min(EVIDENCE_EACH, left), Min(EVIDENCE_EACH, less);
      && LayFrom(m, n, left) == [Laid(m.order[n - 1], |out| <= limit)] + LayFrom(m, n - 1, left - Min(|out|, limit))
      && RenderFrom(m, n, less) == [Carried(MiddleTruncated(out, tight), |out| <= tight)] +
                                   RenderFrom(m, n - 1, less - |MiddleTruncated(out, tight)|)
  {
    hide Output, MiddleTruncated;
  }

  /** At place j, newest first, the layout and the prompt say the same. */
  predicate AgreeAt(laid: seq<Laid>, carried: seq<Carried>, j: nat) {
    && (j < |laid| <==> j < |carried|)
    && (j < |laid| ==> laid[j].whole == carried[j].uncut)
  }

  /** None of the first c reads is cut. */
  predicate WholeBefore(laid: seq<Laid>, c: nat) {
    forall j :: 0 <= j < c && j < |laid| ==> laid[j].whole
  }

  /** The layout and the prompt agree, newest first, up to and including the first read that is cut. */
  lemma {:induction false} AgreeThroughTheFirstCut(m: Memory, n: nat, left: nat, c: nat)
    requires Valid(m) && n <= |m.order| && WholeBefore(LayFrom(m, n, left), c)
    ensures forall j :: 0 <= j <= c ==> AgreeAt(LayFrom(m, n, left), RenderFrom(m, n, left), j)
  {
    hide *;
    var laid, carried := LayFrom(m, n, left), RenderFrom(m, n, left);
    if n == 0 || left == 0 {
      NoneAgree(m, n, left, c);
    } else {
      var out, limit := Output(m, n - 1), Min(EVIDENCE_EACH, left);
      NewestFirst(m, n, left, left);
      MinIsLess(EVIDENCE_EACH, left);
      if c > 0 && |out| <= limit {
        var rest, more := LayFrom(m, n - 1, left - |out|), RenderFrom(m, n - 1, left - |out|);
        Uncut(out, limit);
        WholeRest(laid, rest, c);
        AgreeThroughTheFirstCut(m, n - 1, left - |out|, c - 1);
        AgreeCons(laid, carried, rest, more, c);
      } else if c > 0 {
        NotWhole(laid, c);
      } else {
        AgreeAtFirst(laid, carried);
      }
    }
  }

  lemma NoneAgree(m: Memory, n: nat, left: nat, c: nat)
    requires Valid(m) && n <= |m.order| && (n == 0 || left == 0)
    ensures forall j :: 0 <= j <= c ==> AgreeAt(LayFrom(m, n, left), RenderFrom(m, n, left), j)
  {
    assert LayFrom(m, n, left) == [] && RenderFrom(m, n, left) == [];
    hide LayFrom, RenderFrom;
  }

  lemma Uncut(out: string, limit: nat)
    requires |out| <= limit
    ensures MiddleTruncated(out, limit) == out && Min(|out|, limit) == |out|
  {
  }

  lemma WholeRest(laid: seq<Laid>, rest: seq<Laid>, c: nat)
    requires laid != [] && rest == laid[1..] && c > 0 && WholeBefore(laid, c)
    ensures WholeBefore(rest, c - 1)
  {
  }

  lemma NotWhole(laid: seq<Laid>, c: nat)
    requires laid != [] && c > 0 && WholeBefore(laid, c)
    ensures laid[0].whole
  {
  }

  lemma AgreeAtFirst(laid: seq<Laid>, carried: seq<Carried>)
    requires laid != [] && carried != [] && laid[0].whole == carried[0].uncut
    ensures forall j :: 0 <= j <= 0 ==> AgreeAt(laid, carried, j)
  {
  }

  lemma AgreeCons(laid: seq<Laid>, carried: seq<Carried>, rest: seq<Laid>, more: seq<Carried>, c: nat)
    requires laid != [] && carried != [] && laid[0].whole == carried[0].uncut && c > 0
    requires laid[1..] == rest && carried[1..] == more
    requires forall j :: 0 <= j <= c - 1 ==> AgreeAt(rest, more, j)
    ensures forall j :: 0 <= j <= c ==> AgreeAt(laid, carried, j)
  {
    forall j | 0 < j <= c ensures AgreeAt(laid, carried, j) {
      assert AgreeAt(rest, more, j - 1);
    }
  }

  /** The prompt carries no more than the layout says, and nothing whole that the layout calls cut. */
  predicate Within(laid: seq<Laid>, carried: seq<Carried>) {
    && |carried| <= |laid|
    && forall j :: 0 <= j < |carried| && carried[j].uncut ==> laid[j].whole
  }

  predicate ValidOutputs(m: Memory) {
    forall k :: k in m.kept ==> ValidUtf8(m.kept[k].output)
  }

  lemma CutNeverSaves(out: string, max: nat)
    requires ValidUtf8(out)
    ensures |MiddleTruncated(out, max)| >= Min(|out|, max)
    ensures |out| <= max ==> MiddleTruncated(out, max) == out
  {
    if |out| > max {
      var a, b := MiddleCutOfValidText(out, max);
    }
  }

  /** With text that is valid UTF-8 the cut never saves more than the layout counts: beyond the first
      read that is cut, the prompt carries part of what the layout says it does. */
  lemma {:induction false} PromptWithinLayout(m: Memory, n: nat, left: nat, less: int)
    requires Valid(m) && ValidOutputs(m) && n <= |m.order| && less <= left
    ensures Within(LayFrom(m, n, left), RenderFrom(m, n, less))
    decreases n
  {
    hide *;
    if n == 0 || less <= 0 {
      NothingLeft(m, n, left, less);
    } else {
      var out := Output(m, n - 1);
      NewestFirst(m, n, left, less);
      NewestIsValid(m, n);
      var limit, roomy := Min(EVIDENCE_EACH, less), Min(EVIDENCE_EACH, left);
      MinIsLess(EVIDENCE_EACH, less);
      MinIsLess(EVIDENCE_EACH, left);
      MinIsLess(|out|, roomy);
      CutNeverSaves(out, limit);
      BudgetsKeepApart(|out|, |MiddleTruncated(out, limit)|, left, less);
      var now, later := left - Min(|out|, roomy), less - |MiddleTruncated(out, limit)|;
      if later <= 0 {
        NothingLeft(m, n - 1, now, later);
      } else {
        PromptWithinLayout(m, n - 1, now, later);
      }
      WithinCons(Laid(m.order[n - 1], |out| <= roomy), Carried(MiddleTruncated(out, limit), |out| <= limit),
        LayFrom(m, n - 1, now), RenderFrom(m, n - 1, later));
    }
  }

  lemma NewestIsValid(m: Memory, n: nat)
    requires Valid(m) && ValidOutputs(m) && 0 < n <= |m.order|
    ensures ValidUtf8(Output(m, n - 1))
  {
    assert m.order[n - 1] in m.order;
  }

  lemma NothingLeft(m: Memory, n: nat, left: nat, less: int)
    requires Valid(m) && n <= |m.order| && (n == 0 || less <= 0)
    ensures Within(LayFrom(m, n, left), RenderFrom(m, n, less))
  {
    hide LayFrom;
  }

  lemma MinIsLess(a: int, b: int)
    ensures Min(a, b) <= a && Min(a, b) <= b && (Min(a, b) == a || Min(a, b) == b)
    ensures EVIDENCE_EACH == 48000
  {
  }

  lemma BudgetsKeepApart(size: nat, cut: nat, left: nat, less: nat)
    requires 0 < less <= left && cut >= Min(size, Min(EVIDENCE_EACH, less))
    requires size <= Min(EVIDENCE_EACH, less) ==> cut == size
    ensures less - cut <= left - Min(size, Min(EVIDENCE_EACH, left)) || less - cut <= 0
  {
  }

  lemma WithinCons(a: Laid, b: Carried, laid: seq<Laid>, carried: seq<Carried>)
    requires Within(laid, carried) && (b.uncut ==> a.whole)
    ensures Within([a] + laid, [b] + carried)
  {
  }

  /** The layout and the prompt are one: as many reads, each cut in one when it is in the other. */
  predicate Same(laid: seq<Laid>, carried: seq<Carried>) {
    |laid| == |carried| && forall j :: 0 <= j < |laid| ==> laid[j].whole == carried[j].uncut
  }

  lemma SameCons(a: Laid, b: Carried, laid: seq<Laid>, carried: seq<Carried>)
    requires Same(laid, carried) && a.whole == b.uncut
    ensures Same([a] + laid, [b] + carried)
  {
  }

  /** None of the n oldest reads is longer than the entry of one read. */
  predicate FitTheirEntry(m: Memory, n: nat)
    requires n <= |m.order|
  {
    forall j :: 0 <= j < n ==> |Output(m, j)| <= EVIDENCE_EACH
  }

  lemma NothingAfterTheBudget(m: Memory, n: nat, less: int)
    requires Valid(m) && n <= |m.order| && less <= 0
    ensures LayFrom(m, n, 0) == [] && RenderFrom(m, n, less) == [] && Same([], [])
  {
  }

  lemma NothingKept(m: Memory, left: nat)
    requires Valid(m)
    ensures Same(LayFrom(m, 0, left), RenderFrom(m, 0, left))
  {
  }

  /** The layout and the prompt agree everywhere when no read is longer than its entry: the only read that
      is cut is then the one that spends the budget, and both stop there. */
  lemma {:induction false} AgreeWhenEntriesFit(m: Memory, n: nat, left: nat)
    requires Valid(m) && ValidOutputs(m) && n <= |m.order| && FitTheirEntry(m, n)
    ensures Same(LayFrom(m, n, left), RenderFrom(m, n, left))
    decreases n
  {
    hide LayFrom, RenderFrom, Output, MiddleTruncated, Valid, ValidOutputs, Same;
    if n == 0 {
      NothingKept(m, left);
    } else if left == 0 {
      NothingAfterTheBudget(m, n, 0);
    } else {
      var out, limit := Output(m, n - 1), Min(EVIDENCE_EACH, left);
      var text := MiddleTruncated(out, limit);
      assert |out| <= EVIDENCE_EACH;
      NewestFirst(m, n, left, left);
      NewestIsValid(m, n);
      MinIsLess(EVIDENCE_EACH, left);
      CutNeverSaves(out, limit);
      MinIsLess(|out|, limit);
      var now, later := left - Min(|out|, limit), left - |text|;
      if |out| <= limit {
        Uncut(out, limit);
        AgreeWhenEntriesFit(m, n - 1, now);
      } else {
        NothingAfterTheBudget(m, n - 1, later);
      }
      SameCons(Laid(m.order[n - 1], |out| <= limit), Carried(text, |out| <= limit),
        LayFrom(m, n - 1, now), RenderFrom(m, n - 1, later));
    }
  }

  /** A read longer than its entry is cut in both, and the prompt pays for the cut what the layout does not
      count: less is left for the older reads, by the marker and at most three bytes more. */
  lemma AfterALongRead(m: Memory, n: nat, left: nat)
    requires Valid(m) && ValidOutputs(m) && 0 < n <= |m.order|
    requires left >= EVIDENCE_EACH && |Output(m, n - 1)| > EVIDENCE_EACH
    ensures var out := Output(m, n - 1);
      var cost := |MiddleTruncated(out, EVIDENCE_EACH)|;
      && EVIDENCE_EACH < cost
      && (exists omitted: nat :: omitted <= |out| && cost <= EVIDENCE_EACH + 3 + |Marker(omitted, |out|)|)
      && LayFrom(m, n, left) == [Laid(m.order[n - 1], false)] + LayFrom(m, n - 1, left - EVIDENCE_EACH)
      && |RenderFrom(m, n, left)| > 0 && !RenderFrom(m, n, left)[0].uncut
      && RenderFrom(m, n, left)[1..] == RenderFrom(m, n - 1, left - cost)
  {
    hide LayFrom, RenderFrom, Output, Valid, ValidOutputs, MiddleTruncated, Marker, ValidUtf8;
    var out := Output(m, n - 1);
    NewestFirst(m, n, left, left);
    NewestIsValid(m, n);
    var a, b := MiddleCutOfValidText(out, EVIDENCE_EACH);
    assert |Marker(b - EVIDENCE_EACH / 3, |out|)| >= 0;
  }

  // ---- Where the two drift apart.

  function Filled(fill: char, size: nat): ReadRecord {
    ReadRecord(1, seq(size, _ => fill), NotALineRead)
  }

  /** Three reads too long for their entry, one that just fits what the layout says is left, and a
      small one, the oldest. */
  function ThreeLong(fill: char): Memory {
    Memory(map["1" := Filled(fill, 10), "2" := Filled(fill, 15950),
               "3" := Filled(fill, 60000), "4" := Filled(fill, 60000), "5" := Filled(fill, 60000)],
           ["1", "2", "3", "4", "5"])
  }

  lemma AsciiFilled(fill: char, size: nat, max: nat)
    requires fill as int < 0x80 && max < size < 100000
    ensures max + 35 <= |MiddleTruncated(Filled(fill, size).output, max)| <= max + 43
  {
    MiddleCutOfAscii(Filled(fill, size).output, max);
    DecShort(size - max);
    DecShort(size);
  }

  lemma DecShort(n: nat)
    requires n < 100000
    ensures |Dec(n)| <= 5
  {
    assert n >= 10 ==> |Dec(n)| == |Dec(n / 10)| + 1;
    assert n >= 100 ==> |Dec(n / 10)| == |Dec(n / 100)| + 1;
    assert n >= 1000 ==> |Dec(n / 100)| == |Dec(n / 1000)| + 1;
    assert n >= 10000 ==> |Dec(n / 1000)| == |Dec(n / 10000)| + 1;
  }

  lemma FilledSize(fill: char, size: nat)
    ensures |Filled(fill, size).output| == size
  {
  }

  lemma ThreeLongInOrder(fill: char)
    ensures Valid(ThreeLong(fill))
  {
    hide Filled;
    var m := ThreeLong(fill);
    assert m.order[2] == "3" && m.order[3] == "4" && m.order[4] == "5";
  }

  lemma ThreeLongIs(fill: char)
    ensures var m := ThreeLong(fill);
      && Valid(m) && |m.order| == 5
      && Output(m, 0) == Filled(fill, 10).output && Output(m, 1) == Filled(fill, 15950).output
      && |Output(m, 0)| == 10 && |Output(m, 1)| == 15950
      && (forall j :: 2 <= j < 5 ==> Output(m, j) == Filled(fill, 60000).output && |Output(m, j)| == 60000)
  {
    assert var m := ThreeLong(fill);
      && |m.order| == 5
      && Output(m, 0) == Filled(fill, 10).output && Output(m, 1) == Filled(fill, 15950).output
      && Output(m, 2) == Output(m, 3) == Output(m, 4) == Filled(fill, 60000).output by {
      hide Filled;
      var m := ThreeLong(fill);
      assert m.order[2] == "3" && m.order[3] == "4" && m.order[4] == "5";
    }
    hide *;
    FilledSize(fill, 10);
    FilledSize(fill, 15950);
    FilledSize(fill, 60000);
    ThreeLongInOrder(fill);
  }

  lemma FilledIsValid(size: nat)
    ensures ValidUtf8(Filled('x', size).output)
  {
    AsciiIsValid(Filled('x', size).output);
  }

  /** Even with plain ASCII: the layout shows five reads, the fourth whole, and the prompt carries
      four at most, the fourth cut. What the layout shows is answered from memory, so the oldest of
      these is refused to a run that cannot see it. */
  lemma LayoutShowsADroppedRead()
    ensures Valid(ThreeLong('x')) && ValidOutputs(ThreeLong('x'))
    ensures var m := ThreeLong('x');
      && |LayOut(m)| == 5 && LayOut(m)[3].whole
      && |Rendered(m)| <= 4 && (|Rendered(m)| == 4 ==> !Rendered(m)[3].uncut)
  {
    hide *;
    ThreeLongIs('x');
    ThreeLongIsValid();
    AsciiFilled('x', 60000, 48000);
    var cut := |MiddleTruncated(Filled('x', 60000).output, 48000)|;
    AsciiFilled('x', 15950, 160000 - 3 * cut);
    Drifts(ThreeLong('x'), cut);
  }

  lemma ThreeLongIsValid()
    ensures Valid(ThreeLong('x')) && ValidOutputs(ThreeLong('x'))
  {
    ThreeLongIs('x');
    FilledIsValid(10);
    FilledIsValid(15950);
    FilledIsValid(60000);
    hide Filled, ValidUtf8, Valid;
  }

  lemma Drifts(m: Memory, cut: nat)
    requires Valid(m) && |m.order| == 5 && |Output(m, 0)| == 10 && |Output(m, 1)| == 15950
    requires forall j :: 2 <= j < 5 ==> |Output(m, j)| == 60000 && |MiddleTruncated(Output(m, j), 48000)| == cut
    requires 48035 <= cut <= 48043 && |MiddleTruncated(Output(m, 1), 160000 - 3 * cut)| >= 160000 - 3 * cut
    ensures |LayOut(m)| == 5 && LayOut(m)[3].whole
    ensures |Rendered(m)| <= 4 && (|Rendered(m)| == 4 ==> !Rendered(m)[3].uncut)
  {
    hide Output, MiddleTruncated, LayFrom, RenderFrom, Valid;
    var less := 160000 - 3 * cut;
    assert
      && |LayFrom(m, 5, 160000)| == 3 + |LayFrom(m, 5 - 3, 16000)|
      && LayFrom(m, 5, 160000)[3..] == LayFrom(m, 5 - 3, 16000)
      && |RenderFrom(m, 5, 160000)| == 3 + |RenderFrom(m, 5 - 3, 160000 - 3 * cut)|
      && RenderFrom(m, 5, 160000)[3..] == RenderFrom(m, 5 - 3, 160000 - 3 * cut) by {
      hide Output, MiddleTruncated, LayFrom, RenderFrom, Valid;
      NewestFirst(m, 5, 160000, 160000);
      NewestFirst(m, 5 - 1, 112000, 160000 - cut);
      NewestFirst(m, 5 - 2, 64000, 160000 - 2 * cut);
    }
    NewestFirst(m, 2, 16000, less);
    OneSmall(m, 50);
    NothingRendered(m, 1, less - |MiddleTruncated(Output(m, 1), less)|);
    assert LayOut(m)[3] == LayOut(m)[3..][0];
    assert |Rendered(m)| == 4 ==> Rendered(m)[3] == Rendered(m)[3..][0];
  }

  lemma OneSmall(m: Memory, left: nat)
    requires Valid(m) && |m.order| >= 1 && left > 0
    ensures |LayFrom(m, 1, left)| == 1
  {
    hide Output;
  }

  lemma NothingRendered(m: Memory, n: nat, less: int)
    requires Valid(m) && n <= |m.order| && less <= 0
    ensures RenderFrom(m, n, less) == []
  {
  }

  function FiveLong(fill: char): Memory {
    Memory(map["1" := Filled(fill, 60000), "2" := Filled(fill, 60000), "3" := Filled(fill, 60000),
               "4" := Filled(fill, 60000), "5" := Filled(fill, 60000)],
           ["1", "2", "3", "4", "5"])
  }

  lemma ContinuationCut(size: nat, max: nat)
    requires 3 <= max < size < 100000
    ensures |MiddleTruncated(Filled(0x80 as char, size).output, max)| <= 43
  {
    var s := Filled(0x80 as char, size).output;
    assert forall j :: 0 <= j < |s| ==> !RuneStart(s[j]);
    MiddleCutOfNoStarts(s, max);
    hide MiddleTruncated, Filled, Dec;
    FilledSize(0x80 as char, size);
    DecShort(size - max / 3);
    DecShort(size);
  }

  /** Without valid text the prompt may carry more than the layout says: continuation bytes are cut to
      next to nothing, and the fifth read is carried though the layout has no room for it. */
  lemma PromptShowsMoreThanTheLayout()
    ensures Valid(FiveLong(0x80 as char))
    ensures |LayOut(FiveLong(0x80 as char))| == 4 && |Rendered(FiveLong(0x80 as char))| == 5
  {
    var m := FiveLong(0x80 as char);
    assert var m := FiveLong((0x80 as char));
      Valid(m) && |m.order| == 5 && forall j :: 0 <= j < 5 ==> Output(m, j) == Filled((0x80 as char), 60000).output by {
      hide Filled;
      var m := FiveLong((0x80 as char));
      assert m.order[0] == "1" && m.order[1] == "2" && m.order[2] == "3" && m.order[3] == "4" && m.order[4] == "5";
    }
    hide *;
    FilledSize(0x80 as char, 60000);
    ContinuationCut(60000, 48000);
    FiveCarried(m, |MiddleTruncated(Filled(0x80 as char, 60000).output, 48000)|);
  }

  lemma FiveCarried(m: Memory, cut: nat)
    requires Valid(m) && |m.order| == 5 && cut <= 43
    requires forall j :: 0 <= j < 5 ==> |Output(m, j)| == 60000 && |MiddleTruncated(Output(m, j), 48000)| == cut
    ensures |LayOut(m)| == 4 && |Rendered(m)| == 5
  {
    hide Output, MiddleTruncated, LayFrom, RenderFrom, Valid;
    NewestFirst(m, 5, 160000, 160000);
    NewestFirst(m, 4, 112000, 160000 - cut);
    NewestFirst(m, 3, 64000, 160000 - 2 * cut);
    NewestFirst(m, 2, 16000, 160000 - 3 * cut);
    NewestFirst(m, 1, 1, 160000 - 4 * cut);
    NothingLeft(m, 1, 0, 0);
    assert |LayFrom(m, 1, 0)| == 0 && |RenderFrom(m, 0, 160000 - 5 * cut)| == 0 by {
      NothingToShow(m, 160000 - 5 * cut);
    }
  }

  lemma NothingToShow(m: Memory, less: int)
    requires Valid(m) && |m.order| > 0
    ensures LayFrom(m, 1, 0) == [] && RenderFrom(m, 0, less) == []
  {
  }

  // ---- Which commands are answered from memory.

  datatype Answer = Run | Recalled(round: nat)

  /** The read of key k is shown whole and holds all of these lines. */
  predicate Holds(m: Memory, k: string, lines: Lines)
    requires lines.Lines?
  {
    k in m.kept && Whole(m, k) &&
    var held := m.kept[k].lines;
    held.Lines? && held.path == lines.path && held.first <= lines.first && lines.last <= held.last
  }

  /** The newest round of the reads that hold these lines. */
  ghost predicate Newest(m: Memory, lines: Lines, round: nat)
    requires lines.Lines?
  {
    && (exists k :: Holds(m, k, lines) && m.kept[k].round == round)
    && forall k :: Holds(m, k, lines) ==> m.kept[k].round <= round
  }

  /** The same words are answered while the prompt shows them; part of a file, while a read that holds
      it is shown whole. */
  ghost predicate IsAnswer(m: Memory, command: string, a: Answer) {
    var key, lines := ReadKey(command), FileRead(command);
    if key in m.kept && Shown(m, key) then a == Recalled(m.kept[key].round)
    else if lines.NotALineRead? then a == Run
    else if exists k :: Holds(m, k, lines) then a.Recalled? && Newest(m, lines, a.round)
    else a == Run
  }

  lemma OneAnswer(m: Memory, command: string, a: Answer, b: Answer)
    requires Valid(m) && IsAnswer(m, command, a) && IsAnswer(m, command, b)
    ensures a == b
  {
    hide Holds, Shown, ReadKey, FileRead;
  }

  /** The newest round of the n oldest reads that hold these lines. */
  function BestOf(m: Memory, lines: Lines, n: nat): Answer
    requires lines.Lines? && n <= |m.order|
  {
    if n == 0 then Run
    else
      var best, k := BestOf(m, lines, n - 1), m.order[n - 1];
      if Holds(m, k, lines) && (best == Run || m.kept[k].round > best.round) then Recalled(m.kept[k].round) else best
  }

  function AnswerTo(m: Memory, command: string): Answer {
    var key, lines := ReadKey(command), FileRead(command);
    if key in m.kept && Shown(m, key) then Recalled(m.kept[key].round)
    else if lines.NotALineRead? then Run
    else BestOf(m, lines, |m.order|)
  }

  lemma {:induction false} BestIsNewest(m: Memory, lines: Lines, n: nat)
    requires Valid(m) && lines.Lines? && n <= |m.order|
    ensures BestOf(m, lines, n) == Run <==> forall j :: 0 <= j < n ==> !Holds(m, m.order[j], lines)
    ensures var a := BestOf(m, lines, n);
      a.Recalled? ==>
        && (exists j :: 0 <= j < n && Holds(m, m.order[j], lines) && m.kept[m.order[j]].round == a.round)
        && forall j :: 0 <= j < n && Holds(m, m.order[j], lines) ==> m.kept[m.order[j]].round <= a.round
  {
    hide Whole, Valid;
    if n > 0 {
      BestIsNewest(m, lines, n - 1);
    }
  }

  lemma BestIsAnAnswer(m: Memory, lines: Lines)
    requires Valid(m) && lines.Lines?
    ensures var a := BestOf(m, lines, |m.order|);
      if exists k :: Holds(m, k, lines) then a.Recalled? && Newest(m, lines, a.round) else a == Run
  {
    BestIsNewest(m, lines, |m.order|);
    assert forall k :: Holds(m, k, lines) ==> k in m.order;
    hide Holds, BestOf, Valid;
    forall k | Holds(m, k, lines) ensures exists j :: 0 <= j < |m.order| && m.order[j] == k {
    }
  }

  lemma AnswerIsAnAnswer(m: Memory, command: string)
    requires Valid(m)
    ensures IsAnswer(m, command, AnswerTo(m, command))
  {
    var lines := FileRead(command);
    if lines.Lines? {
      BestIsAnAnswer(m, lines);
    }
    hide Holds, Shown, ReadKey, FileRead, BestOf, Newest, Valid;
  }

  /** A command is answered when its words are still shown, or a read shown whole holds its lines. */
  ghost predicate Held(m: Memory, command: string) {
    var key, lines := ReadKey(command), FileRead(command);
    (key in m.kept && Shown(m, key)) || (lines.Lines? && exists k :: Holds(m, k, lines))
  }

  lemma AnswerMeansHeld(m: Memory, command: string)
    requires Valid(m)
    ensures Held(m, command) <==> AnswerTo(m, command).Recalled?
  {
    AnswerIsAnAnswer(m, command);
    hide AnswerTo, Shown, ReadKey, FileRead, Holds;
  }

  // ---- What is kept.

  function Without(order: seq<string>, key: string): seq<string> {
    if order == [] then []
    else if order[0] == key then order[1..]
    else [order[0]] + Without(order[1..], key)
  }

  function Forgotten(m: Memory, key: string): Memory {
    Memory(m.kept - {key}, Without(m.order, key))
  }

  /** A range that asked for more lines than came back reached the end of the file. */
  function Widened(lines: Lines, output: string): Lines {
    if lines.Lines? && lines.last != WHOLE_FILE &&
       CountChar(TrimRight(output, {'\n'}), '\n') + 1 < lines.last - lines.first + 1
    then lines.(last := WHOLE_FILE) else lines
  }

  /** A read that is seen again moves to the newest place. */
  function Remembered(m: Memory, command: string, round: nat, output: string): Memory {
    var key := ReadKey(command);
    var base := if key in m.kept then Forgotten(m, key) else m;
    Memory(base.kept[key := ReadRecord(round, output, Widened(FileRead(command), output))], base.order + [key])
  }

  lemma {:induction false} WithoutKeeps(order: seq<string>, key: string)
    requires Distinct(order)
    ensures Distinct(Without(order, key))
    ensures forall k :: k in Without(order, key) <==> k in order && k != key
  {
    if order != [] {
      assert order == [order[0]] + order[1..];
      assert order[0] !in order[1..];
      WithoutKeeps(order[1..], key);
      if order[0] != key {
        var rest := Without(order[1..], key);
        assert order[0] !in rest;
        assert Distinct([order[0]] + rest);
      }
    }
  }

  lemma ForgottenIsValid(m: Memory, key: string)
    requires Valid(m)
    ensures Valid(Forgotten(m, key))
  {
    WithoutKeeps(m.order, key);
  }

  lemma RememberedIsValid(m: Memory, command: string, round: nat, output: string)
    requires Valid(m)
    ensures Valid(Remembered(m, command, round, output))
  {
    ForgottenIsValid(m, ReadKey(command));
    hide ReadKey, Widened, Forgotten, FileRead;
  }
}
