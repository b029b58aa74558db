/** internal/agent/fileactions.go and internal/agent/direct.go: one search/replace block, as the
    direct mode prints it and as the file action reads it back and applies it. */
module EditBlock {
  import opened Strings

  const EDIT_SEARCH := "<<<<<<< SEARCH\n"
  const EDIT_DIVIDER := "\n=======\n"
  const EDIT_REPLACE := "\n>>>>>>> REPLACE"

  // ---- The functions of Go's strings package the blocks are read with.

  /** strings.Cut: what is before the first sep and what is after it, (s, "") when there is none. */
  function Cut(s: string, sep: string): (string, string) {
    var k := IndexFrom(s, sep, 0);
    if k <= |s| then (s[..k], s[k + |sep|..]) else (s, "")
  }

  /** strings.Count from position i on: how many occurrences that do not overlap. */
  function CountFrom(s: string, p: string, i: nat): nat
    requires p != "" && i <= |s|
    decreases |s| - i
  {
    var k := IndexFrom(s, p, i);
    if k <= |s| then 1 + CountFrom(s, p, k + |p|) else 0
  }

  // ---- Printing and reading one block.

  /** The edit_file action directCommand makes of a tool call. */
  function Printed(path: string, search: string, replace: string): string {
    path + "\n" + EDIT_SEARCH + search + EDIT_DIVIDER + replace + EDIT_REPLACE
  }

  datatype Block = Block(search: string, replace: string) | NotABlock | Incomplete

  function ReadBlock(body: string): Block {
    var block := TrimSuffix(body, "\n");
    if !HasPrefix(block, EDIT_SEARCH) || !HasSuffix(block, EDIT_REPLACE) then NotABlock
    else
      var inner := TrimSuffix(block[|EDIT_SEARCH|..], EDIT_REPLACE);
      if Contains(inner, EDIT_DIVIDER) then
        var (search, replace) := Cut(inner, EDIT_DIVIDER);
        if search == "" then Incomplete else Block(search, replace)
      else if HasSuffix(inner, "\n=======") && |inner| > 8 then Block(inner[..|inner| - 8], "")
      else Incomplete
  }

  /** The text an edit_file action is said to put into the file, for the check that refuses
      fabricated checks. */
  function EditText(body: string): string {
    Cut(TrimSuffix(TrimSuffix(body, "\n"), EDIT_REPLACE), EDIT_DIVIDER).1
  }

  /** The replacement text can be told from the search text. */
  predicate Separable(search: string) {
    search != "" && !Contains(search + "\n", EDIT_DIVIDER)
  }

  /** A divider that begins inside search, in search followed by a divider, ends inside search
      followed by one newline: two dividers overlap in their newline at most. */
  lemma DividerBeforeTheDivider(search: string, replace: string, j: nat)
    requires j < |search|
    ensures var whole := search + EDIT_DIVIDER + replace;
      OccursAt(whole, EDIT_DIVIDER, j) <==> OccursAt(search + "\n", EDIT_DIVIDER, j)
  {
    var whole, short := search + EDIT_DIVIDER + replace, search + "\n";
    assert whole == "" + short + (EDIT_DIVIDER[1..] + replace);
    OccursWithin("", short, EDIT_DIVIDER[1..] + replace, EDIT_DIVIDER, j);
    assert whole[|search|] == '\n';
    assert forall d :: 1 <= d < 8 ==> EDIT_DIVIDER[d] == '=';
    if OccursAt(whole, EDIT_DIVIDER, j) && j + 8 > |search| {
      OccursChar(whole, EDIT_DIVIDER, j, |search| - j);
    }
  }

  lemma FirstDivider(search: string, replace: string)
    ensures IndexFrom(search + EDIT_DIVIDER + replace, EDIT_DIVIDER, 0) == |search|
       <==> !Contains(search + "\n", EDIT_DIVIDER)
  {
    var whole, short := search + EDIT_DIVIDER + replace, search + "\n";
    assert OccursAt(whole, EDIT_DIVIDER, |search|);
    IndexMeans(whole, EDIT_DIVIDER, 0);
    IndexMeans(short, EDIT_DIVIDER, 0);
    if Contains(short, EDIT_DIVIDER) {
      var j := IndexFrom(short, EDIT_DIVIDER, 0);
      DividerBeforeTheDivider(search, replace, j);
      assert OccursAt(whole, EDIT_DIVIDER, j);
    } else {
      forall j | 0 <= j < |search| ensures !OccursAt(whole, EDIT_DIVIDER, j) {
        assert !OccursAt(short, EDIT_DIVIDER, j);
        DividerBeforeTheDivider(search, replace, j);
      }
      IndexIs(whole, EDIT_DIVIDER, 0, |search|);
    }
  }

  /** The first line of what is printed is the path, and the rest the block, exactly when the path
      is one line. */
  lemma PrintedPath(path: string, search: string, replace: string)
    ensures Cut(Printed(path, search, replace), "\n").0 == path <==> '\n' !in path
    ensures var block := EDIT_SEARCH + search + EDIT_DIVIDER + replace + EDIT_REPLACE;
      '\n' !in path ==> Cut(Printed(path, search, replace), "\n").1 == block
  {
    hide IndexFrom;
    var text := Printed(path, search, replace);
    var rest := EDIT_SEARCH + search + EDIT_DIVIDER + replace + EDIT_REPLACE;
    assert text == path + "\n" + rest;
    assert OccursAt(text, "\n", |path|);
    IndexMeans(text, "\n", 0);
    if '\n' in path {
      var j :| 0 <= j < |path| && path[j] == '\n';
      assert OccursAt(text, "\n", j);
    } else {
      forall j | 0 <= j < |path| ensures !OccursAt(text, "\n", j) {
        assert text[j..j + 1][0] == path[j];
      }
      IndexIs(text, "\n", 0, |path|);
      assert text[|path| + 1..] == rest;
    }
  }

  /** What is between the markers of a printed block. */
  lemma PrintedInner(search: string, replace: string)
    ensures var inner, body := search + EDIT_DIVIDER + replace,
                               EDIT_SEARCH + search + EDIT_DIVIDER + replace + EDIT_REPLACE;
      && TrimSuffix(body, "\n") == body == EDIT_SEARCH + inner + EDIT_REPLACE
      && HasPrefix(body, EDIT_SEARCH) && HasSuffix(body, EDIT_REPLACE)
      && TrimSuffix(body, EDIT_REPLACE) == EDIT_SEARCH + inner
      && TrimSuffix(body[|EDIT_SEARCH|..], EDIT_REPLACE) == inner
  {
    var inner := search + EDIT_DIVIDER + replace;
    var body := EDIT_SEARCH + search + EDIT_DIVIDER + replace + EDIT_REPLACE;
    assert body == EDIT_SEARCH + inner + EDIT_REPLACE;
    assert body[|body| - 1] == EDIT_REPLACE[|EDIT_REPLACE| - 1] == 'E';
    assert body[|body| - 1..] != "\n" by { assert body[|body| - 1..][0] == 'E'; }
    assert body[|body| - |EDIT_REPLACE|..] == EDIT_REPLACE;
    assert body[..|body| - |EDIT_REPLACE|] == EDIT_SEARCH + inner;
    assert body[|EDIT_SEARCH|..] == inner + EDIT_REPLACE;
    assert (inner + EDIT_REPLACE)[|inner|..] == EDIT_REPLACE;
  }

  /** The round trip, with the whole condition under which it holds. */
  lemma EditRoundTrips(path: string, search: string, replace: string)
    ensures var (rel, body) := Cut(Printed(path, search, replace), "\n");
      rel == path && ReadBlock(body) == Block(search, replace) <==> '\n' !in path && Separable(search)
  {
    PrintedPath(path, search, replace);
    assert var body := EDIT_SEARCH + search + EDIT_DIVIDER + replace + EDIT_REPLACE;
      ReadBlock(body) == Block(search, replace) <==> Separable(search) by {
      PrintedInner(search, replace);
      var inner := search + EDIT_DIVIDER + replace;
      OccursWithin(search, EDIT_DIVIDER, replace, EDIT_DIVIDER, 0);
      FirstDivider(search, replace);
      IndexMeans(inner, EDIT_DIVIDER, 0);
      var k := IndexFrom(inner, EDIT_DIVIDER, 0);
      if k == |search| {
        assert inner[..k] == search && inner[k + 9..] == replace;
      } else {
        assert |inner[..k]| != |search|;
      }
    }
  }

  /** The search text starts with the divider's own line. */
  predicate StartsWithDividerLine(search: string) {
    HasPrefix(search + "\n", "=======\n")
  }

  /** No divider begins inside the header, but for one that uses its newline. */
  lemma DividerInTheHeader(rest: string, j: nat)
    requires j < |EDIT_SEARCH|
    ensures var block := EDIT_SEARCH + rest;
      OccursAt(block, EDIT_DIVIDER, j) <==> j == |EDIT_SEARCH| - 1 && HasPrefix(rest, "=======\n")
  {
    var block, h := EDIT_SEARCH + rest, |EDIT_SEARCH|;
    assert block[j] == EDIT_SEARCH[j];
    if OccursAt(block, EDIT_DIVIDER, j) {
      OccursChar(block, EDIT_DIVIDER, j, 0);
      assert j == h - 1;
      assert rest[..8] == block[j..j + 9][1..];
    }
    if j == h - 1 && HasPrefix(rest, "=======\n") {
      assert rest[..8] == "=======\n";
      assert block[j..j + 9] == [block[j]] + rest[..8];
    }
  }

  /** Where the first divider of a printed block is, header included. */
  lemma DividerOfTheBlock(search: string, replace: string)
    requires Separable(search)
    ensures var inner := search + EDIT_DIVIDER + replace;
      IndexFrom(EDIT_SEARCH + inner, EDIT_DIVIDER, 0)
      == |EDIT_SEARCH| + (if StartsWithDividerLine(search) then -1 else |search|)
  {
    var inner := search + EDIT_DIVIDER + replace;
    var block, h := EDIT_SEARCH + inner, |EDIT_SEARCH|;
    assert HasPrefix(search + EDIT_DIVIDER + replace, "=======\n") <==> StartsWithDividerLine(search) by {
      var inner := search + EDIT_DIVIDER + replace;
      assert inner[|search|] == '\n';
      if |search| >= 7 {
        assert inner[..8] == (search + "\n")[..8];
      }
    }
    forall j | 0 <= j < h { DividerInTheHeader(inner, j); }
    if StartsWithDividerLine(search) {
      IndexIs(block, EDIT_DIVIDER, 0, h - 1);
    } else {
      FirstDivider(search, replace);
      IndexAfterHeader(EDIT_SEARCH, inner, EDIT_DIVIDER);
    }
  }

  /** With no occurrence beginning in the header, the first one is the first of the rest. */
  lemma {:induction false} IndexAfterHeader(header: string, rest: string, p: string)
    requires Contains(rest, p)
    requires forall j :: 0 <= j < |header| ==> !OccursAt(header + rest, p, j)
    ensures IndexFrom(header + rest, p, 0) == |header| + IndexFrom(rest, p, 0)
  {
    hide OccursAt;
    var whole, k := header + rest, IndexFrom(rest, p, 0);
    IndexMeans(rest, p, 0);
    forall j | 0 <= j < |header| + k ensures !OccursAt(whole, p, j) {
      if j >= |header| {
        OccursAfter(header, rest, p, j - |header|);
      }
    }
    OccursAfter(header, rest, p, k);
    IndexIs(whole, p, 0, |header| + k);
  }

  /** The text checked for fabricated checks is the replacement that is written, unless the search
      text itself starts with the divider's line: the check then reads more than the replacement,
      never less. */
  lemma CheckedTextIsTheReplacement(search: string, replace: string)
    requires Separable(search)
    ensures var text := EditText(EDIT_SEARCH + search + EDIT_DIVIDER + replace + EDIT_REPLACE);
      (text == replace <==> !StartsWithDividerLine(search)) && HasSuffix(text, replace)
  {
    PrintedInner(search, replace);
    DividerOfTheBlock(search, replace);
    var inner := search + EDIT_DIVIDER + replace;
    var block, h := EDIT_SEARCH + inner, |EDIT_SEARCH|;
    var k := IndexFrom(block, EDIT_DIVIDER, 0);
    if StartsWithDividerLine(search) {
      assert block[k + 9..] == (search + EDIT_DIVIDER)[8..] + replace;
    } else {
      assert block[k + 9..] == replace;
    }
  }

  // ---- Applying a block.

  /** k is the only place the edit may happen: the first occurrence, with none from its end on. */
  predicate OnlyPlace(data: string, search: string, k: nat) {
    && OccursAt(data, search, k)
    && (forall j :: 0 <= j < k ==> !OccursAt(data, search, j))
    && (forall j :: k + |search| <= j <= |data| ==> !OccursAt(data, search, j))
  }

  lemma CountIsZero(s: string, p: string, i: nat)
    requires p != "" && i <= |s|
    ensures CountFrom(s, p, i) == 0 <==> forall j :: i <= j <= |s| ==> !OccursAt(s, p, j)
  {
    IndexMeans(s, p, i);
  }

  /** Go counts one occurrence exactly when there is such a place, and it is the first. */
  lemma CountIsOne(data: string, search: string)
    requires search != ""
    ensures CountFrom(data, search, 0) == 1 <==> exists k: nat :: OnlyPlace(data, search, k)
    ensures CountFrom(data, search, 0) == 1 ==> OnlyPlace(data, search, IndexFrom(data, search, 0))
  {
    var k := IndexFrom(data, search, 0);
    IndexMeans(data, search, 0);
    if k <= |data| {
      var after := k + |search|;
      CountIsZero(data, search, after);
      assert CountFrom(data, search, 0) == 1 + CountFrom(data, search, after);
      assert CountFrom(data, search, after) == 0 <==> OnlyPlace(data, search, k);
      forall j: nat | OnlyPlace(data, search, j) ensures j == k {
        IndexIs(data, search, 0, j);
      }
    }
  }

  /** A proper prefix of p is also a suffix of it. */
  ghost predicate HasBorder(p: string) {
    exists d :: 0 < d < |p| && p[d..] == p[..|p| - d]
  }

  /** "The search text must occur exactly once": a count of one means one place exactly for the
      search texts that cannot overlap themselves. */
  lemma CountOneIsOnePlace(search: string)
    requires search != ""
    ensures !HasBorder(search) <==> forall data, j, k ::
      CountFrom(data, search, 0) == 1 && OccursAt(data, search, j) && OccursAt(data, search, k) ==> j == k
  {
    if HasBorder(search) {
      var d :| 0 < d < |search| && search[d..] == search[..|search| - d];
      var data := search + search[|search| - d..];
      assert OccursAt(data, search, 0);
      assert data[d..d + |search|] == search[d..] + search[|search| - d..] == search;
      assert OccursAt(data, search, d);
      assert OnlyPlace(data, search, 0);
      CountIsOne(data, search);
    } else {
      forall data, j, k | CountFrom(data, search, 0) == 1 && OccursAt(data, search, j) && OccursAt(data, search, k)
        ensures j == k
      {
        CountIsOne(data, search);
        if j < k {
          OverlapIsABorder(data, search, j, k);
        } else if k < j {
          OverlapIsABorder(data, search, k, j);
        }
      }
    }
  }

  lemma OverlapIsABorder(data: string, p: string, j: nat, k: nat)
    requires p != "" && OccursAt(data, p, j) && OccursAt(data, p, k) && j < k
    requires exists at: nat :: OnlyPlace(data, p, at)
    ensures HasBorder(p)
  {
    var at: nat :| OnlyPlace(data, p, at);
    var d := k - j;
    assert at <= j && k < at + |p|;
    assert p[d..] == data[j..j + |p|][d..] == data[k..j + |p|] == data[k..k + |p|][..|p| - d] == p[..|p| - d];
  }

  /** "aa" is found once in "aaa", at two places. */
  lemma OverlappingSearchIsEdited()
    ensures CountFrom("aaa", "aa", 0) == 1 && OccursAt("aaa", "aa", 0) && OccursAt("aaa", "aa", 1)
  {
    CountIsOne("aaa", "aa");
    assert OnlyPlace("aaa", "aa", 0);
  }

  datatype EditOutcome = Edited | BadBlock | Unreadable | NotFound | Ambiguous(times: nat)

  /** A file of the workspace. */
  class File {
    var present: bool
    var data: string

    constructor (data: string)
      ensures present && this.data == data
    {
      present, this.data := true, data;
    }

    /** Applies one block: the only place of the search text becomes the replacement, and a block
        that does not apply leaves the file as it was. */
    method Edit(body: string) returns (outcome: EditOutcome)
      modifies this
      ensures present == old(present)
      ensures outcome.Edited? <==>
        old(present) && ReadBlock(body).Block? && exists k: nat :: OnlyPlace(old(data), ReadBlock(body).search, k)
      ensures outcome.Edited? ==> EditedOnce(old(data), data, ReadBlock(body).search, ReadBlock(body).replace)
      ensures !outcome.Edited? ==> data == old(data)
      ensures outcome.BadBlock? <==> !ReadBlock(body).Block?
      ensures outcome.NotFound? ==> !Contains(data, ReadBlock(body).search)
      ensures outcome.Ambiguous? ==> Contains(data, ReadBlock(body).search) && outcome.times >= 2
    {
      var block := ReadBlock(body);
      if !block.Block? {
        return BadBlock;
      }
      if !present {
        return Unreadable;
      }
      IndexMeans(data, block.search, 0);
      var n := CountFrom(data, block.search, 0);
      CountIsOne(data, block.search);
      CountIsZero(data, block.search, 0);
      if n == 0 {
        return NotFound;
      }
      if n > 1 {
        return Ambiguous(n);
      }
      var k := IndexFrom(data, block.search, 0);
      Spliced(data, block.search, block.replace, k);
      data := data[..k] + block.replace + data[k + |block.search|..];
      outcome := Edited;
    }
  }

  /** now is was with the only place of search replaced. */
  ghost predicate EditedOnce(was: string, now: string, search: string, replace: string) {
    exists pre, post ::
      was == pre + search + post && OnlyPlace(was, search, |pre|) && now == pre + replace + post
  }

  lemma Spliced(was: string, search: string, replace: string, k: nat)
    requires OnlyPlace(was, search, k)
    ensures EditedOnce(was, was[..k] + replace + was[k + |search|..], search, replace)
  {
    var pre, post := was[..k], was[k + |search|..];
    assert was == pre + search + post;
  }

  /** Printing an edit and undoing it: with nothing of the replacement text elsewhere, the printed
      inverse of an applied edit applies too and gives the file back. */
  lemma EditIsUndone(pre: string, search: string, replace: string, post: string)
    requires Separable(search) && Separable(replace)
    requires OnlyPlace(pre + search + post, search, |pre|)
    requires OnlyPlace(pre + replace + post, replace, |pre|)
    ensures ReadBlock(Cut(Printed("f", replace, search), "\n").1) == Block(replace, search)
    ensures var edited := pre + replace + post;
      var k := IndexFrom(edited, replace, 0);
      k <= |edited| && edited[..k] + search + edited[k + |replace|..] == pre + search + post
  {
    EditRoundTrips("f", replace, search);
    var edited := pre + replace + post;
    IndexIs(edited, replace, 0, |pre|);
    assert edited[..|pre|] == pre && edited[|pre| + |replace|..] == post;
  }
}
