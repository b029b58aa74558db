/** internal/agent/verify.go: cutting a command line at the separators of the shell. */
module Segments {
  import opened Strings

  // ---- The pure lexer.

  /** A piece of a command line: a byte outside quotes, a quoted word, an escaped byte, the start of
      a here-string or of a heredoc, a separator, or the bodies of the heredocs of a line. */
  datatype Piece =
    | Plain(text: string)
    | Quoted(text: string)
    | Escaped(text: string)
    | HereString(text: string)
    | HereStart(text: string)
    | Separator(text: string)
    | Bodies(text: string)

  /** Just past the single-quoted word s starts with; an unclosed quote runs to the end. */
  function SingleEnd(s: string): (k: nat)
    requires s != "" && s[0] == '\''
    ensures 0 < k <= |s|
  {
    var q := ByteFrom(s, '\'', 1);
    if q == |s| then |s| else q + 1
  }

  /** The closing quote of a double-quoted word read up to j, or |s|: a backslash escapes. */
  function DoubleClose(s: string, j: nat): (k: nat)
    ensures k <= |s| && (j <= |s| ==> j <= k)
    decreases |s| - j
  {
    if j >= |s| then |s|
    else if s[j] == '"' then j
    else DoubleClose(s, j + if s[j] == '\\' then 2 else 1)
  }

  function DoubleEnd(s: string): (k: nat)
    requires s != "" && s[0] == '"'
    ensures 0 < k <= |s|
  {
    var q := DoubleClose(s, 1);
    if q == |s| then |s| else q + 1
  }

  /** s starts with c twice, and three times. */
  predicate Twice(s: string, c: char) {
    |s| > 1 && s[0] == c && s[1] == c
  }

  predicate Thrice(s: string, c: char) {
    Twice(s, c) && |s| > 2 && s[2] == c
  }

  const WORD_ENDS: set<char> := {' ', '\t', '\n', ';', '&', '|', '<', '>', '(', ')'}

  function SkipBlanks(s: string, n: nat): (k: nat)
    requires n <= |s|
    ensures n <= k <= |s|
    decreases |s| - n
  {
    if n < |s| && (s[n] == ' ' || s[n] == '\t') then SkipBlanks(s, n + 1) else n
  }

  function WordEnd(s: string, n: nat): (k: nat)
    requires n <= |s|
    ensures n <= k <= |s|
    decreases |s| - n
  {
    if n < |s| && s[n] !in WORD_ENDS then WordEnd(s, n + 1) else n
  }

  /** The terminator of a heredoc, from what follows <<: the word without its quotes, and how many
      bytes it takes. */
  function HeredocWord(s: string): (r: (string, nat))
    ensures r.1 <= |s|
  {
    var n := SkipBlanks(s, if s != "" && s[0] == '-' then 1 else 0);
    if n < |s| && (s[n] == '\'' || s[n] == '"') then
      var end := ByteFrom(s, s[n], n + 1);
      if end == |s| then ("", n) else (s[n + 1..end], end + 1)
    else (s[n..WordEnd(s, n)], WordEnd(s, n))
  }

  const DIGITS: set<char> := {'0', '1', '2', '3', '4', '5', '6', '7', '8', '9'}

  /** A number after << is a shift, not a heredoc. */
  function Opened(docs: seq<string>, word: string): seq<string> {
    if Trim(word, DIGITS) != "" then docs + [word] else docs
  }

  /** The line a text starts with, and how many bytes it takes with its newline. */
  function LineOf(s: string): (r: (string, nat))
    requires s != ""
    ensures 0 < r.1 <= |s|
  {
    var e := ByteFrom(s, '\n', 0);
    (s[..e], if e == |s| then e else e + 1)
  }

  /** How much of s the body of one heredoc takes: the lines up to its terminator, tabs aside. */
  function BodyLen(s: string, word: string): (k: nat)
    ensures k <= |s|
  {
    if s == "" then 0
    else
      var (line, n) := LineOf(s);
      if TrimLeft(line, {'\t'}) == word then n else n + BodyLen(s[n..], word)
  }

  function BodiesLen(s: string, docs: seq<string>): (k: nat)
    ensures k <= |s|
    decreases |docs|
  {
    if docs == [] then 0
    else var n := BodyLen(s, docs[0]); n + BodiesLen(s[n..], docs[1..])
  }

  predicate OpensAHeredoc(s: string) {
    Twice(s, '<') && !Thrice(s, '<')
  }

  /** The length of the separator s starts with, 0 when it starts with none. */
  function SeparatorLen(s: string): (n: nat)
    ensures n <= |s|
  {
    if s == "" then 0
    else if Twice(s, '&') || Twice(s, '|') then 2
    else if s[0] == ';' || s[0] == '|' || s[0] == '\n' then 1
    else 0
  }

  /** One step of the lexer: the pieces s starts with, how many bytes they take, and the heredocs
      open after them. */
  datatype Token = Token(pieces: seq<Piece>, size: nat, docs: seq<string>)

  function First(s: string, docs: seq<string>): (t: Token)
    requires s != ""
    ensures 0 < t.size <= |s|
  {
    if s[0] == '\'' then Token([Quoted(s[..SingleEnd(s)])], SingleEnd(s), docs)
    else if s[0] == '"' then Token([Quoted(s[..DoubleEnd(s)])], DoubleEnd(s), docs)
    else if s[0] == '\\' && |s| > 1 then Token([Escaped(s[..2])], 2, docs)
    else if Thrice(s, '<') then Token([HereString(s[..3])], 3, docs)
    else if Twice(s, '<') then
      var (word, n) := HeredocWord(s[2..]);
      Token([HereStart(s[..2 + n])], 2 + n, Opened(docs, word))
    else if s[0] == '\n' then
      var n := BodiesLen(s[1..], docs);
      Token([Separator(s[..1]), Bodies(s[1..1 + n])], 1 + n, [])
    else if s[0] == ';' then Token([Separator(s[..1])], 1, docs)
    else if Twice(s, '&') || Twice(s, '|') then Token([Separator(s[..2])], 2, docs)
    else if s[0] == '|' then Token([Separator(s[..1])], 1, docs)
    else Token([Plain(s[..1])], 1, docs)
  }

  /** The pieces of s, with the terminators of the heredocs already open on its first line. */
  function Lex(s: string, docs: seq<string>): seq<Piece>
    decreases |s|
  {
    if s == "" then []
    else var t := First(s, docs); t.pieces + Lex(s[t.size..], t.docs)
  }

  function TextOf(pieces: seq<Piece>): string {
    if pieces == [] then "" else pieces[0].text + TextOf(pieces[1..])
  }

  /** The segments cut so far and the one being read. */
  datatype Cuts = Cuts(segs: seq<string>, cur: string)

  function Take(c: Cuts, p: Piece): Cuts {
    match p
    case Separator(_) => Cuts(c.segs + [c.cur], "")
    case Bodies(_) => c
    case _ => Cuts(c.segs, c.cur + p.text)
  }

  function TakeAll(c: Cuts, pieces: seq<Piece>): Cuts
    decreases |pieces|
  {
    if pieces == [] then c else TakeAll(Take(c, pieces[0]), pieces[1..])
  }

  /** What is cut of the rest of a line, after what was cut of it already. */
  function SplitFrom(c: Cuts, s: string, docs: seq<string>): seq<string> {
    var last := TakeAll(c, Lex(s, docs));
    last.segs + [last.cur]
  }

  function Split(command: string): seq<string> {
    SplitFrom(Cuts([], ""), command, [])
  }

  // ---- Every byte is in exactly one piece, in order.

  lemma {:induction false} TextOfAppend(a: seq<Piece>, b: seq<Piece>)
    ensures TextOf(a + b) == TextOf(a) + TextOf(b)
  {
    if a == [] {
      assert a + b == b;
    } else {
      TextOfAppend(a[1..], b);
      assert (a + b)[1..] == a[1..] + b && (a + b)[0] == a[0];
      assert a[0].text + (TextOf(a[1..]) + TextOf(b)) == a[0].text + TextOf(a[1..]) + TextOf(b);
    }
  }

  lemma FirstTakesItsBytes(s: string, docs: seq<string>)
    requires s != ""
    ensures TextOf(First(s, docs).pieces) == s[..First(s, docs).size]
  {
    assert var t := First(s, docs);
      if s[0] == '\n' then |t.pieces| == 2 && t.pieces[0].text == s[..1] && t.pieces[1].text == s[1..t.size]
      else |t.pieces| == 1 && t.pieces[0].text == s[..t.size] by {
      hide SingleEnd, DoubleEnd, HeredocWord, BodiesLen, Opened;
    }
    hide *;
    var t := First(s, docs);
    if s[0] == '\n' {
      assert TextOf([t.pieces[0], t.pieces[1]]) == t.pieces[0].text + t.pieces[1].text by {
        assert [t.pieces[0], t.pieces[1]][1..] == [t.pieces[1]];
        assert TextOf([t.pieces[1]]) == t.pieces[1].text + "";
      }
      assert t.pieces == [t.pieces[0], t.pieces[1]];
      assert s[..1] + s[1..t.size] == s[..t.size];
    } else {
      assert t.pieces == [t.pieces[0]];
    }
  }

  /** The pieces of a line, one after the other, are the line: every byte is in exactly one of a
      segment, a separator or the body of a heredoc. */
  lemma {:induction false} LexKeepsEveryByte(s: string, docs: seq<string>)
    ensures TextOf(Lex(s, docs)) == s
    decreases |s|
  {
    hide First;
    if s != "" {
      var t := First(s, docs);
      FirstTakesItsBytes(s, docs);
      LexKeepsEveryByte(s[t.size..], t.docs);
      TextOfAppend(t.pieces, Lex(s[t.size..], t.docs));
      assert s[..t.size] + s[t.size..] == s;
    }
  }

  lemma {:induction false} TakeAllAppend(c: Cuts, a: seq<Piece>, b: seq<Piece>)
    ensures TakeAll(c, a + b) == TakeAll(TakeAll(c, a), b)
    decreases |a|
  {
    hide Take;
    if a == [] {
      assert a + b == b;
    } else {
      assert (a + b)[1..] == a[1..] + b;
      assert (a + b)[0] == a[0];
      TakeAllAppend(Take(c, a[0]), a[1..], b);
    }
  }

  /** One token of the line, then the rest. */
  lemma SplitStep(c: Cuts, s: string, docs: seq<string>)
    requires s != ""
    ensures var t := First(s, docs);
      SplitFrom(c, s, docs) == SplitFrom(TakeAll(c, t.pieces), s[t.size..], t.docs)
  {
    hide First;
    var t := First(s, docs);
    TakeAllAppend(c, t.pieces, Lex(s[t.size..], t.docs));
  }

  lemma SplitStarts(s: string)
    ensures Split(s) == SplitFrom(Cuts([], ""), s, [])
  {
    hide SplitFrom;
  }

  lemma SplitEnds(c: Cuts, docs: seq<string>)
    ensures SplitFrom(c, "", docs) == c.segs + [c.cur]
  {
  }

  // ---- The splitter itself.

  method ReadHeredocWord(s: string) returns (word: string, n: nat)
    ensures (word, n) == HeredocWord(s)
  {
    n := 0;
    if n < |s| && s[n] == '-' {
      n := n + 1;
    }
    ghost var blanks := n;
    while n < |s| && (s[n] == ' ' || s[n] == '\t')
      invariant n <= |s| && SkipBlanks(s, n) == SkipBlanks(s, blanks)
    {
      n := n + 1;
    }
    if n < |s| && (s[n] == '\'' || s[n] == '"') {
      var end := ByteFrom(s, s[n], n + 1);
      if end == |s| {
        return "", n;
      }
      return s[n + 1..end], end + 1;
    }
    var start := n;
    while n < |s| && s[n] !in WORD_ENDS
      invariant start <= n <= |s| && WordEnd(s, n) == WordEnd(s, start)
    {
      n := n + 1;
    }
    word := s[start..n];
  }

  /** The byte after a heredoc body that starts at p, and after the bodies of several. */
  function BodyEnd(s: string, p: nat, word: string): nat
    requires p <= |s|
  {
    p + BodyLen(s[p..], word)
  }

  function BodiesEnd(s: string, p: nat, docs: seq<string>): nat
    requires p <= |s|
  {
    p + BodiesLen(s[p..], docs)
  }

  /** A body that starts with a line: its length. */
  lemma BodyOfLine(s: string, word: string)
    requires s != ""
    ensures var (line, n) := LineOf(s);
      BodyLen(s, word) == if TrimLeft(line, {'\t'}) == word then n else n + BodyLen(s[n..], word)
  {
    hide LineOf, TrimLeft;
  }

  /** One line of a heredoc body, inside the command line. */
  lemma BodyStep(s: string, p: nat, line: string, word: string)
    requires p < |s| && line == s[p..][..ByteFrom(s[p..], '\n', 0)]
    ensures p + |line| <= |s|
    ensures var q := if p + |line| == |s| then |s| else p + |line| + 1;
      BodyEnd(s, p, word) == if TrimLeft(line, {'\t'}) == word then q else BodyEnd(s, q, word)
  {
    assert var e := ByteFrom(s[p..], '\n', 0);
      p + e <= |s| && |s[p..][..e]| == e && LineOf(s[p..]) == (s[p..][..e], if p + e == |s| then e else e + 1) by {
      hide ByteFrom;
    }
    hide *;
    var q := if p + |line| == |s| then |s| else p + |line| + 1;
    BodyOfLine(s[p..], word);
    assert s[p..][q - p..] == s[q..];
  }

  lemma BodyAtTheEnd(s: string, word: string)
    ensures BodyEnd(s, |s|, word) == |s|
  {
  }

  lemma BodiesStep(s: string, p: nat, docs: seq<string>, k: nat)
    requires p <= |s| && k < |docs|
    ensures BodyEnd(s, p, docs[k]) <= |s|
    ensures BodiesEnd(s, p, docs[k..]) == BodiesEnd(s, BodyEnd(s, p, docs[k]), docs[k + 1..])
  {
    hide BodyLen;
    var n := BodyLen(s[p..], docs[k]);
    assert docs[k..][0] == docs[k] && docs[k..][1..] == docs[k + 1..];
    assert s[p..][n..] == s[p + n..];
  }

  lemma TakeOne(c: Cuts, p: Piece)
    ensures TakeAll(c, [p]) == Take(c, p)
  {
  }

  lemma TakeLineEnd(c: Cuts, newline: string, body: string)
    ensures TakeAll(c, [Separator(newline), Bodies(body)]) == Cuts(c.segs + [c.cur], "")
  {
    var after := Take(c, Separator(newline));
    assert [Separator(newline), Bodies(body)][1..] == [Bodies(body)];
    TakeOne(after, Bodies(body));
  }

  /** One that opens a heredoc. */
  lemma HeredocIs(s: string, docs: seq<string>)
    requires OpensAHeredoc(s)
    ensures var (word, n) := HeredocWord(s[2..]);
      First(s, docs) == Token([HereStart(s[..2 + n])], 2 + n, Opened(docs, word))
  {
    hide SingleEnd, DoubleEnd, HeredocWord, BodiesLen, Opened;
  }

  /** A newline, with the bodies after it. */
  lemma LineEndIs(s: string, docs: seq<string>)
    requires s != "" && s[0] == '\n'
    ensures var n := BodiesLen(s[1..], docs);
      First(s, docs) == Token([Separator(s[..1]), Bodies(s[1..1 + n])], 1 + n, [])
  {
    hide SingleEnd, DoubleEnd, HeredocWord, BodiesLen, Opened;
  }

  /** Another separator. */
  lemma SeparatorIs(s: string, docs: seq<string>)
    requires SeparatorLen(s) > 0 && s[0] != '\n'
    ensures First(s, docs) == Token([Separator(s[..SeparatorLen(s)])], SeparatorLen(s), docs)
  {
    hide SingleEnd, DoubleEnd, HeredocWord, BodiesLen, Opened;
  }

  /** A token of text goes to the segment being read. */
  lemma TextStep(c: Cuts, s: string, docs: seq<string>)
    requires s != "" && s[0] !in {'\n', ';', '|'} && !Twice(s, '&') && (Twice(s, '<') ==> Thrice(s, '<'))
    ensures var t := First(s, docs); t.docs == docs && TakeAll(c, t.pieces) == Cuts(c.segs, c.cur + s[..t.size])
    ensures First(s, docs).size
         == if s[0] == '\'' then SingleEnd(s) else if s[0] == '"' then DoubleEnd(s)
            else if s[0] == '\\' && |s| > 1 then 2 else if Thrice(s, '<') then 3 else 1
  {
    assert var t := First(s, docs);
      && t.docs == docs && |t.pieces| == 1
      && t.size == (if s[0] == '\'' then SingleEnd(s) else if s[0] == '"' then DoubleEnd(s)
                    else if s[0] == '\\' && |s| > 1 then 2 else if Thrice(s, '<') then 3 else 1)
      && t.pieces[0].text == s[..t.size] && !t.pieces[0].Separator? && !t.pieces[0].Bodies? by {
      hide SingleEnd, DoubleEnd, BodiesLen, HeredocWord, Opened;
    }
    hide First, TakeAll;
    var p := First(s, docs).pieces[0];
    assert First(s, docs).pieces == [p];
    TakeOne(c, p);
  }

  lemma TakeSeparator(c: Cuts, sep: string)
    ensures TakeAll(c, [Separator(sep)]) == Cuts(c.segs + [c.cur], "")
  {
    TakeOne(c, Separator(sep));
    hide TakeAll;
  }

  class SegmentSplitter {
    const s: string
    var i: nat
    var segs: seq<string>
    var cur: string
    var heredocs: seq<string>

    constructor (command: string)
      ensures s == command && i == 0 && segs == [] && cur == "" && heredocs == []
    {
      s, i, segs, cur, heredocs := command, 0, [], "", [];
    }

    ghost function State(): Cuts
      reads this
    {
      Cuts(segs, cur)
    }

    /** The first byte not read yet, when i is at the last one read. */
    function Next(): nat
      reads this
    {
      if i + 1 <= |s| then i + 1 else |s|
    }

    method CutHere()
      modifies this`segs, this`cur
      ensures segs == old(segs) + [old(cur)] && cur == ""
    {
      segs := segs + [cur];
      cur := "";
    }

    method SingleQuoted()
      requires i < |s| && s[i] == '\''
      modifies this`i, this`cur
      ensures Next() == old(i) + SingleEnd(s[old(i)..])
      ensures cur == old(cur) + s[old(i)..][..SingleEnd(s[old(i)..])]
    {
      var rest := s[i..];
      var end := ByteFrom(rest, '\'', 1);
      if end == |rest| {
        cur := cur + rest;
        i := |s|;
        return;
      }
      cur := cur + rest[..end + 1];
      i := i + end;
    }

    method DoubleQuoted()
      requires i < |s| && s[i] == '"'
      modifies this`i, this`cur
      ensures Next() == old(i) + DoubleEnd(s[old(i)..])
      ensures cur == old(cur) + s[old(i)..][..DoubleEnd(s[old(i)..])]
    {
      var rest := s[i..];
      var j := 1;
      while j < |rest| && rest[j] != '"'
        invariant 1 <= j && DoubleClose(rest, j) == DoubleClose(rest, 1)
        decreases |rest| - j
      {
        if rest[j] == '\\' {
          j := j + 1;
        }
        j := j + 1;
      }
      if j >= |rest| {
        cur := cur + rest;
        i := |s|;
        return;
      }
      cur := cur + rest[..j + 1];
      i := i + j;
    }

    method HeredocStart()
      requires i < |s| && Twice(s[i..], '<')
      modifies this`i, this`cur, this`heredocs
      ensures var (word, n) := HeredocWord(s[old(i)..][2..]);
        && Next() == old(i) + 2 + n
        && cur == old(cur) + s[old(i)..][..2 + n]
        && heredocs == Opened(old(heredocs), word)
    {
      hide HeredocWord;
      var rest := s[i..];
      var word, n := ReadHeredocWord(rest[2..]);
      if Trim(word, DIGITS) != "" {
        heredocs := heredocs + [word];
      }
      cur := cur + rest[..2 + n];
      i := i + 1 + n;
    }

    /** Reads the lines of one body, up to its terminator. */
    method SkipBody(word: string)
      modifies this`i
      ensures Next() == BodyEnd(s, old(Next()), word)
    {
      hide BodyEnd, TrimLeft, ByteFrom;
      ghost var p := Next();
      while i + 1 < |s|
        invariant BodyEnd(s, Next(), word) == BodyEnd(s, p, word)
        decreases |s| - i
      {
        var line := s[i + 1..][..ByteFrom(s[i + 1..], '\n', 0)];
        BodyStep(s, i + 1, line, word);
        i := i + |line| + 1;
        if TrimLeft(line, {'\t'}) == word {
          return;
        }
      }
      BodyAtTheEnd(s, word);
    }

    method SkipHeredocBodies()
      modifies this`i, this`heredocs
      ensures Next() == BodiesEnd(s, old(Next()), old(heredocs))
      ensures heredocs == []
    {
      hide BodyEnd;
      ghost var p, docs := Next(), heredocs;
      assert docs[0..] == docs;
      for k := 0 to |heredocs|
        invariant heredocs == docs
        invariant BodiesEnd(s, Next(), docs[k..]) == BodiesEnd(s, p, docs)
      {
        BodiesStep(s, Next(), docs, k);
        SkipBody(heredocs[k]);
      }
      assert docs[|docs|..] == [];
      heredocs := [];
    }

    /** Reads the byte at i and whatever that byte starts: one token of the lexer. */
    method Step()
      requires i < |s|
      modifies this`i, this`segs, this`cur, this`heredocs
      ensures var t := First(s[old(i)..], old(heredocs));
        && Next() == old(i) + t.size
        && heredocs == t.docs
        && State() == TakeAll(old(State()), t.pieces)
    {
      hide First, SingleEnd, DoubleEnd, HeredocWord, BodiesLen, Opened, TakeAll;
      ghost var rest, docs, before := s[i..], heredocs, State();
      assert rest[0] == s[i] && rest[1..] == s[i + 1..];
      assert |rest| > 1 ==> rest[1] == s[i + 1];
      var ch := s[i];
      if ch == '\'' {
        TextStep(before, rest, docs);
        SingleQuoted();
      } else if ch == '"' {
        TextStep(before, rest, docs);
        DoubleQuoted();
      } else if ch == '\\' && i + 1 < |s| {
        TextStep(before, rest, docs);
        cur := cur + s[i..i + 2];
        i := i + 1;
      } else if Thrice(s[i..], '<') {
        TextStep(before, rest, docs);
        cur := cur + "<<<";
        i := i + 2;
      } else if Twice(s[i..], '<') {
        HeredocIs(rest, docs);
        TakeOne(before, First(rest, docs).pieces[0]);
        HeredocStart();
      } else if ch == '\n' {
        LineEndIs(rest, docs);
        TakeLineEnd(before, rest[..1], rest[1..1 + BodiesLen(rest[1..], docs)]);
        CutHere();
        SkipHeredocBodies();
      } else if ch == ';' {
        SeparatorIs(rest, docs);
        TakeSeparator(before, rest[..1]);
        CutHere();
      } else if ch == '&' && i + 1 < |s| && s[i + 1] == '&' {
        SeparatorIs(rest, docs);
        TakeSeparator(before, rest[..2]);
        CutHere();
        i := i + 1;
      } else if ch == '|' {
        SeparatorIs(rest, docs);
        TakeSeparator(before, rest[..SeparatorLen(rest)]);
        CutHere();
        if i + 1 < |s| && s[i + 1] == '|' {
          i := i + 1;
        }
      } else {
        TextStep(before, rest, docs);
        cur := cur + [ch];
      }
    }

    /** The whole command line: the segments the lexer gives. */
    method Run() returns (out: seq<string>)
      requires i == 0 && segs == [] && cur == "" && heredocs == []
      modifies this`i, this`segs, this`cur, this`heredocs
      ensures out == Split(s)
    {
      hide First, SplitFrom, TakeAll, Split, Lex, HeredocWord, SingleEnd, DoubleEnd, BodiesLen;
      assert s[0..] == s;
      SplitStarts(s);
      while i < |s|
        invariant i <= |s|
        invariant SplitFrom(State(), s[i..], heredocs) == Split(s)
        decreases |s| - i
      {
        ghost var rest, at, docs := s[i..], i, heredocs;
        SplitStep(State(), rest, docs);
        Step();
        assert rest[First(rest, docs).size..] == s[at + First(rest, docs).size..];
        i := if i + 1 <= |s| then i + 1 else |s|;
      }
      assert s[i..] == "";
      SplitEnds(State(), heredocs);
      CutHere();
      out := segs;
    }
  }

  method SplitSegments(command: string) returns (segs: seq<string>)
    ensures segs == Split(command)
  {
    var splitter := new SegmentSplitter(command);
    segs := splitter.Run();
  }
}
