/** How the shell reads a command line, and when the splitter of internal/agent/verify.go reads it the
    same way: sections 2.2 (quoting), 2.6.7 (quote removal), 2.7 (redirection, here-documents) and 2.9 (lists
    and pipelines) of the POSIX.1-2017 Shell Command Language, and the here-string `<<<` of the shells that
    have it. */
module ShellReading {
  import opened Strings
  import opened Segments

  // ---- The reference, one byte at a time.

  datatype Mode = Bare | InSingle | InDouble

  /** A heredoc whose body is still to come: its terminator, and whether `-` drops the tabs its lines
      start with. */
  datatype Doc = Doc(word: string, dash: bool)

  /** A word of the shell: its value without quotes, where it ends, and whether its quotes close. */
  datatype Word = Word(value: string, end: nat, closed: bool)

  /** What a backslash leaves of itself and the byte after it. */
  function Escape(mode: Mode, c: char): string {
    if c == '\n' then "" else if mode.InDouble? && c !in {'"', '\\', '$', '`'} then ['\\', c] else [c]
  }

  function Before(text: string, w: Word): Word {
    w.(value := text + w.value)
  }

  /** The word of s at n, its first bytes having been read already. */
  function ShellWord(mode: Mode, s: string, n: nat): (w: Word)
    requires n <= |s|
    ensures n <= w.end <= |s|
    decreases |s| - n
  {
    if n == |s| then Word("", n, mode.Bare?)
    else if mode.InSingle? then
      if s[n] == '\'' then ShellWord(Bare, s, n + 1) else Before([s[n]], ShellWord(mode, s, n + 1))
    else if s[n] == '\\' && n + 1 < |s| then Before(Escape(mode, s[n + 1]), ShellWord(mode, s, n + 2))
    else if mode.InDouble? then
      if s[n] == '"' then ShellWord(Bare, s, n + 1) else Before([s[n]], ShellWord(mode, s, n + 1))
    else if s[n] == '\'' then ShellWord(InSingle, s, n + 1)
    else if s[n] == '"' then ShellWord(InDouble, s, n + 1)
    else if s[n] in WORD_ENDS then Word("", n, true)
    else Before([s[n]], ShellWord(mode, s, n + 1))
  }

  predicate Dash(s: string) {
    s != "" && s[0] == '-'
  }

  /** Where the word after << starts. */
  function WordStart(s: string): (n: nat)
    ensures n <= |s|
  {
    SkipBlanks(s, if Dash(s) then 1 else 0)
  }

  /** The heredoc that << opens before s, if it opens one, and how many bytes of s it takes. A bare
      number is a shift. */
  function ShellHeredoc(s: string): (r: (seq<Doc>, nat))
    ensures r.1 <= |s|
  {
    var n := WordStart(s);
    var w := ShellWord(Bare, s, n);
    (if w.closed && Trim(s[n..w.end], DIGITS) != "" then [Doc(w.value, Dash(s))] else [], w.end)
  }

  predicate Terminates(line: string, doc: Doc) {
    (if doc.dash then TrimLeft(line, {'\t'}) else line) == doc.word
  }

  function ShellBodyLen(s: string, doc: Doc): (k: nat)
    ensures k <= |s|
  {
    if s == "" then 0
    else
      var (line, n) := LineOf(s);
      if Terminates(line, doc) then n else n + ShellBodyLen(s[n..], doc)
  }

  function ShellBodiesLen(s: string, docs: seq<Doc>): (k: nat)
    ensures k <= |s|
    decreases |docs|
  {
    if docs == [] then 0
    else var n := ShellBodyLen(s, docs[0]); n + ShellBodiesLen(s[n..], docs[1..])
  }

  /** The operator that ends a command and starts s, 0 for none: parentheses group, and end none. */
  function ControlLen(s: string): (n: nat)
    ensures n <= |s|
  {
    if Twice(s, '&') || Twice(s, '|') || Twice(s, ';') then 2
    else if s != "" && s[0] in {'&', '|', ';', '\n'} then 1
    else 0
  }

  /** s starts with a redirection of two bytes: >| >& >> <& or <>. */
  predicate Redirects(s: string) {
    |s| > 1 && ((s[0] == '>' && s[1] in {'|', '&', '>'}) || (s[0] == '<' && s[1] in {'&', '>'}))
  }

  /** The reference splitter: an operator ends a command only outside quotes and redirections, a backslash
      outside single quotes takes the byte after it as it is, and what follows a line are the bodies of its
      heredocs. */
  function ByteSplit(mode: Mode, cur: string, docs: seq<Doc>, s: string): seq<string>
    decreases |s|
  {
    if s == "" then [cur]
    else if mode.InSingle? then ByteSplit(if s[0] == '\'' then Bare else InSingle, cur + s[..1], docs, s[1..])
    else if s[0] == '\\' && |s| > 1 then ByteSplit(mode, cur + s[..2], docs, s[2..])
    else if mode.InDouble? then ByteSplit(if s[0] == '"' then Bare else InDouble, cur + s[..1], docs, s[1..])
    else if s[0] == '\'' then ByteSplit(InSingle, cur + s[..1], docs, s[1..])
    else if s[0] == '"' then ByteSplit(InDouble, cur + s[..1], docs, s[1..])
    else if Thrice(s, '<') then ByteSplit(Bare, cur + s[..3], docs, s[3..])
    else if Twice(s, '<') then
      var (doc, n) := ShellHeredoc(s[2..]);
      ByteSplit(Bare, cur + s[..2 + n], docs + doc, s[2 + n..])
    else if s[0] == '\n' then [cur] + ByteSplit(Bare, "", [], s[1 + ShellBodiesLen(s[1..], docs)..])
    else if Redirects(s) then ByteSplit(Bare, cur + s[..2], docs, s[2..])
    else if ControlLen(s) > 0 then [cur] + ByteSplit(Bare, "", docs, s[ControlLen(s)..])
    else ByteSplit(Bare, cur + s[..1], docs, s[1..])
  }

  // ---- When the splitter reads a heredoc as the shell does.

  const KEEPS_NOTHING: set<char> := {'"', '\\', '$', '`', '\n'}

  /** The terminator is quoted as a whole, by quotes in which no backslash is taken away, and is no
      number; or it is bare, and holds no quote and no backslash with a byte after it. */
  predicate WordAsWritten(s: string) {
    var n := WordStart(s);
    if n < |s| && (s[n] == '\'' || s[n] == '"') then
      var e := ByteFrom(s, s[n], n + 1);
      && e < |s| && (e + 1 == |s| || s[e + 1] in WORD_ENDS)
      && Trim(s[n + 1..e], DIGITS) != ""
      && (s[n] == '"' ==> forall i :: n < i < e && s[i] == '\\' ==> s[i + 1] !in KEEPS_NOTHING)
    else PlainBetween(s, n, WordEnd(s, n))
  }

  predicate PlainBetween(s: string, n: nat, e: nat)
    requires e <= |s|
  {
    forall i :: n <= i < e ==> s[i] != '\'' && s[i] != '"' && (s[i] == '\\' ==> i + 1 == |s|)
  }

  /** A quote opens the terminator and never closes. */
  predicate NeverCloses(s: string) {
    var n := WordStart(s);
    n < |s| && (s[n] == '\'' || s[n] == '"') && ByteFrom(s, s[n], n + 1) == |s|
  }

  /** The first line that is the terminator, be it with tabs before it or as it stands, is so for the
      shell and for the splitter, or is the last line there is. */
  predicate BodyAsWritten(s: string, doc: Doc) {
    s == "" ||
    var (line, n) := LineOf(s);
    var ends := TrimLeft(line, {'\t'}) == doc.word;
    if ends != Terminates(line, doc) then n == |s| else ends || BodyAsWritten(s[n..], doc)
  }

  predicate BodiesAsWritten(s: string, docs: seq<Doc>)
    decreases |docs|
  {
    docs == [] || (BodyAsWritten(s, docs[0]) && BodiesAsWritten(s[BodyLen(s, docs[0].word)..], docs[1..]))
  }

  /** No operator the splitter has no place for: >| and a & by itself, nor the ;; of a case. After >& and <& it
      looks for && too. */
  predicate OperatorAsWritten(s: string) {
    if Redirects(s) then s[1] != '|' && !(s[1] == '&' && |s| > 2 && s[2] == '&')
    else !Twice(s, ';') && (s != "" && s[0] == '&' ==> Twice(s, '&'))
  }

  /** Every heredoc and every operator of a line, read as the shell reads it, is as the splitter wants it. */
  predicate AsWritten(mode: Mode, docs: seq<Doc>, s: string)
    decreases |s|
  {
    if s == "" then true
    else if mode.InSingle? then AsWritten(if s[0] == '\'' then Bare else InSingle, docs, s[1..])
    else if s[0] == '\\' && |s| > 1 then AsWritten(mode, docs, s[2..])
    else if mode.InDouble? then AsWritten(if s[0] == '"' then Bare else InDouble, docs, s[1..])
    else if s[0] == '\'' then AsWritten(InSingle, docs, s[1..])
    else if s[0] == '"' then AsWritten(InDouble, docs, s[1..])
    else if Thrice(s, '<') then AsWritten(Bare, docs, s[3..])
    else if Twice(s, '<') then
      var (doc, n) := ShellHeredoc(s[2..]);
      NeverCloses(s[2..]) || (WordAsWritten(s[2..]) && AsWritten(Bare, docs + doc, s[2 + n..]))
    else if s[0] == '\n' then
      BodiesAsWritten(s[1..], docs) && AsWritten(Bare, [], s[1 + ShellBodiesLen(s[1..], docs)..])
    else if Redirects(s) then OperatorAsWritten(s) && AsWritten(Bare, docs, s[2..])
    else if ControlLen(s) > 0 then OperatorAsWritten(s) && AsWritten(Bare, docs, s[ControlLen(s)..])
    else AsWritten(Bare, docs, s[1..])
  }

  // ---- The terminator.

  function Words(docs: seq<Doc>): seq<string> {
    seq(|docs|, i requires 0 <= i < |docs| => docs[i].word)
  }

  lemma {:induction false} TrimKeepsOthers(w: string, c: char)
    requires c in w && c !in DIGITS
    ensures Trim(w, DIGITS) != ""
  {
    var l := TrimLeft(w, DIGITS);
    LeftKeeps(w, c);
    RightKeeps(l, c);
  }

  lemma {:induction false} LeftKeeps(w: string, c: char)
    requires c in w && c !in DIGITS
    ensures c in TrimLeft(w, DIGITS)
  {
    if w[0] in DIGITS {
      LeftKeeps(w[1..], c);
    }
  }

  lemma {:induction false} RightKeeps(w: string, c: char)
    requires c in w && c !in DIGITS
    ensures c in TrimRight(w, DIGITS)
  {
    if w[|w| - 1] in DIGITS {
      RightKeeps(w[..|w| - 1], c);
    }
  }

  predicate StopsAt(mode: Mode, s: string, n: nat)
    requires n < |s|
  {
    mode.Bare? && s[n] in WORD_ENDS
  }

  /** The mode after the byte at n, or after the two a backslash joins, and where that is. */
  function ShellStep(mode: Mode, s: string, n: nat): (r: (Mode, nat))
    requires n < |s|
    ensures n < r.1 <= |s|
  {
    if s[n] == '\\' && !mode.InSingle? && n + 1 < |s| then (mode, n + 2)
    else if mode.Bare? && s[n] == '\'' then (InSingle, n + 1)
    else if mode.Bare? && s[n] == '"' then (InDouble, n + 1)
    else if (mode.InSingle? && s[n] == '\'') || (mode.InDouble? && s[n] == '"') then (Bare, n + 1)
    else (mode, n + 1)
  }

  /** What a step adds to the value. */
  function StepText(mode: Mode, s: string, n: nat): (r: string)
    requires n < |s|
    ensures |r| <= ShellStep(mode, s, n).1 - n - if ShellStep(mode, s, n).0 == mode then 0 else 1
  {
    if s[n] == '\\' && !mode.InSingle? && n + 1 < |s| then Escape(mode, s[n + 1])
    else if ShellStep(mode, s, n).0 == mode then [s[n]]
    else ""
  }

  lemma StepOfWord(mode: Mode, s: string, n: nat)
    requires n < |s| && !StopsAt(mode, s, n)
    ensures ShellWord(mode, s, n) == Before(StepText(mode, s, n), ShellWord(ShellStep(mode, s, n).0, s, ShellStep(mode, s, n).1))
  {
    var w := ShellWord(mode, s, n);
    assert "" + w.value == w.value;
  }

  /** The value of a word is shorter than its text by at least its closing quote. */
  lemma {:induction false} ValueIsShorter(mode: Mode, s: string, n: nat)
    requires n <= |s|
    ensures var w := ShellWord(mode, s, n);
      |w.value| + (if w.closed && !mode.Bare? then 1 else 0) <= w.end - n
    decreases |s| - n
  {
    if n < |s| {
      var (next, k) := ShellStep(mode, s, n);
      if !StopsAt(mode, s, n) {
        StepOfWord(mode, s, n);
        hide ShellWord;
        ValueIsShorter(next, s, k);
      }
    }
  }

  /** Up to e a bare word holds nothing the shell takes away, and it ends there. */
  lemma {:induction false} BareIsItself(s: string, n: nat)
    requires n <= |s| && PlainBetween(s, n, WordEnd(s, n))
    ensures ShellWord(Bare, s, n) == Word(s[n..WordEnd(s, n)], WordEnd(s, n), true)
    decreases |s| - n
  {
    if n < |s| && s[n] !in WORD_ENDS {
      assert s[n] != '\'' && s[n] != '"' && (s[n] == '\\' ==> n + 1 == |s|);
      BareIsItself(s, n + 1);
      assert [s[n]] + s[n + 1..WordEnd(s, n)] == s[n..WordEnd(s, n)];
    }
  }

  /** A quote or a backslash in a bare word is not in its value. */
  lemma {:induction false} BareLosesSome(s: string, n: nat, i: nat)
    requires n <= i < |s| && i < WordEnd(s, n)
    requires s[i] == '\'' || s[i] == '"' || (s[i] == '\\' && i + 1 < |s|)
    ensures var w := ShellWord(Bare, s, n); w.closed ==> |w.value| < w.end - n
    decreases |s| - n
  {
    assert s[n] !in WORD_ENDS;
    if s[n] == '\'' {
      ValueIsShorter(InSingle, s, n + 1);
    } else if s[n] == '"' {
      ValueIsShorter(InDouble, s, n + 1);
    } else if s[n] == '\\' && n + 1 < |s| {
      ValueIsShorter(Bare, s, n + 2);
    } else {
      BareLosesSome(s, n + 1, i);
    }
  }

  lemma {:induction false} SingleIsItself(s: string, n: nat)
    requires n <= |s|
    ensures var e := ByteFrom(s, '\'', n);
      ShellWord(InSingle, s, n)
      == if e == |s| then Word(s[n..], e, false) else Before(s[n..e], ShellWord(Bare, s, e + 1))
    decreases |s| - n
  {
    var e := ByteFrom(s, '\'', n);
    if e == n {
    } else {
      hide ShellWord, ByteFrom;
      SingleIsItself(s, n + 1);
      assert [s[n]] + s[n + 1..e] == s[n..e];
      BeforeTwice([s[n]], s[n + 1..e], ShellWord(Bare, s, if e < |s| then e + 1 else e));
    }
  }

  /** Between double quotes a backslash is kept unless it escapes. */
  predicate NoneTaken(s: string, n: nat, e: nat)
    requires e < |s|
  {
    forall i :: n <= i < e && s[i] == '\\' ==> s[i + 1] !in KEEPS_NOTHING
  }

  /** A step that takes nothing away, before the closing quote. */
  lemma DoubleKeeps(s: string, n: nat)
    requires n < |s| && n < ByteFrom(s, '"', n) < |s| && NoneTaken(s, n, ByteFrom(s, '"', n))
    ensures var (mode, k) := ShellStep(InDouble, s, n);
      && mode == InDouble && k <= ByteFrom(s, '"', n) == ByteFrom(s, '"', k)
      && StepText(InDouble, s, n) == s[n..k] && NoneTaken(s, k, ByteFrom(s, '"', n))
  {
    assert s[n] != '"';
    if s[n] == '\\' {
      assert s[n + 1] !in KEEPS_NOTHING;
      assert s[n + 1] != '"';
      assert ByteFrom(s, '"', n + 1) == ByteFrom(s, '"', n + 2);
    }
  }

  lemma {:induction false} DoubleIsItself(s: string, n: nat)
    requires n <= |s| && ByteFrom(s, '"', n) < |s| && NoneTaken(s, n, ByteFrom(s, '"', n))
    ensures var e := ByteFrom(s, '"', n); ShellWord(InDouble, s, n) == Before(s[n..e], ShellWord(Bare, s, e + 1))
    decreases |s| - n
  {
    hide *;
    var e := ByteFrom(s, '"', n);
    var after := ShellWord(Bare, s, e + 1);
    if n < e {
      var k := ShellStep(InDouble, s, n).1;
      DoubleKeeps(s, n);
      DoubleGoesOn(s, n);
      DoubleIsItself(s, k);
      BeforeTwice(s[n..k], s[k..e], after);
      assert s[n..k] + s[k..e] == s[n..e];
    } else {
      DoubleCloses(s, n);
      assert s[n..e] == "";
    }
  }

  lemma DoubleGoesOn(s: string, n: nat)
    requires n < |s|
    ensures ShellWord(InDouble, s, n)
         == Before(StepText(InDouble, s, n), ShellWord(ShellStep(InDouble, s, n).0, s, ShellStep(InDouble, s, n).1))
  {
    StepOfWord(InDouble, s, n);
    hide ShellWord, ShellStep, StepText;
  }

  lemma BeforeTwice(a: string, b: string, w: Word)
    ensures Before(a, Before(b, w)) == Before(a + b, w)
  {
    assert a + (b + w.value) == a + b + w.value;
  }

  lemma DoubleCloses(s: string, n: nat)
    requires n < |s| && s[n] == '"'
    ensures ShellWord(InDouble, s, n) == Before("", ShellWord(Bare, s, n + 1))
  {
    var w := ShellWord(Bare, s, n + 1);
    assert "" + w.value == w.value;
  }

  lemma {:induction false} DoubleLosesSome(s: string, n: nat, i: nat)
    requires n <= i && i + 1 < |s| && s[i] == '\\' && s[i + 1] in KEEPS_NOTHING
    requires forall j :: n <= j < i ==> s[j] != '"'
    ensures var w := ShellWord(InDouble, s, n); w.closed ==> |w.value| + 1 < w.end - n
    decreases |s| - n
  {
    if s[n] == '\\' && s[n + 1] in KEEPS_NOTHING {
      ValueIsShorter(InDouble, s, n + 2);
    } else if s[n] == '\\' {
      DoubleLosesSome(s, n + 2, i);
    } else {
      DoubleLosesSome(s, n + 1, i);
    }
  }

  /** The splitter and the shell open the same heredoc here, and take the same bytes for it. */
  predicate SameHeredoc(s: string) {
    var (word, k) := HeredocWord(s);
    var (docs, n) := ShellHeredoc(s);
    Opened([], word) == Words(docs) && k == n
  }

  predicate StartsQuoted(s: string) {
    var n := WordStart(s);
    n < |s| && (s[n] == '\'' || s[n] == '"')
  }

  /** What the two make of the word, when the shell reads it as w. */
  lemma SameMeans(s: string, word: string, k: nat, w: Word)
    requires HeredocWord(s) == (word, k) && ShellWord(Bare, s, WordStart(s)) == w
    ensures var opens := w.closed && Trim(s[WordStart(s)..w.end], DIGITS) != "";
      SameHeredoc(s) <==> k == w.end && (Trim(word, DIGITS) != "") == opens && (opens ==> word == w.value)
  {
    hide Trim, HeredocWord, ShellWord, WordStart, DIGITS;
    var (docs, n) := ShellHeredoc(s);
    assert |Words(docs)| == |docs|;
    assert docs != [] ==> Words(docs)[0] == w.value;
    if Trim(word, DIGITS) != "" {
      assert Opened([], word) == [word];
    } else {
      assert Opened([], word) == [];
    }
  }

  lemma {:induction false} HeredocWordIs(s: string)
    ensures var n := WordStart(s);
      HeredocWord(s)
      == if StartsQuoted(s) then
           var e := ByteFrom(s, s[n], n + 1);
           if e == |s| then ("", n) else (s[n + 1..e], e + 1)
         else (s[n..WordEnd(s, n)], WordEnd(s, n))
  {
    hide SkipBlanks, WordEnd, ByteFrom;
  }

  lemma BareWord(s: string)
    requires !StartsQuoted(s)
    ensures SameHeredoc(s) <==> WordAsWritten(s)
  {
    assert WordAsWritten(s) <==> PlainBetween(s, WordStart(s), WordEnd(s, WordStart(s))) by {
      hide SkipBlanks, WordEnd, ByteFrom, Trim, PlainBetween;
    }
    hide *;
    var n := WordStart(s);
    var e, w := WordEnd(s, n), ShellWord(Bare, s, n);
    HeredocWordIs(s);
    SameMeans(s, s[n..e], e, w);
    if PlainBetween(s, n, e) {
      BareIsItself(s, n);
    } else {
      var i := NotPlain(s, n, e);
      BareLosesSome(s, n, i);
      assert s[i] in s[n..e] by { assert s[n..e][i - n] == s[i]; }
      NoDigit(s[i]);
      TrimKeepsOthers(s[n..e], s[i]);
    }
  }

  lemma NoDigit(c: char)
    requires c == '\'' || c == '"' || c == '\\'
    ensures c !in DIGITS
  {
  }

  lemma NotPlain(s: string, n: nat, e: nat) returns (i: nat)
    requires e <= |s| && !PlainBetween(s, n, e)
    ensures n <= i < e && (s[i] == '\'' || s[i] == '"' || (s[i] == '\\' && i + 1 < |s|))
  {
    i :| n <= i < e && !(s[i] != '\'' && s[i] != '"' && (s[i] == '\\' ==> i + 1 == |s|));
  }

  /** A bare word is empty where a word ends, and only there. */
  lemma EmptyWord(s: string, n: nat)
    requires n <= |s|
    ensures if n == |s| || s[n] in WORD_ENDS then ShellWord(Bare, s, n) == Word("", n, true)
            else ShellWord(Bare, s, n).end > n
  {
  }

  lemma OpensQuoted(s: string)
    requires StartsQuoted(s)
    ensures var n := WordStart(s);
      ShellWord(Bare, s, n) == ShellWord(if s[n] == '\'' then InSingle else InDouble, s, n + 1)
  {
    assert '\'' !in WORD_ENDS && '"' !in WORD_ENDS;
  }

  /** The text of a quoted word is no number. */
  lemma QuotedIsNoNumber(s: string, n: nat, end: nat)
    requires n < end <= |s| && (s[n] == '\'' || s[n] == '"')
    ensures Trim(s[n..end], DIGITS) != ""
  {
    hide Trim;
    assert s[n..end][0] == s[n];
    NoDigit(s[n]);
    TrimKeepsOthers(s[n..end], s[n]);
  }

  lemma UnclosedIsNot(s: string)
    requires NeverCloses(s)
    ensures !WordAsWritten(s)
  {
    hide SkipBlanks, WordEnd, ByteFrom, Trim;
  }

  /** What is quoted as it stands is the terminator for both, when the word ends with its quote. */
  lemma QuotedTail(s: string, n: nat, e: nat)
    requires n == WordStart(s) && n < e < |s| && (s[n] == '\'' || s[n] == '"') && e == ByteFrom(s, s[n], n + 1)
    requires ShellWord(Bare, s, n) == Before(s[n + 1..e], ShellWord(Bare, s, e + 1))
    ensures SameHeredoc(s) <==> (e + 1 == |s| || s[e + 1] in WORD_ENDS) && Trim(s[n + 1..e], DIGITS) != ""
  {
    hide *;
    var w := ShellWord(Bare, s, n);
    QuotedWordIs(s, n, e);
    SameMeans(s, s[n + 1..e], e + 1, w);
    EmptyWord(s, e + 1);
    BeforeMeans(s[n + 1..e], ShellWord(Bare, s, e + 1));
    QuotedIsNoNumber(s, n, w.end);
  }

  lemma QuotedWordIs(s: string, n: nat, e: nat)
    requires n == WordStart(s) && n < e < |s| && (s[n] == '\'' || s[n] == '"') && e == ByteFrom(s, s[n], n + 1)
    ensures HeredocWord(s) == (s[n + 1..e], e + 1) && StartsQuoted(s)
  {
    HeredocWordIs(s);
    hide WordStart, ByteFrom, HeredocWord;
  }

  lemma BeforeMeans(text: string, w: Word)
    ensures Before(text, w).end == w.end && Before(text, w).closed == w.closed
    ensures w.value == "" ==> Before(text, w).value == text
  {
    assert text + "" == text;
  }

  lemma SingleQuotedWord(s: string)
    requires StartsQuoted(s) && !NeverCloses(s) && s[WordStart(s)] == '\''
    ensures SameHeredoc(s) <==> WordAsWritten(s)
  {
    hide SkipBlanks, WordEnd, Trim, SameHeredoc, ShellWord;
    var n := WordStart(s);
    var e := ByteFrom(s, '\'', n + 1);
    OpensQuoted(s);
    SingleIsItself(s, n + 1);
    QuotedTail(s, n, e);
  }

  lemma DoubleQuotedWord(s: string)
    requires StartsQuoted(s) && !NeverCloses(s) && s[WordStart(s)] == '"'
    ensures SameHeredoc(s) <==> WordAsWritten(s)
  {
    hide SkipBlanks, WordEnd, Trim, SameHeredoc, ShellWord;
    var n := WordStart(s);
    var e := ByteFrom(s, '"', n + 1);
    OpensQuoted(s);
    if NoneTaken(s, n + 1, e) {
      DoubleIsItself(s, n + 1);
      QuotedTail(s, n, e);
    } else {
      var i :| n + 1 <= i < e && s[i] == '\\' && s[i + 1] in KEEPS_NOTHING;
      TakenIsNot(s, n, e, i);
    }
  }

  lemma {:induction false} TakenIsNot(s: string, n: nat, e: nat, i: nat)
    requires n == WordStart(s) && n < i < e < |s| && s[n] == '"' && e == ByteFrom(s, '"', n + 1)
    requires s[i] == '\\' && s[i + 1] in KEEPS_NOTHING
    ensures !SameHeredoc(s)
  {
    hide *;
    var w := ShellWord(Bare, s, n);
    QuotedWordIs(s, n, e);
    OpensQuoted(s);
    QuotedIsNoNumber(s, n, w.end);
    DoubleLosesSome(s, n + 1, i);
    SameMeans(s, s[n + 1..e], e + 1, w);
    assert s[n + 1..e][i - n - 1] == '\\';
    NoDigit('\\');
    TrimKeepsOthers(s[n + 1..e], '\\');
  }

  /** The terminator of a heredoc is read as the shell reads it exactly when it is written so that
      dropping the quotes around it is all there is to reading it. */
  lemma TerminatorReadAsWritten(s: string)
    ensures SameHeredoc(s) <==> WordAsWritten(s)
  {
    hide SameHeredoc, WordAsWritten;
    if !StartsQuoted(s) {
      BareWord(s);
    } else if NeverCloses(s) {
      assert !SameHeredoc(s) && !WordAsWritten(s) by {
        var n := WordStart(s);
        HeredocWordIs(s);
        OpensQuoted(s);
        SameMeans(s, "", n, ShellWord(Bare, s, n));
        hide *;
        UnclosedIsNot(s);
      }
    } else if s[WordStart(s)] == '\'' {
      SingleQuotedWord(s);
    } else {
      DoubleQuotedWord(s);
    }
  }

  // ---- The bodies.

  /** A body ends where the shell ends it exactly when no line but the last ends it for one of the two
      only, before a line that ends it for both. */
  lemma {:induction false} BodyReadAsWritten(s: string, doc: Doc)
    ensures BodyLen(s, doc.word) == ShellBodyLen(s, doc) <==> BodyAsWritten(s, doc)
  {
    if s != "" {
      var (line, n) := LineOf(s);
      BodyReadAsWritten(s[n..], doc);
      hide LineOf, TrimLeft, Terminates;
      if s[n..] != "" {
        assert BodyLen(s[n..], doc.word) > 0 && ShellBodyLen(s[n..], doc) > 0 by {
          hide TrimLeft, Terminates, LineOf;
          var (line, n) := LineOf(s[n..]);
        }
      }
    }
  }

  lemma {:induction false} BodiesReadAsWritten(s: string, docs: seq<Doc>)
    requires BodiesAsWritten(s, docs)
    ensures BodiesLen(s, Words(docs)) == ShellBodiesLen(s, docs)
    decreases |docs|
  {
    hide BodyLen, ShellBodyLen, BodyAsWritten;
    if docs != [] {
      var n := BodyLen(s, docs[0].word);
      BodyReadAsWritten(s, docs[0]);
      BodiesReadAsWritten(s[n..], docs[1..]);
      assert Words(docs)[1..] == Words(docs[1..]);
    }
  }

  // ---- The line.

  /** Where the shell goes on reading after one byte inside quotes, or the two a backslash joins. */
  lemma QuotedByte(mode: Mode, cur: string, docs: seq<Doc>, s: string)
    requires s != "" && !mode.Bare?
    ensures var (next, k) := ShellStep(mode, s, 0);
      && ByteSplit(mode, cur, docs, s) == ByteSplit(next, cur + s[..k], docs, s[k..])
      && AsWritten(mode, docs, s) == AsWritten(next, docs, s[k..])
  {
  }

  /** Inside single quotes everything is text up to the next one. */
  lemma {:induction false} SingleRun(cur: string, docs: seq<Doc>, t: string, j: nat)
    requires j <= |t| && forall i :: 0 <= i < j ==> t[i] != '\''
    ensures ByteSplit(InSingle, cur, docs, t) == ByteSplit(InSingle, cur + t[..j], docs, t[j..])
    ensures AsWritten(InSingle, docs, t) == AsWritten(InSingle, docs, t[j..])
    decreases j
  {
    hide ByteSplit, AsWritten;
    if j == 0 {
      assert cur + t[..0] == cur && t[0..] == t;
    } else {
      QuotedByte(InSingle, cur, docs, t);
      SingleRun(cur + t[..1], docs, t[1..], j - 1);
      assert t[..1] + t[1..][..j - 1] == t[..j] && t[1..][j - 1..] == t[j..];
      assert cur + t[..1] + t[1..][..j - 1] == cur + t[..j];
    }
  }

  /** A whole quoted word is text. */
  predicate WordIsText(cur: string, docs: seq<Doc>, s: string, end: nat)
    requires end <= |s|
  {
    && ByteSplit(Bare, cur, docs, s) == ByteSplit(Bare, cur + s[..end], docs, s[end..])
    && AsWritten(Bare, docs, s) == AsWritten(Bare, docs, s[end..])
  }

  lemma OpensAQuote(cur: string, docs: seq<Doc>, s: string)
    requires s != "" && (s[0] == '\'' || s[0] == '"')
    ensures var mode := if s[0] == '\'' then InSingle else InDouble;
      && ByteSplit(Bare, cur, docs, s) == ByteSplit(mode, cur + s[..1], docs, s[1..])
      && AsWritten(Bare, docs, s) == AsWritten(mode, docs, s[1..])
  {
  }

  lemma AtTheEnd(mode: Mode, cur: string, docs: seq<Doc>)
    ensures ByteSplit(mode, cur, docs, "") == [cur] && AsWritten(mode, docs, "")
  {
  }

  lemma SingleWord(cur: string, docs: seq<Doc>, s: string)
    requires s != "" && s[0] == '\''
    ensures WordIsText(cur, docs, s, SingleEnd(s))
  {
    hide ByteSplit, AsWritten;
    var q := ByteFrom(s, '\'', 1);
    OpensAQuote(cur, docs, s);
    SingleRun(cur + s[..1], docs, s[1..], q - 1);
    assert s[1..][q - 1..] == s[q..];
    assert cur + s[..1] + s[1..][..q - 1] == cur + s[..q];
    ClosesAQuote(InSingle, cur, docs, s, q);
  }

  /** At the closing quote, or at the end of the text. */
  lemma ClosesAQuote(mode: Mode, cur: string, docs: seq<Doc>, s: string, q: nat)
    requires q <= |s| && (q < |s| ==> s[q] == if mode.InSingle? then '\'' else '"') && !mode.Bare?
    ensures var end := if q == |s| then |s| else q + 1;
      && ByteSplit(mode, cur + s[..q], docs, s[q..]) == ByteSplit(Bare, cur + s[..end], docs, s[end..])
      && AsWritten(mode, docs, s[q..]) == AsWritten(Bare, docs, s[end..])
  {
    hide ByteSplit, AsWritten;
    if q < |s| {
      QuotedByte(mode, cur + s[..q], docs, s[q..]);
      assert s[q..][1..] == s[q + 1..] && s[..q] + s[q..][..1] == s[..q + 1];
      assert cur + s[..q] + s[q..][..1] == cur + s[..q + 1];
    } else {
      assert s[q..] == "";
      AtTheEnd(mode, cur + s[..q], docs);
      AtTheEnd(Bare, cur + s[..q], docs);
    }
  }

  /** Inside double quotes everything is text up to the next quote that no backslash escapes. */
  lemma {:induction false} DoubleRun(cur: string, docs: seq<Doc>, s: string, j: nat)
    requires j <= |s|
    ensures var q := DoubleClose(s, j);
      && ByteSplit(InDouble, cur + s[..j], docs, s[j..]) == ByteSplit(InDouble, cur + s[..q], docs, s[q..])
      && AsWritten(InDouble, docs, s[j..]) == AsWritten(InDouble, docs, s[q..])
    decreases |s| - j
  {
    hide ByteSplit, AsWritten;
    if j < |s| && s[j] != '"' {
      var k := if s[j] == '\\' && j + 1 < |s| then j + 2 else j + 1;
      QuotedByte(InDouble, cur + s[..j], docs, s[j..]);
      assert s[j..][0] == s[j] && s[j..][k - j..] == s[k..];
      assert cur + s[..j] + s[j..][..k - j] == cur + s[..k];
      DoubleRun(cur, docs, s, k);
    }
  }

  lemma {:induction false} DoubleCloseIsQuote(s: string, j: nat)
    ensures DoubleClose(s, j) < |s| ==> s[DoubleClose(s, j)] == '"'
    decreases |s| - j
  {
    if j < |s| && s[j] != '"' {
      DoubleCloseIsQuote(s, j + if s[j] == '\\' then 2 else 1);
    }
  }

  lemma {:induction false} CutsBefore(done: seq<string>, segs: seq<string>, cur: string, pieces: seq<Piece>)
    ensures var c := TakeAll(Cuts(segs, cur), pieces);
      TakeAll(Cuts(done + segs, cur), pieces) == Cuts(done + c.segs, c.cur)
    decreases |pieces|
  {
    if pieces != [] {
      var next := Take(Cuts(segs, cur), pieces[0]);
      assert done + segs + [cur] == done + (segs + [cur]);
      CutsBefore(done, next.segs, next.cur, pieces[1..]);
    }
  }

  /** What was cut before does not change what is cut next. */
  lemma SplitAfter(done: seq<string>, cur: string, s: string, docs: seq<string>)
    ensures SplitFrom(Cuts(done, cur), s, docs) == done + SplitFrom(Cuts([], cur), s, docs)
  {
    hide TakeAll;
    CutsBefore(done, [], cur, Lex(s, docs));
    assert done + [] == done;
  }

  lemma EmptySplit(cur: string, docs: seq<string>)
    ensures SplitFrom(Cuts([], cur), "", docs) == [cur]
  {
  }

  lemma TextByte(cur: string, docs: seq<Doc>, s: string)
    requires s != "" && ControlLen(s) == 0 && !Redirects(s) && !OpensAHeredoc(s) && s[0] != '\'' && s[0] != '"'
    ensures WordIsText(cur, docs, s,
      if s[0] == '\\' && |s| > 1 then 2 else if Thrice(s, '<') then 3 else 1)
  {
  }

  /** A token that is text is text for the shell too. */
  lemma TextToken(cur: string, docs: seq<Doc>, s: string)
    requires s != "" && ControlLen(s) == 0 && !Redirects(s) && !OpensAHeredoc(s)
    ensures var n := First(s, Words(docs)).size;
      && WordIsText(cur, docs, s, n)
      && SplitFrom(Cuts([], cur), s, Words(docs)) == SplitFrom(Cuts([], cur + s[..n]), s[n..], Words(docs))
  {
    var t := First(s, Words(docs));
    assert SeparatorLen(s) == 0;
    hide *;
    SplitStep(Cuts([], cur), s, Words(docs));
    TakeOne(Cuts([], cur), t.pieces[0]);
    assert t.pieces == [t.pieces[0]];
    if s[0] == '\'' {
      SingleWord(cur, docs, s);
    } else if s[0] == '"' {
      assert WordIsText(cur, docs, s, DoubleEnd(s)) by {
        hide ByteSplit, AsWritten;
        OpensAQuote(cur, docs, s);
        DoubleRun(cur, docs, s, 1);
        DoubleCloseIsQuote(s, 1);
        ClosesAQuote(InDouble, cur, docs, s, DoubleClose(s, 1));
      }
    } else {
      TextByte(cur, docs, s);
    }
  }

  lemma SeparatorCuts(cur: string, docs: seq<Doc>, s: string)
    requires ControlLen(s) > 0 && s[0] != '\n' && OperatorAsWritten(s)
    ensures var rest := s[ControlLen(s)..];
      && ByteSplit(Bare, cur, docs, s) == [cur] + ByteSplit(Bare, "", docs, rest)
      && AsWritten(Bare, docs, s) == AsWritten(Bare, docs, rest)
    ensures SeparatorLen(s) == ControlLen(s)
  {
    assert s[0] in {';', '|', '&'} && !Redirects(s);
  }

  /** A redirection is text. */
  lemma RedirectIsText(cur: string, docs: seq<Doc>, s: string)
    requires Redirects(s) && OperatorAsWritten(s)
    ensures WordIsText(cur, docs, s, 2)
  {
  }

  lemma OneByte(cur: string, s: string, docs: seq<string>)
    requires s != "" && s[0] in {'>', '<', '&'} && !Twice(s, '<') && !Twice(s, '&')
    ensures SplitFrom(Cuts([], cur), s, docs) == SplitFrom(Cuts([], cur + s[..1]), s[1..], docs)
  {
    assert First(s, docs) == Token([Plain(s[..1])], 1, docs) by {
      hide SingleEnd, DoubleEnd, BodiesLen, HeredocWord;
    }
    hide *;
    SplitStep(Cuts([], cur), s, docs);
    TakeOne(Cuts([], cur), Plain(s[..1]));
  }

  /** The separator at the head of s cuts. */
  lemma SeparatorToken(c: Cuts, s: string, docs: seq<string>)
    requires SeparatorLen(s) > 0 && s[0] != '\n'
    ensures SplitFrom(c, s, docs) == SplitFrom(Cuts(c.segs + [c.cur], ""), s[SeparatorLen(s)..], docs)
  {
    hide *;
    SeparatorIs(s, docs);
    SplitStep(c, s, docs);
    TakeSeparator(c, s[..SeparatorLen(s)]);
  }

  /** A newline cuts, and the bodies of the heredocs of its line are skipped. */
  lemma LineEndToken(c: Cuts, s: string, docs: seq<string>)
    requires s != "" && s[0] == '\n'
    ensures SplitFrom(c, s, docs) == SplitFrom(Cuts(c.segs + [c.cur], ""), s[1 + BodiesLen(s[1..], docs)..], [])
  {
    hide *;
    var n := BodiesLen(s[1..], docs);
    LineEndIs(s, docs);
    SplitStep(c, s, docs);
    TakeLineEnd(c, s[..1], s[1..1 + n]);
  }

  lemma LineEndCuts(cur: string, docs: seq<Doc>, s: string)
    requires s != "" && s[0] == '\n'
    ensures var rest := s[1 + ShellBodiesLen(s[1..], docs)..];
      && ByteSplit(Bare, cur, docs, s) == [cur] + ByteSplit(Bare, "", [], rest)
      && AsWritten(Bare, docs, s) == (BodiesAsWritten(s[1..], docs) && AsWritten(Bare, [], rest))
  {
    hide ShellBodiesLen, BodiesAsWritten;
  }

  lemma HeredocToken(cur: string, s: string, docs: seq<string>)
    requires OpensAHeredoc(s)
    ensures var (word, n) := HeredocWord(s[2..]);
      SplitFrom(Cuts([], cur), s, docs) == SplitFrom(Cuts([], cur + s[..2 + n]), s[2 + n..], Opened(docs, word))
  {
    HeredocIs(s, docs);
    hide *;
    var (word, n) := HeredocWord(s[2..]);
    SplitStep(Cuts([], cur), s, docs);
    TakeOne(Cuts([], cur), HereStart(s[..2 + n]));
    TakeHere(cur, s[..2 + n]);
  }

  lemma TakeHere(cur: string, text: string)
    ensures Take(Cuts([], cur), HereStart(text)) == Cuts([], cur + text)
  {
  }

  lemma HeredocOpens(cur: string, docs: seq<Doc>, s: string)
    requires OpensAHeredoc(s)
    ensures var (doc, n) := ShellHeredoc(s[2..]);
      && ByteSplit(Bare, cur, docs, s) == ByteSplit(Bare, cur + s[..2 + n], docs + doc, s[2 + n..])
      && AsWritten(Bare, docs, s)
         == (NeverCloses(s[2..]) || (WordAsWritten(s[2..]) && AsWritten(Bare, docs + doc, s[2 + n..])))
  {
    hide ShellHeredoc, NeverCloses, WordAsWritten;
  }

  lemma {:induction false} DoubleRunsOut(s: string, n: nat)
    requires n <= |s| && forall j :: n <= j < |s| ==> s[j] != '"'
    ensures ShellWord(InDouble, s, n).end == |s|
    decreases |s| - n
  {
    if n < |s| {
      DoubleGoesOn(s, n);
      hide ShellWord;
      DoubleRunsOut(s, ShellStep(InDouble, s, n).1);
    }
  }

  lemma UnclosedRunsOut(s: string)
    requires NeverCloses(s)
    ensures HeredocWord(s) == ("", WordStart(s)) && ShellHeredoc(s).1 == |s|
  {
    HeredocWordIs(s);
    OpensQuoted(s);
    hide ShellWord, ByteFrom, SkipBlanks, WordEnd, HeredocWord, Trim;
    var n := WordStart(s);
    if s[n] == '\'' {
      SingleIsItself(s, n + 1);
    } else {
      DoubleRunsOut(s, n + 1);
    }
  }

  /** A quote that never closes runs to the end of the text. */
  lemma UnclosedIsText(s: string, docs: seq<string>)
    requires s != "" && (s[0] == '\'' || s[0] == '"') && ByteFrom(s, s[0], 1) == |s|
    ensures ControlLen(s) == 0 && !Redirects(s) && !OpensAHeredoc(s) && First(s, docs).size == |s|
  {
    DoubleCloseIsQuote(s, 1);
    hide ByteFrom, HeredocWord, BodiesLen;
  }

  lemma UnclosedSuffix(s: string, n: nat)
    requires n < |s| && ByteFrom(s, s[n], n + 1) == |s|
    ensures s[n..][0] == s[n] && ByteFrom(s[n..], s[n], 1) == |s[n..]|
  {
    var t := s[n..];
    assert forall k :: 1 <= k < |t| ==> t[k] == s[n + k];
  }

  lemma UnclosedStarts(s: string)
    requires NeverCloses(s)
    ensures var n := WordStart(s);
      n < |s| && (s[n] == '\'' || s[n] == '"') && ByteFrom(s, s[n], n + 1) == |s|
  {
  }

  lemma NothingOpened(docs: seq<string>)
    ensures Opened(docs, "") == docs
  {
  }

  lemma UnclosedToken(cur: string, docs: seq<Doc>, s: string)
    requires OpensAHeredoc(s) && NeverCloses(s[2..])
    ensures SplitFrom(Cuts([], cur), s, Words(docs)) == [cur + s] == ByteSplit(Bare, cur, docs, s)
  {
    hide *;
    assert |s| >= 2 by { HeredocStartsAt(s); }
    var n := WordStart(s[2..]);
    UnclosedRunsOut(s[2..]);
    UnclosedStarts(s[2..]);
    HeredocToken(cur, s, Words(docs));
    NothingOpened(Words(docs));
    var quoted := s[2 + n..];
    UnclosedSuffix(s[2..], n);
    assert s[2..][n..] == quoted;
    UnclosedIsText(quoted, Words(docs));
    TextToken(cur + s[..2 + n], docs, quoted);
    assert quoted[|quoted|..] == "" && quoted[..|quoted|] == quoted;
    assert s[..2 + n] + quoted == s;
    assert cur + s[..2 + n] + quoted == cur + s;
    EmptySplit(cur + s, Words(docs));
    HeredocOpens(cur, docs, s);
    assert s[2 + |s[2..]|..] == "" && s[..2 + |s[2..]|] == s;
    AtTheEnd(Bare, cur + s, docs + ShellHeredoc(s[2..]).0);
  }

  lemma HeredocStartsAt(s: string)
    requires OpensAHeredoc(s)
    ensures |s| >= 2
  {
  }

  lemma OpenedAll(docs: seq<Doc>, doc: seq<Doc>, word: string)
    requires Opened([], word) == Words(doc)
    ensures Opened(Words(docs), word) == Words(docs + doc)
  {
    hide Trim;
    assert Words(docs + doc) == Words(docs) + Words(doc);
  }

  predicate SplitsAlike(cur: string, docs: seq<Doc>, s: string) {
    SplitFrom(Cuts([], cur), s, Words(docs)) == ByteSplit(Bare, cur, docs, s)
  }

  lemma AlikeAfterHeredoc(cur: string, docs: seq<Doc>, s: string)
    requires OpensAHeredoc(s) && |s| >= 2 && WordAsWritten(s[2..])
    requires var n := ShellHeredoc(s[2..]).1; SplitsAlike(cur + s[..2 + n], docs + ShellHeredoc(s[2..]).0, s[2 + n..])
    ensures SplitsAlike(cur, docs, s)
  {
    hide SplitFrom, ByteSplit, Words, OpensAHeredoc, WordAsWritten, ShellHeredoc;
    assert var n := ShellHeredoc(s[2..]).1;
      SplitFrom(Cuts([], cur), s, Words(docs))
      == SplitFrom(Cuts([], cur + s[..2 + n]), s[2 + n..], Words(docs + ShellHeredoc(s[2..]).0)) by {
      hide *;
      HeredocStartsAt(s);
      assert
        && HeredocWord(s[2..]).1 == ShellHeredoc(s[2..]).1
        && Opened([], HeredocWord(s[2..]).0) == Words(ShellHeredoc(s[2..]).0) by {
        TerminatorReadAsWritten(s[2..]);
        hide HeredocWord, ShellHeredoc, Opened, Words, WordAsWritten;
      }
      HeredocToken(cur, s, Words(docs));
      OpenedAll(docs, ShellHeredoc(s[2..]).0, HeredocWord(s[2..]).0);
    }
    HeredocOpens(cur, docs, s);
  }

  lemma AlikeAfterLineEnd(cur: string, docs: seq<Doc>, s: string)
    requires s != "" && s[0] == '\n' && BodiesAsWritten(s[1..], docs)
    requires SplitsAlike("", [], s[1 + ShellBodiesLen(s[1..], docs)..])
    ensures SplitsAlike(cur, docs, s)
  {
    hide SplitFrom, ByteSplit, Words, ShellBodiesLen, BodiesLen, BodiesAsWritten;
    LineEndToken(Cuts([], cur), s, Words(docs));
    LineEndCuts(cur, docs, s);
    BodiesReadAsWritten(s[1..], docs);
    NothingCut(cur, s[1 + ShellBodiesLen(s[1..], docs)..]);
  }

  lemma AlikeAfterSeparator(cur: string, docs: seq<Doc>, s: string)
    requires ControlLen(s) > 0 && s[0] != '\n' && OperatorAsWritten(s) && SplitsAlike("", docs, s[ControlLen(s)..])
    ensures SplitsAlike(cur, docs, s)
  {
    hide SplitFrom, ByteSplit, Words, SeparatorLen, ControlLen, OperatorAsWritten, AsWritten;
    SeparatorCuts(cur, docs, s);
    SeparatorToken(Cuts([], cur), s, Words(docs));
    SplitAfter([cur], "", s[SeparatorLen(s)..], Words(docs));
    assert [] + [cur] == [cur];
  }

  lemma AlikeAfterRedirect(cur: string, docs: seq<Doc>, s: string)
    requires Redirects(s) && |s| > 1 && OperatorAsWritten(s) && SplitsAlike(cur + s[..2], docs, s[2..])
    ensures SplitsAlike(cur, docs, s)
  {
    assert SplitFrom(Cuts([], cur), s, Words(docs)) == SplitFrom(Cuts([], cur + s[..2]), s[2..], Words(docs)) by {
      hide SplitFrom;
      OneByte(cur, s, Words(docs));
      OneByte(cur + s[..1], s[1..], Words(docs));
      assert s[1..][1..] == s[2..] && cur + s[..1] + s[1..][..1] == cur + s[..2];
    }
    hide SplitFrom, ByteSplit, Words, OperatorAsWritten, AsWritten, Redirects;
    RedirectIsText(cur, docs, s);
  }

  lemma AlikeAfterText(cur: string, docs: seq<Doc>, s: string)
    requires s != "" && ControlLen(s) == 0 && !Redirects(s) && !OpensAHeredoc(s)
    requires var n := First(s, Words(docs)).size; SplitsAlike(cur + s[..n], docs, s[n..])
    ensures SplitsAlike(cur, docs, s)
  {
    hide SplitFrom, ByteSplit, Words, ControlLen, Redirects, First, OpensAHeredoc, AsWritten;
    TextToken(cur, docs, s);
  }

  lemma AlikeAtTheEnd(cur: string, docs: seq<Doc>, s: string)
    requires s == "" || (OpensAHeredoc(s) && |s| >= 2 && NeverCloses(s[2..]))
    ensures SplitsAlike(cur, docs, s)
  {
    hide SplitFrom, ByteSplit, Words, OpensAHeredoc, NeverCloses;
    if s == "" {
      EmptySplit(cur, Words(docs));
      AtTheEnd(Bare, cur, docs);
    } else {
      UnclosedToken(cur, docs, s);
    }
  }

  /** The splitter cuts a line where the shell does, and skips what the shell takes for the body of a
      heredoc, whenever each heredoc of the line is as written: its terminator (WordAsWritten, or a quote
      that never closes) and its body (BodyAsWritten), and so is each operator (OperatorAsWritten). */
  lemma {:induction false} SplitIsByteSplit(cur: string, docs: seq<Doc>, s: string)
    requires AsWritten(Bare, docs, s)
    ensures SplitsAlike(cur, docs, s)
    decreases |s|
  {
    hide *;
    if s == "" {
      AlikeAtTheEnd(cur, docs, s);
    } else if OpensAHeredoc(s) {
      HeredocStartsAt(s);
      if NeverCloses(s[2..]) {
        AlikeAtTheEnd(cur, docs, s);
      } else {
        var (doc, n) := ShellHeredoc(s[2..]);
        HeredocOpens(cur, docs, s);
        SplitIsByteSplit(cur + s[..2 + n], docs + doc, s[2 + n..]);
        AlikeAfterHeredoc(cur, docs, s);
      }
    } else if s[0] == '\n' {
      LineEndCuts(cur, docs, s);
      SplitIsByteSplit("", [], s[1 + ShellBodiesLen(s[1..], docs)..]);
      AlikeAfterLineEnd(cur, docs, s);
    } else if Redirects(s) {
      OperatorIsAsWritten(docs, s);
      RedirectIsText(cur, docs, s);
      TextGoesOn(cur, docs, s, 2);
      SplitIsByteSplit(cur + s[..2], docs, s[2..]);
      AlikeAfterRedirect(cur, docs, s);
    } else if ControlLen(s) > 0 {
      OperatorIsAsWritten(docs, s);
      SeparatorCuts(cur, docs, s);
      SplitIsByteSplit("", docs, s[ControlLen(s)..]);
      AlikeAfterSeparator(cur, docs, s);
    } else {
      var n := First(s, Words(docs)).size;
      TextToken(cur, docs, s);
      TextGoesOn(cur, docs, s, n);
      SplitIsByteSplit(cur + s[..n], docs, s[n..]);
      AlikeAfterText(cur, docs, s);
    }
  }

  lemma OperatorIsAsWritten(docs: seq<Doc>, s: string)
    requires AsWritten(Bare, docs, s) && s != "" && s[0] != '\n' && (Redirects(s) || ControlLen(s) > 0)
    requires !OpensAHeredoc(s)
    ensures OperatorAsWritten(s) && (Redirects(s) ==> |s| > 1)
  {
  }

  lemma TextGoesOn(cur: string, docs: seq<Doc>, s: string, n: nat)
    requires n <= |s| && WordIsText(cur, docs, s, n)
    ensures AsWritten(Bare, docs, s) == AsWritten(Bare, docs, s[n..])
  {
    hide ByteSplit, AsWritten;
  }

  lemma NothingCut(cur: string, rest: string)
    ensures Words([]) == []
    ensures SplitFrom(Cuts([] + [cur], ""), rest, []) == [cur] + SplitFrom(Cuts([], ""), rest, [])
  {
    hide SplitFrom;
    assert [] + [cur] == [cur];
    SplitAfter([cur], "", rest, []);
  }

  /** The whole command line. */
  lemma {:induction false} SplitsAsTheShell(command: string)
    requires AsWritten(Bare, [], command)
    ensures Split(command) == ByteSplit(Bare, "", [], command)
  {
    hide SplitFrom, ByteSplit, AsWritten;
    assert Words([]) == [];
    SplitIsByteSplit("", [], command);
  }

  /** Of the operators only ; | || and newlines, and no heredoc. */
  predicate Quiet(s: string) {
    && '&' !in s
    && forall i {:trigger s[i]} :: 0 <= i < |s| - 1 ==>
         !(s[i] == s[i + 1] == '<') && !(s[i] == s[i + 1] == ';') && !(s[i] == '>' && s[i + 1] == '|')
  }

  lemma QuietAfter(s: string, k: nat)
    requires Quiet(s) && k <= |s|
    ensures Quiet(s[k..]) && !Twice(s, '<') && OperatorAsWritten(s)
  {
    if |s| > 1 {
      assert s[0] == s[0] && s[0 + 1] == s[1];
      assert s[0] in s && s[1] in s;
    } else if |s| == 1 {
      assert s[0] in s;
    }
    forall i | 0 <= i < |s| - k - 1
      ensures var t := s[k..]; !(t[i] == t[i + 1] == '<') && !(t[i] == t[i + 1] == ';') && !(t[i] == '>' && t[i + 1] == '|')
    {
      assert s[k..][i] == s[k + i] && s[k..][i + 1] == s[k + i + 1];
    }
    assert forall c :: c in s[k..] ==> c in s;
  }

  lemma WithoutHeredoc(mode: Mode, s: string) returns (next: Mode, k: nat)
    requires s != "" && !Twice(s, '<') && OperatorAsWritten(s)
    ensures 0 < k <= |s| && AsWritten(mode, [], s) == AsWritten(next, [], s[k..])
  {
    if mode.Bare? && Redirects(s) {
      next, k := Bare, 2;
    } else if mode.Bare? && ControlLen(s) > 0 {
      next, k := Bare, ControlLen(s);
    } else {
      var (m, n) := ShellStep(mode, s, 0);
      next, k := m, n;
    }
  }

  /** A quiet line is as written, whatever its quotes and escapes. */
  lemma {:induction false} QuietIsAsWritten(mode: Mode, s: string)
    requires Quiet(s)
    ensures AsWritten(mode, [], s)
    decreases |s|
  {
    hide *;
    if s == "" {
      AtTheEnd(mode, "", []);
    } else {
      QuietAfter(s, 0);
      var next, k := WithoutHeredoc(mode, s);
      QuietAfter(s, k);
      QuietIsAsWritten(next, s[k..]);
    }
  }
}
