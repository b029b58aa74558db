/** internal/agent/verify.go: where the splitter does not cut a line where the shell does. */
module Misreadings {
  import opened Strings
  import opened Segments
  import opened ShellReading
  import opened SegmentLaws
  import opened HeredocLaws

  // ---- Operators.

  /** Text to both, whatever is around it. */
  predicate Clear(word: string) {
    SpecialFree(word) && '>' !in word
  }

  lemma {:induction false} ClearRun(cur: string, docs: seq<Doc>, word: string, rest: string)
    requires Clear(word)
    ensures ByteSplit(Bare, cur, docs, word + rest) == ByteSplit(Bare, cur + word, docs, rest)
    decreases |word|
  {
    hide ByteSplit;
    var s := word + rest;
    if word == "" {
      assert s == rest && cur + word == cur;
    } else {
      assert s[0] == word[0] && word[0] in word;
      TextByte(cur, docs, s);
      assert s[1..] == word[1..] + rest;
      assert forall c :: c in word[1..] ==> c in word;
      ClearRun(cur + s[..1], docs, word[1..], rest);
      assert cur + s[..1] + word[1..] == cur + word;
    }
  }

  lemma ClearText(cur: string, docs: seq<Doc>, word: string)
    requires Clear(word)
    ensures ByteSplit(Bare, cur, docs, word) == [cur + word]
    ensures forall words: seq<string> :: SplitFrom(Cuts([], cur), word, words) == [cur + word]
  {
    hide ByteSplit, SplitFrom;
    ClearRun(cur, docs, word, "");
    AtTheEnd(Bare, cur + word, docs);
    assert word + "" == word;
    forall words: seq<string> ensures SplitFrom(Cuts([], cur), word, words) == [cur + word] {
      PlainRun(Cuts([], cur), word, "", words);
      EmptySplit(cur + word, words);
    }
  }

  /** A redirection that may overwrite is cut in two. */
  lemma ClobberIsCut(a: string, b: string)
    requires Clear(a) && Clear(b)
    ensures Split(a + (">|" + b)) == [a + ">", b]
    ensures ByteSplit(Bare, "", [], a + (">|" + b)) == [a + ">|" + b]
  {
    assert SpecialFree(a + ">") && (b != "" ==> b[0] != '|') by {
      if b != "" {
        assert b[0] in b;
      }
    }
    hide *;
    var s, head, t := ">|" + b, a + ">", "|" + b;
    // The splitter.
    assert a + s == head + t && "" + head == head;
    NoneCut(a + s, b);
    PlainRun(Cuts([], ""), head, t, []);
    CutsInTwo([], head, "|", b);
    ClearText("", [], b);
    assert [] + [head] + [b] == [head, b] && "" + b == b;
    // The shell.
    ClearRun("", [], a, s);
    assert "" + a == a;
    ClobberRedirects(a, b);
    ClearText(a + ">|", [], b);
  }

  lemma ClobberRedirects(cur: string, b: string)
    ensures ByteSplit(Bare, cur, [], ">|" + b) == ByteSplit(Bare, cur + ">|", [], b)
  {
    var s := ">|" + b;
    assert s[0] == '>' && s[1] == '|' && s[..2] == ">|" && s[2..] == b;
  }

  /** A single separator, then text. */
  lemma CutsInTwo(segs: seq<string>, cur: string, sep: string, b: string)
    requires (sep == "|" || sep == ";") && (b == "" || b[0] != sep[0])
    ensures SplitFrom(Cuts(segs, cur), sep + b, []) == segs + [cur] + SplitFrom(Cuts([], ""), b, [])
  {
    hide SplitFrom;
    var s := sep + b;
    assert s[0] == sep[0] && s[1..] == b && SeparatorLen(s) == 1;
    SeparatorToken(Cuts(segs, cur), s, []);
    SplitAfter(segs + [cur], "", b, []);
  }

  /** Two commands one of which runs in the background are one segment. */
  lemma BackgroundIsNotCut(a: string, b: string)
    requires Clear(a) && Clear(b)
    ensures Split(a + ("&" + b)) == [a + "&" + b]
    ensures ByteSplit(Bare, "", [], a + ("&" + b)) == [a, b]
  {
    hide ByteSplit, SplitFrom;
    var s := "&" + b;
    if b != "" {
      assert b[0] in b;
    }
    assert s[0] == '&' && s[..1] == "&" && s[1..] == b && !Twice(s, '&') && !Twice(s, '<');
    // The splitter.
    NoneCut(a + s, b);
    PlainRun(Cuts([], ""), a, s, []);
    assert "" + a == a;
    OneByte(a, s, []);
    ClearText(a + "&", [], b);
    // The shell.
    ClearRun("", [], a, s);
    assert ByteSplit(Bare, a, [], s) == [a] + ByteSplit(Bare, "", [], b) by { BackgroundEnds(a, b); }
    ClearText("", [], b);
    assert "" + b == b;
  }

  lemma BackgroundEnds(cur: string, b: string)
    requires b == "" || b[0] != '&'
    ensures ByteSplit(Bare, cur, [], "&" + b) == [cur] + ByteSplit(Bare, "", [], b)
  {
    var s := "&" + b;
    assert s[0] == '&' && s[1..] == b && ControlLen(s) == 1;
  }

  /** The end of a case clause is cut twice. */
  lemma CaseEndIsCutTwice(a: string, b: string)
    requires Clear(a) && Clear(b)
    ensures Split(a + (";;" + b)) == [a, "", b]
    ensures ByteSplit(Bare, "", [], a + (";;" + b)) == [a, b]
  {
    hide ByteSplit, SplitFrom;
    var s := ";;" + b;
    if b != "" {
      assert b[0] in b;
    }
    // The splitter.
    NoneCut(a + s, b);
    PlainRun(Cuts([], ""), a, s, []);
    assert "" + a == a;
    assert s[0] == ';' && s[1..] == ";" + b && SeparatorLen(s) == 1;
    SeparatorToken(Cuts([], a), s, []);
    assert [] + [a] == [a];
    CutsInTwo([a], "", ";", b);
    ClearText("", [], b);
    assert [a] + [""] + [b] == [a, "", b];
    // The shell.
    ClearRun("", [], a, s);
    assert ByteSplit(Bare, a, [], s) == [a] + ByteSplit(Bare, "", [], b) by { CaseEnds(a, b); }
    assert "" + b == b;
  }

  lemma CaseEnds(cur: string, b: string)
    ensures ByteSplit(Bare, cur, [], ";;" + b) == [cur] + ByteSplit(Bare, "", [], b)
  {
    var s := ";;" + b;
    assert s[0] == ';' && s[1] == ';' && s[2..] == b && ControlLen(s) == 2;
  }

  // ---- Heredocs.

  /** Whatever quotes and backslashes a bare terminator holds, the splitter ends it at the first separator,
      and cuts there. */
  lemma CutsAfterTheWord(word: string, rest: string)
    requires word != "" && word[0] !in {'\'', '"', ' ', '\t', '-'} && forall c :: c in word ==> c !in WORD_ENDS
    ensures Split("<<" + word + (";" + rest)) == ["<<" + word] + SplitFrom(Cuts([], ""), rest, Opened([], word))
  {
    hide *;
    var head, t, docs := "<<" + word, ";" + rest, Opened([], word);
    assert SplitFrom(Cuts([], ""), "<<" + word + (";" + rest), [])
         == SplitFrom(Cuts([], "<<" + word), ";" + rest, Opened([], word)) by {
      hide *;
      var head, t := "<<" + word, ";" + rest;
      var s := head + t;
      SemicolonIs(rest);
      BareStart(word, t);
      assert word[0] in word;
      NotLess(word, t);
      assert s[2..] == word + t && s[..|head|] == head && s[|head|..] == t && "" + head == head;
      HeredocToken("", s, []);
    }
    SemicolonIs(rest);
    NoneCut(head + t, "");
    assert t[0] == ';' && t[1..] == rest && [] + [head] == [head];
    SeparatorToken(Cuts([], head), t, docs);
    SplitAfter([head], "", rest, docs);
  }

  lemma BareStart(word: string, t: string)
    requires word != "" && word[0] !in {'\'', '"', ' ', '\t', '-'} && forall c :: c in word ==> c !in WORD_ENDS
    requires t != "" && t[0] in WORD_ENDS && AllBlanks("")
    ensures HeredocWord(word + t) == (word, |word|)
  {
    hide *;
    var s := word + t;
    assert s[0] == word[0];
    WordStartsAt(false, "", s);
    assert "" + "" + s == s && s[0..] == s;
    BareOpener(word, t, s, 0);
  }

  lemma SemicolonIs(rest: string)
    ensures SeparatorLen(";" + rest) == 1 && (";" + rest)[0] in WORD_ENDS
    ensures AllBlanks("")
  {
  }

  lemma NotLess(word: string, t: string)
    requires word != "" && word[0] !in WORD_ENDS
    ensures OpensAHeredoc("<<" + word + t)
  {
    assert ("<<" + word + t)[2] == word[0];
  }

  /** A word that takes the whole text is one segment for the shell. */
  lemma {:induction false} OneSegment(t: string)
    requires t != "" && t[0] !in WORD_ENDS && ShellHeredoc(t).1 == |t|
    ensures ByteSplit(Bare, "", [], "<<" + t) == ["<<" + t]
  {
    hide *;
    var s := "<<" + t;
    NotLess(t, "");
    assert "<<" + t + "" == s;
    assert s[2..] == t;
    HeredocOpens("", [], s);
    assert s[..2 + |t|] == s && s[2 + |t|..] == "" && "" + s == s;
    AtTheEnd(Bare, s, [] + ShellHeredoc(t).0);
  }

  /** The two splitters of a command line give these. */
  predicate CutApart(command: string, segs: seq<string>, shell: seq<string>) {
    Split(command) == segs && ByteSplit(Bare, "", [], command) == shell
  }

  /** A word ends where it ends after one more step. */
  lemma EndsAsNext(mode: Mode, s: string, n: nat)
    requires n < |s| && !(mode.Bare? && s[n] in WORD_ENDS)
    ensures var (next, k) := ShellStep(mode, s, n); ShellWord(mode, s, n).end == ShellWord(next, s, k).end
  {
    StepOfWord(mode, s, n);
    hide ShellWord, ShellStep, StepText;
  }

  lemma HeredocEnds(s: string)
    requires s != "" && s[0] !in {' ', '\t', '-'}
    ensures ShellHeredoc(s).1 == ShellWord(Bare, s, 0).end
  {
    hide ShellWord, Trim;
  }

  lemma {:induction false} EscapedWord()
    ensures ShellHeredoc("a\\;b").1 == 4
  {
    hide ShellWord, ShellHeredoc;
    var t := "a\\;b";
    assert |t| == 4 && t[0] == 'a' && t[1] == '\\' && t[3] == 'b';
    HeredocEnds(t);
    EndsAsNext(Bare, t, 0);
    EndsAsNext(Bare, t, 1);
    EndsAsNext(Bare, t, 3);
    EmptyWord(t, 4);
  }

  /** A separator the shell reads as part of the terminator, since a backslash escapes it, is cut at. */
  lemma EscapedSeparatorIsCut()
    ensures CutApart("<<a\\;b", ["<<a\\", "b"], ["<<a\\;b"])
  {
    hide SplitFrom, ByteSplit, Opened, ShellHeredoc, Split;
    assert forall c :: c in "a\\" ==> c == 'a' || c == '\\';
    CutsAfterTheWord("a\\", "b");
    assert "<<" + "a\\" + (";" + "b") == "<<a\\;b";
    assert SplitFrom(Cuts([], ""), ("b"), Opened([], "a\\")) == [("b")] by {
      hide SplitFrom, SpecialFree;
      PlainRun(Cuts([], ""), ("b"), "", Opened([], "a\\"));
      assert ("b") + "" == ("b") && "" + ("b") == ("b");
      EmptySplit(("b"), Opened([], "a\\"));
    }
    EscapedWord();
    OneSegment("a\\;b");
    assert "<<" + "a\\" == "<<a\\" && "<<" + "a\\;b" == "<<a\\;b";
    assert ["<<a\\"] + ["b"] == ["<<a\\", "b"];
  }

  lemma QuoteTail(docs: seq<string>)
    ensures SplitFrom(Cuts([], ""), "G'", docs) == ["G'"]
  {
    hide SplitFrom;
    var g, q := "G", "'";
    PlainRun(Cuts([], ""), g, q, docs);
    assert g + q == "G'" && "" + g == g;
    SplitStep(Cuts([], g), q, docs);
    assert First("'", docs) == Token([Segments.Quoted("'")], 1, docs) by {
      var q := "'";
      assert ByteFrom(q, '\'', 1) == |q| == 1;
      assert SingleEnd(q) == 1 && q[..1] == q;
    }
    TakeOne(Cuts([], g), Segments.Quoted(q));
    assert q[1..] == "" && Take(Cuts([], g), Segments.Quoted(q)) == Cuts([], g + q);
    EmptySplit(g + q, docs);
  }

  /** So is one inside the quotes of a terminator that starts without one. */
  lemma QuotedSeparatorIsCut()
    ensures CutApart("<<E'F;G'", ["<<E'F", "G'"], ["<<E'F;G'"])
  {
    hide SplitFrom, ByteSplit, Opened, ShellHeredoc, Split;
    CutsAfterTheWord("E'F", "G'");
    assert "<<" + "E'F" + (";" + "G'") == "<<E'F;G'";
    QuoteTail(Opened([], "E'F"));
    assert ShellHeredoc("E'F;G'").1 == 6 by {
      hide ShellWord, ShellHeredoc;
      var t := "E'F;G'";
      assert |t| == 6 && t[0] == 'E' && t[1] == '\'' && t[2] == 'F' && t[3] == ';' && t[4] == 'G' && t[5] == '\'';
      HeredocEnds(t);
      EndsAsNext(Bare, t, 0);
      EndsAsNext(Bare, t, 1);
      EndsAsNext(InSingle, t, 2);
      EndsAsNext(InSingle, t, 3);
      EndsAsNext(InSingle, t, 4);
      EndsAsNext(InSingle, t, 5);
      EmptyWord(t, 6);
    }
    OneSegment("E'F;G'");
    assert "<<" + "E'F" == "<<E'F" && "<<" + "E'F;G'" == "<<E'F;G'";
    assert ["<<E'F"] + ["G'"] == ["<<E'F", "G'"];
  }

  lemma ShellTakesTheWord(word: string, rest: string)
    requires word != "" && word[0] !in {'\'', '"', ' ', '\t', '-'} && Trim(word, DIGITS) != ""
    requires forall c :: c in word ==> c !in WORD_ENDS && c != '\'' && c != '"' && c != '\\'
    ensures ShellHeredoc(word + ("\n" + rest)) == ([Doc(word, false)], |word|)
  {
    var t, n := word + ("\n" + rest), |word|;
    NewlineEnds(rest);
    assert WordStart(t) == 0 && WordEnd(t, 0) == |word| by {
      hide WORD_ENDS;
      assert t[|word|] == ("\n" + rest)[0] && t[0] == word[0];
      forall i | 0 <= i < |word| ensures t[i] !in WORD_ENDS {
        assert t[i] == word[i] && word[i] in word;
      }
      WordEndIs(t, 0, |word|);
    }
    hide *;
    assert forall i :: 0 <= i < n ==> t[i] == word[i] && t[i] in word;
    PlainWord(t, n);
    BareIsItself(t, 0);
    assert t[0..n] == word;
  }

  lemma NewlineEnds(rest: string)
    ensures ("\n" + rest)[0] in WORD_ENDS && AllBlanks("")
  {
  }

  lemma PlainWord(t: string, n: nat)
    requires n <= |t| && forall i :: 0 <= i < n ==> t[i] != '\'' && t[i] != '"' && t[i] != '\\'
    ensures PlainBetween(t, 0, n)
  {
  }

  lemma {:induction false} TabsAreTrimmed(tabs: string, word: string)
    requires (forall i :: 0 <= i < |tabs| ==> tabs[i] == '\t') && word != "" && word[0] != '\t'
    ensures TrimLeft(tabs + word, {'\t'}) == word
  {
    hide TrimLeft;
    var s := tabs + word;
    TrimOne(s);
    if tabs == "" {
      assert s == word;
    } else {
      assert s[0] == tabs[0] && s[1..] == tabs[1..] + word;
      TabsAreTrimmed(tabs[1..], word);
    }
  }

  lemma TrimOne(s: string)
    requires s != ""
    ensures TrimLeft(s, {'\t'}) == if s[0] == '\t' then TrimLeft(s[1..], {'\t'}) else s
  {
  }

  /** The line tabs + word is the terminator for the splitter, and not for the shell. */
  lemma IndentedLine(tabs: string, word: string, rest: string)
    requires tabs != "" && (forall i :: 0 <= i < |tabs| ==> tabs[i] == '\t') && word != "" && word[0] != '\t' && '\n' !in word
    ensures var t := tabs + word + ("\n" + rest);
      && BodyLen(t, word) == |tabs| + |word| + 1 && t[|tabs| + |word| + 1..] == rest
      && ShellBodyLen(t, Doc(word, false)) == |tabs| + |word| + 1 + ShellBodyLen(rest, Doc(word, false))
  {
    var line := tabs + word;
    var t, doc := line + ("\n" + rest), Doc(word, false);
    assert '\n' !in line;
    assert
      && LineOf(line + ("\n" + rest)) == (line, |line| + 1)
      && (line + ("\n" + rest))[|line| + 1..] == rest by {
      var s := line + ("\n" + rest);
      assert s[|line|] == '\n';
      assert forall j :: 0 <= j < |line| ==> s[j] == line[j];
      assert s[..|line|] == line;
    }
    hide *;
    TabsAreTrimmed(tabs, word);
    BodyOfLine(t, word);
    assert |line| > |word|;
    assert !Terminates(line, doc);
  }

  lemma {:induction false} SplitterSkips(word: string, body: string)
    requires word != "" && word[0] !in {' ', '-'} && Trim(word, DIGITS) != ""
    requires forall c :: c in word ==> c !in WORD_ENDS && c != '\'' && c != '"' && c != '\\'
    ensures Split("<<" + word + ("\n" + body)) == ["<<" + word] + Split(body[BodyLen(body, word)..])
  {
    hide *;
    var head, t, n := "<<" + word, "\n" + body, BodyLen(body, word);
    assert SplitFrom(Cuts([], ""), "<<" + word + ("\n" + body), [])
         == SplitFrom(Cuts([], "<<" + word), "\n" + body, [word]) by {
      hide *;
      var head, t := "<<" + word, "\n" + body;
      var s := head + t;
      WordIsALine(word);
      NotLess(word, t);
      assert HeredocWord(word + ("\n" + body)) == (word, |word|) && Opened([], word) == [word] by {
        hide *;
        NewlineEnds(body);
        BareStart(word, "\n" + body);
        OpenedOne(word);
      }
      assert s[2..] == word + t && s[..|head|] == head && s[|head|..] == t && "" + head == head;
      HeredocToken("", s, []);
    }
    NoneCut(head + t, body[n..]);
    assert t[0] == '\n' && t[1..] == body && [] + [head] == [head];
    LineEndToken(Cuts([], head), t, [word]);
    OneBodyOnly(body, word, Doc(word, false));
    assert t[1 + n..] == body[n..];
    SplitAfter([head], "", body[n..], []);
  }

  lemma ShellSkips(word: string, body: string)
    requires word != "" && word[0] !in {' ', '-'} && Trim(word, DIGITS) != ""
    requires forall c :: c in word ==> c !in WORD_ENDS && c != '\'' && c != '"' && c != '\\'
    ensures ByteSplit(Bare, "", [], "<<" + word + ("\n" + body))
         == ["<<" + word] + ByteSplit(Bare, "", [], body[ShellBodyLen(body, Doc(word, false))..])
  {
    hide *;
    var head, t, doc := "<<" + word, "\n" + body, Doc(word, false);
    var s, m := head + t, ShellBodyLen(body, doc);
    WordIsALine(word);
    NotLess(word, t);
    ShellTakesTheWord(word, body);
    assert s[2..] == word + t && s[..|head|] == head && s[|head|..] == t && "" + head == head;
    HeredocOpens("", [], s);
    assert [] + [doc] == [doc];
    assert t[0] == '\n' && t[1..] == body;
    LineEndCuts(head, [doc], t);
    OneBodyOnly(body, word, doc);
    assert t[1 + m..] == body[m..];
  }

  /** A heredoc opened by << is over, for the splitter, at its terminator with tabs before it. The shell
      reads on to the line that is the terminator as it stands: what the splitter takes for commands are
      lines of the body. */
  lemma IndentedTerminatorEnds(word: string, tabs: string, rest: string)
    requires word != "" && word[0] !in {' ', '-'} && Trim(word, DIGITS) != ""
    requires forall c :: c in word ==> c !in WORD_ENDS && c != '\'' && c != '"' && c != '\\'
    requires tabs != "" && forall i :: 0 <= i < |tabs| ==> tabs[i] == '\t'
    ensures var s := "<<" + word + ("\n" + (tabs + word + ("\n" + rest)));
      && Split(s) == ["<<" + word] + Split(rest)
      && ByteSplit(Bare, "", [], s)
         == ["<<" + word] + ByteSplit(Bare, "", [], rest[ShellBodyLen(rest, Doc(word, false))..])
  {
    hide *;
    var body, doc := tabs + word + ("\n" + rest), Doc(word, false);
    WordIsALine(word);
    IndentedLine(tabs, word, rest);
    SplitterSkips(word, body);
    ShellSkips(word, body);
    var n, m := |tabs| + |word| + 1, ShellBodyLen(rest, doc);
    assert body[n + m..] == body[n..][m..];
  }

  lemma WordIsALine(word: string)
    requires word != "" && forall c :: c in word ==> c !in WORD_ENDS && c != '\'' && c != '"' && c != '\\'
    ensures '\n' !in word && word[0] !in {'\t', '\'', '"'} && word[0] !in WORD_ENDS
    ensures forall c :: c in word ==> c !in WORD_ENDS
  {
    assert word[0] in word;
    assert '\n' in WORD_ENDS && '\t' in WORD_ENDS;
  }

  lemma OneBodyOnly(body: string, word: string, doc: Doc)
    ensures BodiesLen(body, [word]) == BodyLen(body, word)
    ensures ShellBodiesLen(body, [doc]) == ShellBodyLen(body, doc)
  {
    hide BodyLen, ShellBodyLen;
    assert [word][1..] == [] && [doc][1..] == [];
  }

  lemma QuotedAtStart(word: string, t: string)
    requires '\'' !in word && t != "" && t[0] in WORD_ENDS && AllBlanks("")
    ensures var s, e := "'" + (word + ("'" + t)), 1 + |word|;
      && WordStart(s) == 0 && s[0] == '\'' && s[1..e] == word && s[e + 1] in WORD_ENDS
      && ByteFrom(s, '\'', 1) == e
  {
    hide *;
    var s, e := "'" + (word + ("'" + t)), 1 + |word|;
    WordStartsAt(false, "", s);
    assert "" + "" + s == s;
    assert s[e] == '\'' && s[e + 1] == t[0];
    assert s[1..e] == word;
    forall j | 1 <= j < e ensures s[j] != '\'' {
      assert s[j] == word[j - 1];
    }
    QuoteIsAt(s, '\'', 1, e);
  }

  /** A quoted number is a terminator to the shell, and nothing to the splitter. */
  lemma QuotedNumberOpensNothing(n: string, rest: string)
    requires n != "" && (forall c :: c in n ==> c in DIGITS)
    ensures Opened([], HeredocWord("'" + (n + ("'" + ("\n" + rest)))).0) == []
    ensures ShellHeredoc("'" + (n + ("'" + ("\n" + rest)))).0 == [Doc(n, false)]
  {
    hide *;
    var s, e := "'" + (n + ("'" + ("\n" + rest))), 1 + |n|;
    NoDigit('\'');
    NewlineEnds(rest);
    QuotedAtStart(n, "\n" + rest);
    QuotedWordIs(s, 0, e);
    AllDigits(n);
    OpensQuoted(s);
    SingleIsItself(s, 1);
    EmptyWord(s, e + 1);
    BeforeMeans(n, ShellWord(Bare, s, e + 1));
    QuotedIsNoNumber(s, 0, e + 1);
    NumberIsADoc(s, n, e + 1);
  }

  lemma {:induction false} AllDigits(n: string)
    requires forall c :: c in n ==> c in DIGITS
    ensures Opened([], n) == []
  {
  }

  lemma NumberIsADoc(s: string, n: string, end: nat)
    requires WordStart(s) == 0 && end <= |s| && s != "" && s[0] == '\''
    requires ShellWord(Bare, s, 0) == Word(n, end, true) && Trim(s[0..end], DIGITS) != ""
    ensures ShellHeredoc(s).0 == [Doc(n, false)]
  {
    hide ShellWord, Trim, WordStart;
  }
}
