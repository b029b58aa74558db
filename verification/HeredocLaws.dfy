/** internal/agent/verify.go: the body of a heredoc is data, and where the splitter takes one for
    another. */
module HeredocLaws {
  import opened Strings
  import opened Segments
  import opened ShellReading
  import opened SegmentLaws

  // ---- Where a text can be cut in two.

  /** Byte k of s starts a token: it is in no quotes, not escaped, not inside an operator and not in the
      body of a heredoc. */
  predicate Between(s: string, docs: seq<string>, k: nat)
    requires k <= |s|
    decreases |s|
  {
    k == 0 ||
    var t := First(s, docs);
    t.size <= k && Between(s[t.size..], t.docs, k - t.size)
  }

  lemma BetweenMeans(s: string, docs: seq<string>, k: nat)
    requires 0 < k <= |s| && Between(s, docs, k)
    ensures var t := First(s, docs); t.size <= k && Between(s[t.size..], t.docs, k - t.size)
  {
    hide First;
  }

  /** What is cut there, and the heredocs open. */
  function At(c: Cuts, s: string, docs: seq<string>, k: nat): (Cuts, seq<string>)
    requires k <= |s| && Between(s, docs, k)
    decreases |s|
  {
    hide First, Between;
    if k == 0 then (c, docs)
    else
      BetweenMeans(s, docs, k);
      var t := First(s, docs);
      At(TakeAll(c, t.pieces), s[t.size..], t.docs, k - t.size)
  }

  function OpenAt(s: string, k: nat): seq<string>
    requires k <= |s| && Between(s, [], k)
  {
    At(Cuts([], ""), s, [], k).1
  }

  /** The splitter goes on from there with what is cut so far and what is open. */
  lemma {:induction false} SplitsAt(c: Cuts, s: string, docs: seq<string>, k: nat)
    requires k <= |s| && Between(s, docs, k)
    ensures var (cuts, open) := At(c, s, docs, k); SplitFrom(c, s, docs) == SplitFrom(cuts, s[k..], open)
    decreases |s|
  {
    hide First, TakeAll, SplitFrom, Between;
    if k == 0 {
      assert s[0..] == s;
    } else {
      var t := First(s, docs);
      BetweenMeans(s, docs, k);
      SplitStep(c, s, docs);
      SplitsAt(TakeAll(c, t.pieces), s[t.size..], t.docs, k - t.size);
      assert s[t.size..][k - t.size..] == s[k..];
    }
  }

  // ---- What comes before a newline is read the same without what comes after.

  lemma {:induction false} DoubleCloseLocal(s: string, j: nat, k: nat)
    requires DoubleClose(s, j) < k <= |s|
    ensures DoubleClose(s[..k], j) == DoubleClose(s, j)
    decreases |s| - j
  {
    if j < k && s[j] != '"' {
      DoubleCloseLocal(s, j + if s[j] == '\\' then 2 else 1, k);
    }
  }

  lemma {:induction false} SkipBlanksLocal(s: string, n: nat, k: nat)
    requires n <= k < |s| && s[k] == '\n'
    ensures SkipBlanks(s[..k], n) == SkipBlanks(s, n) <= k
    decreases k - n
  {
    if n < k && (s[n] == ' ' || s[n] == '\t') {
      SkipBlanksLocal(s, n + 1, k);
    }
  }

  lemma {:induction false} WordEndLocal(s: string, n: nat, k: nat)
    requires n <= k < |s| && s[k] == '\n'
    ensures WordEnd(s[..k], n) == WordEnd(s, n) <= k
    decreases k - n
  {
    assert '\n' in WORD_ENDS;
    if n < k && s[n] !in WORD_ENDS {
      WordEndLocal(s, n + 1, k);
    }
  }

  lemma TerminatorLocal(s: string, k: nat)
    requires k < |s| && s[k] == '\n' && !NeverCloses(s) && HeredocWord(s).1 <= k
    ensures HeredocWord(s[..k]) == HeredocWord(s)
  {
    assert WordStart(s[..k]) == WordStart(s) <= k by {
      hide SkipBlanks;
      SkipBlanksLocal(s, if Dash(s) then 1 else 0, k);
    }
    hide *;
    if StartsQuoted(s) {
      var n, e := QuoteClosesAt(s);
      QuotedWordIs(s, n, e);
      QuotedTerminator(s, n, e, k);
    } else {
      assert !StartsQuoted(s[..k]) && HeredocWord(s[..k]) == HeredocWord(s) by {
        HeredocWordIs(s);
        HeredocWordIs(s[..k]);
        hide HeredocWord, SkipBlanks, WordEnd, ByteFrom, WordStart;
        var n := WordStart(s);
        WordEndLocal(s, n, k);
        assert s[..k][n..WordEnd(s, n)] == s[n..WordEnd(s, n)];
      }
    }
  }

  lemma QuoteClosesAt(s: string) returns (n: nat, e: nat)
    requires StartsQuoted(s) && !NeverCloses(s)
    ensures n == WordStart(s) && n < e < |s| && (s[n] == '\'' || s[n] == '"') && e == ByteFrom(s, s[n], n + 1)
  {
    hide WordStart, ByteFrom;
    n := WordStart(s);
    e := ByteFrom(s, s[n], n + 1);
  }

  lemma QuotedTerminator(s: string, n: nat, e: nat, k: nat)
    requires n < e < k < |s| && (s[n] == '\'' || s[n] == '"') && e == ByteFrom(s, s[n], n + 1)
    requires n == WordStart(s[..k]) == WordStart(s)
    ensures HeredocWord(s[..k]) == HeredocWord(s)
  {
    hide *;
    QuotedWordIs(s, n, e);
    QuotedWordIs(s[..k], n, e);
    assert s[..k][n + 1..e] == s[n + 1..e];
  }

  lemma LineLocal(s: string, k: nat)
    requires s != "" && LineOf(s).1 <= k < |s|
    ensures LineOf(s[..k]) == LineOf(s)
  {
    var e := ByteFrom(s, '\n', 0);
    assert s[..k][..e] == s[..e];
  }

  lemma {:induction false} BodyLocal(s: string, word: string, k: nat)
    requires BodyLen(s, word) <= k < |s|
    ensures BodyLen(s[..k], word) == BodyLen(s, word)
    decreases |s|
  {
    hide *;
    var (line, n) := LineOf(s);
    BodyOfLine(s, word);
    LineLocal(s, k);
    BodyOfLine(s[..k], word);
    if TrimLeft(line, {'\t'}) != word {
      BodyLocal(s[n..], word, k - n);
      assert s[..k][n..] == s[n..][..k - n];
    }
  }

  lemma {:induction false} BodiesLocal(s: string, docs: seq<string>, k: nat)
    requires BodiesLen(s, docs) <= k < |s|
    ensures BodiesLen(s[..k], docs) == BodiesLen(s, docs)
    decreases |docs|
  {
    hide BodyLen;
    if docs != [] {
      var n := BodyLen(s, docs[0]);
      BodyLocal(s, docs[0], k);
      BodiesLocal(s[n..], docs[1..], k - n);
      assert s[..k][n..] == s[n..][..k - n];
    }
  }

  /** A token before a newline is the same token with nothing after it. */
  lemma QuotedLocal(s: string, docs: seq<string>, k: nat)
    requires 0 < k < |s| && First(s, docs).size <= k && (s[0] == '\'' || s[0] == '"')
    ensures First(s[..k], docs) == First(s, docs)
  {
    hide HeredocWord, BodiesLen, Opened, ByteFrom, DoubleClose;
    var n := First(s, docs).size;
    if s[0] == '\'' {
    } else {
      DoubleCloseLocal(s, 1, k);
    }
    assert s[..k][..n] == s[..n];
  }

  lemma OpensLocal(s: string, k: nat)
    requires OpensAHeredoc(s) && 2 <= k < |s|
    ensures OpensAHeredoc(s[..k]) && s[..k][2..] == s[2..][..k - 2]
  {
    assert k > 2 ==> s[..k][2] == s[2];
  }

  lemma {:induction false} LineEndLocal(s: string, docs: seq<string>, k: nat)
    requires 0 < k < |s| && First(s, docs).size <= k && s[0] == '\n'
    ensures First(s[..k], docs) == First(s, docs)
  {
    hide *;
    LineEndIs(s, docs);
    LineEndIs(s[..k], docs);
    var n := BodiesLen(s[1..], docs);
    assert s[..k][1..] == s[1..][..k - 1];
    BodiesLocal(s[1..], docs, k - 1);
    assert s[..k][..1] == s[..1] && s[..k][1..1 + n] == s[1..1 + n];
  }

  lemma OtherLocal(s: string, docs: seq<string>, k: nat)
    requires 0 < k < |s| && s[k] == '\n' && First(s, docs).size <= k
    requires s[0] != '\'' && s[0] != '"' && s[0] != '\n' && !OpensAHeredoc(s)
    ensures First(s[..k], docs) == First(s, docs)
  {
    hide HeredocWord, BodiesLen, Opened, SingleEnd, DoubleEnd;
    var n := First(s, docs).size;
    assert s[..k][..n] == s[..n];
    assert k > 1 ==> s[..k][1] == s[1];
    assert k > 2 ==> s[..k][2] == s[2];
  }

  lemma FirstLocal(s: string, docs: seq<string>, k: nat)
    requires 0 < k < |s| && s[k] == '\n' && First(s, docs).size <= k
    requires OpensAHeredoc(s) ==> |s| >= 2 && !NeverCloses(s[2..])
    ensures First(s[..k], docs) == First(s, docs)
  {
    hide First, OpensAHeredoc, NeverCloses;
    if s[0] == '\'' || s[0] == '"' {
      QuotedLocal(s, docs, k);
    } else if s[0] == '\n' {
      LineEndLocal(s, docs, k);
    } else if OpensAHeredoc(s) {
      assert First(s[..k], docs) == First(s, docs) by {
        hide *;
        HeredocIs(s, docs);
        var n := HeredocWord(s[2..]).1;
        OpensLocal(s, k);
        HeredocIs(s[..k], docs);
        TerminatorLocal(s[2..], k - 2);
        assert s[..k][..2 + n] == s[..2 + n];
      }
    } else {
      OtherLocal(s, docs, k);
    }
  }

  /** A quote that opens a terminator and never closes takes everything, newlines included. */
  lemma ClosesBefore(s: string, docs: seq<string>, k: nat)
    requires k < |s| && s[k] == '\n' && Between(s, docs, k) && k > 0 && OpensAHeredoc(s)
    ensures |s| >= 2 && !NeverCloses(s[2..])
  {
    hide *;
    HeredocStartsAt(s);
    if NeverCloses(s[2..]) {
      var n := WordStart(s[2..]);
      UnclosedRunsOut(s[2..]);
      UnclosedStarts(s[2..]);
      HeredocIs(s, docs);
      NothingOpened(docs);
      var quoted := s[2 + n..];
      UnclosedSuffix(s[2..], n);
      assert s[2..][n..] == quoted;
      UnclosedIsText(quoted, docs);
      BetweenMeans(s, docs, k);
      assert k != 2 + n;
      BetweenMeans(quoted, docs, k - 2 - n);
    }
  }

  lemma {:induction false} HeadLocal(c: Cuts, s: string, docs: seq<string>, k: nat)
    requires k < |s| && s[k] == '\n' && Between(s, docs, k)
    ensures Between(s[..k], docs, k)
    ensures At(c, s[..k], docs, k) == At(c, s, docs, k)
    decreases |s|
  {
    hide First, OpensAHeredoc, NeverCloses, TakeAll;
    if k > 0 {
      var t := First(s, docs);
      if OpensAHeredoc(s) {
        ClosesBefore(s, docs, k);
      }
      BetweenMeans(s, docs, k);
      FirstLocal(s, docs, k);
      HeadLocal(TakeAll(c, t.pieces), s[t.size..], t.docs, k - t.size);
      assert s[..k][t.size..] == s[t.size..][..k - t.size];
    }
  }

  // ---- The bodies.

  /** b is the body of a heredoc: its only line that is the terminator, tabs aside, is its last, and it
      goes on to the end of the text when it has none. */
  predicate IsBody(b: string, word: string, more: bool) {
    if b == "" then !more
    else
      var (line, n) := LineOf(b);
      if TrimLeft(line, {'\t'}) == word || n == |line| then n == |b| && (more ==> n > |line|)
      else IsBody(b[n..], word, more)
  }

  predicate AreBodies(bodies: seq<string>, docs: seq<string>, tail: string) {
    && |bodies| == |docs|
    && (docs == [] ||
        (IsBody(bodies[0], docs[0], Concat(bodies[1..]) + tail != "") && AreBodies(bodies[1..], docs[1..], tail)))
  }

  /** A line that ends with its newline is the line whatever follows. */
  lemma LineThen(b: string, rest: string)
    requires b != "" && (LineOf(b).1 > |LineOf(b).0| || rest == "")
    ensures LineOf(b + rest) == LineOf(b)
  {
    if rest == "" {
      assert b + rest == b;
    } else {
      var s, n := b + rest, LineOf(b).1;
      var e := ByteFrom(b, '\n', 0);
      assert s[e] == b[e] == '\n';
      assert forall j :: 0 <= j < e ==> s[j] == b[j];
      assert s[..e] == b[..e];
    }
  }

  lemma {:induction false} BodyIsRead(b: string, word: string, rest: string)
    requires IsBody(b, word, rest != "")
    ensures BodyLen(b + rest, word) == |b|
    decreases |b|
  {
    hide LineOf, TrimLeft, BodyLen;
    if b == "" {
      assert b + rest == "";
    } else {
      var (line, n) := LineOf(b);
      LineIsShorter(b);
      LineThen(b, rest);
      BodyOfLine(b + rest, word);
      if TrimLeft(line, {'\t'}) == word {
      } else if n == |line| {
        assert (b + rest)[n..] == "";
      } else {
        assert (b + rest)[n..] == b[n..] + rest;
        BodyIsRead(b[n..], word, rest);
      }
    }
  }

  lemma LineIsShorter(b: string)
    requires b != ""
    ensures LineOf(b).1 == |LineOf(b).0| || LineOf(b).1 == |LineOf(b).0| + 1
    ensures LineOf(b).1 == |LineOf(b).0| ==> LineOf(b).1 == |b|
  {
  }

  lemma {:induction false} BodiesAreRead(bodies: seq<string>, docs: seq<string>, tail: string)
    requires AreBodies(bodies, docs, tail)
    ensures BodiesLen(Concat(bodies) + tail, docs) == |Concat(bodies)|
    decreases |docs|
  {
    hide IsBody, BodyLen;
    if docs != [] {
      var rest := Concat(bodies[1..]) + tail;
      BodyIsRead(bodies[0], docs[0], rest);
      BodiesAreRead(bodies[1..], docs[1..], tail);
      assert Concat(bodies) + tail == bodies[0] + rest;
      assert (Concat(bodies) + tail)[|bodies[0]|..] == rest;
    }
  }

  lemma {:induction false} HeadIsCut(head: string, s: string)
    requires head <= s && |head| < |s| && s[|head|] == '\n' && Between(s, [], |head|)
    ensures var (cuts, docs) := At(Cuts([], ""), s, [], |head|);
      Split(head) == cuts.segs + [cuts.cur] && OpenAt(s, |head|) == docs
  {
    hide First, TakeAll, Between, At, SplitFrom;
    var k := |head|;
    assert s[..k] == head;
    HeadLocal(Cuts([], ""), s, [], k);
    SplitsAt(Cuts([], ""), head, [], k);
    assert head[k..] == "";
    var (cuts, docs) := At(Cuts([], ""), s, [], k);
    SplitAfter(cuts.segs, cuts.cur, "", docs);
    EmptySplit(cuts.cur, docs);
    assert cuts.segs + [] == cuts.segs;
  }

  /** The lines written into heredocs never become segments. The line that opens them is cut as it is on
      its own, whatever comes before them and after them on it, and what follows their last terminator is
      cut as it is on its own. */
  lemma HeredocIsData(head: string, bodies: seq<string>, tail: string)
    requires var s := head + ("\n" + (Concat(bodies) + tail));
      Between(s, [], |head|) && AreBodies(bodies, OpenAt(s, |head|), tail)
    ensures Split(head + ("\n" + (Concat(bodies) + tail))) == Split(head) + Split(tail)
  {
    hide *;
    var after := Concat(bodies) + tail;
    var s, k := head + ("\n" + after), |head|;
    var (cuts, docs) := At(Cuts([], ""), s, [], k);
    assert s[k] == '\n' && s[k..] == "\n" + after && s[k..][1..] == after;
    HeadIsCut(head, s);
    NoneCut(s, tail);
    SplitsAt(Cuts([], ""), s, [], k);
    LineEndToken(cuts, s[k..], docs);
    BodiesAreRead(bodies, docs, tail);
    assert s[k..][1 + |Concat(bodies)|..] == tail;
    SplitAfter(cuts.segs + [cuts.cur], "", tail, []);
  }

  lemma NoneCut(a: string, b: string)
    ensures Split(a) == SplitFrom(Cuts([], ""), a, []) && Split(b) == SplitFrom(Cuts([], ""), b, [])
  {
    hide SplitFrom;
  }

  // ---- The forms of a terminator.

  predicate AllBlanks(s: string) {
    forall c :: c in s ==> c == ' ' || c == '\t'
  }

  /** How a terminator can be written: after a dash or not, after blanks, in quotes or bare. */
  datatype Opener = Opener(dash: bool, blanks: string, quote: string, word: string) {
    function Text(): string {
      (if dash then "-" else "") + (blanks + Quoted())
    }

    function Quoted(): string {
      quote + word + quote
    }

    /** It opens the heredoc of its word before rest. */
    predicate Names(rest: string) {
      && AllBlanks(blanks) && Trim(word, DIGITS) != ""
      && if quote == "" then
           && (forall c :: c in word ==> c !in WORD_ENDS) && word[0] !in {'\'', '"'}
           && (dash || blanks != "" || word[0] != '-')
           && (rest == "" || rest[0] in WORD_ENDS)
         else (quote == "'" || quote == "\"") && quote[0] !in word
    }
  }

  lemma {:induction false} BlanksAreSkipped(s: string, n: nat, m: nat)
    requires n <= m <= |s| && (forall i :: n <= i < m ==> s[i] == ' ' || s[i] == '\t')
    requires m < |s| ==> s[m] != ' ' && s[m] != '\t'
    ensures SkipBlanks(s, n) == m
    decreases m - n
  {
    if n < m {
      BlanksAreSkipped(s, n + 1, m);
    }
  }

  lemma {:induction false} WordEndIs(s: string, n: nat, m: nat)
    requires n <= m <= |s| && (forall i :: n <= i < m ==> s[i] !in WORD_ENDS) && (m < |s| ==> s[m] in WORD_ENDS)
    ensures WordEnd(s, n) == m
    decreases m - n
  {
    if n < m {
      WordEndIs(s, n + 1, m);
    }
  }

  lemma NoNumberIsEmpty()
    ensures Trim("", DIGITS) == ""
  {
  }

  lemma NamesAWord(o: Opener, rest: string)
    requires o.Names(rest)
    ensures o.word != "" && o.Quoted() != ""
    ensures o.Quoted()[0] !in {' ', '\t', '<'}
    ensures o.dash || o.blanks != "" || o.Quoted()[0] != '-'
  {
    hide Trim, DIGITS;
    NoNumberIsEmpty();
    var q := o.Quoted();
    if o.quote == "" {
      assert q == o.word;
      assert o.word[0] in o.word;
      assert q[0] !in WORD_ENDS;
    } else {
      assert q[0] == o.quote[0];
    }
  }

  lemma WordStartsAt(dash: bool, blanks: string, rest: string)
    requires AllBlanks(blanks) && rest != "" && rest[0] !in {' ', '\t'}
    requires dash || blanks != "" || rest[0] != '-'
    ensures var pre := (if dash then "-" else "") + blanks;
      WordStart(pre + rest) == |pre| && (pre + rest)[|pre|..] == rest
  {
    var d := if dash then 1 else 0;
    var pre := (if dash then "-" else "") + blanks;
    var s, m := pre + rest, |pre|;
    assert m == d + |blanks|;
    assert s[m] == rest[0];
    forall i | d <= i < m ensures s[i] == ' ' || s[i] == '\t' {
      assert s[i] == blanks[i - d] && blanks[i - d] in blanks;
    }
    assert Dash(s) == dash;
    BlanksAreSkipped(s, d, m);
  }

  lemma OpenerParts(o: Opener, rest: string)
    requires o.Names(rest)
    ensures AllBlanks(o.blanks)
    ensures o.Text() == (if o.dash then "-" else "") + o.blanks + o.Quoted()
  {
    hide Trim, WORD_ENDS, DIGITS, Opener.Quoted, AllBlanks;
  }

  /** Every form is read as its word, and takes its own bytes. */
  lemma OpenerIsRead(o: Opener, rest: string)
    requires o.Names(rest)
    ensures HeredocWord(o.Text() + rest) == (o.word, |o.Text()|)
    ensures Opened([], o.word) == [o.word]
  {
    hide *;
    var s := o.Text() + rest;
    assert
      && |o.Text()| >= |o.Quoted()|
      && WordStart(o.Text() + rest) == |o.Text()| - |o.Quoted()|
      && (o.Text() + rest)[|o.Text()| - |o.Quoted()|..] == o.Quoted() + rest by {
      hide *;
      NamesAWord(o, rest);
      OpenerParts(o, rest);
      assert (o.Quoted() + rest)[0] == o.Quoted()[0];
      WordStartsAt(o.dash, o.blanks, o.Quoted() + rest);
      var pre := (if o.dash then "-" else "") + o.blanks;
      assert o.Text() + rest == pre + (o.Quoted() + rest);
    }
    OpenerMeans(o, rest);
    var n := |o.Text()| - |o.Quoted()|;
    if o.quote == "" {
      BareOpener(o.word, rest, s, n);
    } else {
      QuotedOpener(o.quote[0], o.word, rest, s, n);
    }
    assert [] + [o.word] == [o.word];
    OpenedOne(o.word);
  }

  lemma OpenedOne(word: string)
    requires Trim(word, DIGITS) != ""
    ensures Opened([], word) == [word]
  {
    hide Trim;
  }

  lemma OpenerMeans(o: Opener, rest: string)
    requires o.Names(rest)
    ensures Trim(o.word, DIGITS) != ""
    ensures o.quote == "" ==>
      && o.Quoted() == o.word != "" && o.word[0] !in {'\'', '"'}
      && (forall c :: c in o.word ==> c !in WORD_ENDS) && (rest == "" || rest[0] in WORD_ENDS)
    ensures o.quote != "" ==>
      && o.Quoted() == [o.quote[0]] + o.word + [o.quote[0]] && o.quote[0] !in o.word
      && (o.quote[0] == '\'' || o.quote[0] == '"')
  {
    NamesAWord(o, rest);
    hide Trim, WORD_ENDS, DIGITS, AllBlanks, Opener.Text;
    if o.quote == "" {
      assert o.Quoted() == o.word;
    } else {
      assert o.quote == [o.quote[0]];
    }
  }

  lemma BareOpener(word: string, rest: string, s: string, n: nat)
    requires n <= |s| && s[n..] == word + rest && n == WordStart(s)
    requires word != "" && word[0] !in {'\'', '"'} && (forall c :: c in word ==> c !in WORD_ENDS)
    requires rest == "" || rest[0] in WORD_ENDS
    ensures HeredocWord(s) == (word, n + |word|)
  {
    assert !StartsQuoted(s) by {
      hide WordStart;
    }
    hide *;
    var e := n + |word|;
    assert |s| == e + |rest|;
    forall i | n <= i < e ensures s[i] !in WORD_ENDS {
      assert s[i] == s[n..][i - n] == word[i - n];
      assert word[i - n] in word;
    }
    if e < |s| {
      assert s[e] == s[n..][e - n] == rest[0];
    }
    WordEndIs(s, n, e);
    assert s[n] == s[n..][0] == word[0];
    assert s[n..e] == s[n..][..e - n] == word;
    HeredocWordIs(s);
  }

  lemma QuotedOpener(q: char, word: string, rest: string, s: string, n: nat)
    requires n <= |s| && s[n..] == [q] + word + [q] + rest && n == WordStart(s)
    requires (q == '\'' || q == '"') && q !in word
    ensures HeredocWord(s) == (word, n + |word| + 2)
  {
    hide *;
    var t, e := [q] + word + [q] + rest, n + 1 + |word|;
    assert |s| == n + |t|;
    assert s[n] == s[n..][0] == q && s[e] == s[n..][e - n] == q;
    forall j | n + 1 <= j < e ensures s[j] != q {
      assert s[j] == s[n..][j - n] == word[j - n - 1];
    }
    assert s[n + 1..e] == s[n..][1..e - n] == word;
    QuoteIsAt(s, q, n + 1, e);
    QuotedWordIs(s, n, e);
  }

  lemma QuoteIsAt(s: string, q: char, n: nat, e: nat)
    requires n <= e < |s| && s[e] == q && forall j :: n <= j < e ==> s[j] != q
    ensures ByteFrom(s, q, n) == e
  {
  }

  /** Bytes that are special to no one are between tokens. */
  lemma {:induction false} PlainAt(c: Cuts, word: string, rest: string, docs: seq<string>, k: nat)
    requires SpecialFree(word) && k <= |rest| && Between(rest, docs, k)
    ensures Between(word + rest, docs, |word| + k)
    ensures At(c, word + rest, docs, |word| + k) == At(Cuts(c.segs, c.cur + word), rest, docs, k)
    decreases |word|
  {
    hide Between, At, First, TakeAll, Take;
    var s := word + rest;
    if word == "" {
      assert s == rest && c.cur + word == c.cur;
    } else {
      assert s[0] == word[0] && word[0] in word;
      PlainFirst(s, docs);
      TakeOne(c, Plain(s[..1]));
      TakePlain(c, s[..1]);
      assert s[1..] == word[1..] + rest;
      assert forall b :: b in word[1..] ==> b in word;
      PlainAt(Cuts(c.segs, c.cur + s[..1]), word[1..], rest, docs, k);
      assert c.cur + s[..1] + word[1..] == c.cur + word;
      NextToken(c, s, docs, |word| + k);
    }
  }

  lemma PlainFirst(s: string, docs: seq<string>)
    requires s != "" && s[0] !in SPECIAL
    ensures First(s, docs) == Token([Plain(s[..1])], 1, docs)
  {
    hide HeredocWord, BodiesLen, Opened, SingleEnd, DoubleEnd;
  }

  lemma TakePlain(c: Cuts, text: string)
    ensures Take(c, Plain(text)) == Cuts(c.segs, c.cur + text)
  {
  }

  /** One token more. */
  lemma NextToken(c: Cuts, s: string, docs: seq<string>, k: nat)
    requires 0 < k <= |s|
    requires var t := First(s, docs); t.size <= k && Between(s[t.size..], t.docs, k - t.size)
    ensures Between(s, docs, k)
    ensures var t := First(s, docs); At(c, s, docs, k) == At(TakeAll(c, t.pieces), s[t.size..], t.docs, k - t.size)
  {
    hide First, TakeAll;
  }

  /** The line that opens a heredoc, in any form, with plain text around it. */
  lemma OpeningLine(pre: string, o: Opener, line: string, rest: string)
    requires SpecialFree(pre) && SpecialFree(line) && o.Names(line + ("\n" + rest))
    ensures var head := pre + ("<<" + o.Text() + line);
      var s := head + ("\n" + rest);
      Between(s, [], |head|) && At(Cuts([], ""), s, [], |head|) == (Cuts([], head), [o.word])
  {
    hide *;
    var end := "\n" + rest;
    var op := "<<" + o.Text();
    var head := pre + (op + line);
    var tail := line + end;
    var s1 := op + tail;
    assert head + end == pre + s1;
    AtStart(Cuts([], pre + op + line), end, [o.word]);
    PlainAt(Cuts([], pre + op), line, end, [o.word], 0);
    assert var op := "<<" + o.Text();
      First(op + tail, []) == Token([HereStart(op)], |op|, [o.word]) by {
      hide *;
      var op := "<<" + o.Text();
      var s := op + tail;
      OpenerIsRead(o, tail);
      assert s[2..] == o.Text() + tail;
      assert OpensAHeredoc("<<" + o.Text() + tail) by {
        hide *;
        NamesAWord(o, tail);
        OpenerParts(o, tail);
        NotLessAtStart(o.dash, o.blanks, o.Quoted());
        LessLess(o.Text(), tail);
      }
      HeredocIs(s, []);
      assert s[..|op|] == op;
    }
    TakeOne(Cuts([], pre), HereStart(op));
    TakeHere(pre, op);
    assert s1[|op|..] == tail;
    NextToken(Cuts([], pre), s1, [], |op| + |line|);
    PlainAt(Cuts([], ""), pre, s1, [], |op| + |line|);
    assert "" + pre == pre;
    assert pre + op + line == head;
  }

  lemma AtStart(c: Cuts, s: string, docs: seq<string>)
    ensures Between(s, docs, 0) && At(c, s, docs, 0) == (c, docs)
  {
  }

  lemma NotLessAtStart(dash: bool, blanks: string, rest: string)
    requires AllBlanks(blanks) && rest != "" && rest[0] != '<'
    ensures var text := (if dash then "-" else "") + blanks + rest; text != "" && text[0] != '<'
  {
    var text := (if dash then "-" else "") + blanks + rest;
    if dash {
      assert text[0] == '-';
    } else if blanks != "" {
      assert text[0] == blanks[0] && blanks[0] in blanks;
    } else {
      assert text[0] == rest[0];
    }
  }

  lemma LessLess(text: string, tail: string)
    requires text != "" && text[0] != '<'
    ensures OpensAHeredoc("<<" + text + tail)
  {
    assert ("<<" + text + tail)[2] == text[0];
  }

  /** A heredoc in any form: its line is one segment, its body none, and the rest is cut on its own. */
  lemma OneHeredocIsData(pre: string, o: Opener, line: string, body: string, tail: string)
    requires SpecialFree(pre) && SpecialFree(line) && o.Names(line + ("\n" + (body + tail)))
    requires IsBody(body, o.word, tail != "")
    ensures var head := pre + ("<<" + o.Text() + line);
      Split(head + ("\n" + (body + tail))) == [head] + Split(tail)
  {
    assert Concat([body]) == body && AreBodies([body], [o.word], tail) by {
      hide IsBody;
      assert [body][1..] == [] && [o.word][1..] == [];
      assert Concat([]) == "" && body + "" == body && "" + tail == tail;
      assert AreBodies([], [], tail);
    }
    hide *;
    var head := pre + ("<<" + o.Text() + line);
    var s := head + ("\n" + (body + tail));
    OpeningLine(pre, o, line, body + tail);
    assert s[|head|] == '\n';
    HeadIsCut(head, s);
    HeredocIsData(head, [body], tail);
    assert [] + [head] == [head];
  }
}
