/** internal/agent/verify.go: what cutting a command line at the shell's separators promises. */
module SegmentLaws {
  import opened Strings
  import opened Segments
  import opened ShellReading

  /** The separator at the head of a line with no heredoc open cuts. */
  lemma CutToken(c: Cuts, s: string)
    requires SeparatorLen(s) > 0
    ensures SplitFrom(c, s, []) == SplitFrom(Cuts(c.segs + [c.cur], ""), s[SeparatorLen(s)..], [])
  {
    hide *;
    if s[0] == '\n' {
      LineEndToken(c, s, []);
      NoBodies(s);
    } else {
      SeparatorToken(c, s, []);
    }
  }

  lemma NoBodies(s: string)
    requires s != "" && s[0] == '\n'
    ensures BodiesLen(s[1..], []) == 0 && SeparatorLen(s) == 1
  {
  }

  // ---- Joining words and cutting them apart.

  const SPECIAL: set<char> := {'\'', '"', '\\', '<', '\n', ';', '&', '|'}

  predicate SpecialFree(word: string) {
    forall c :: c in word ==> c !in SPECIAL
  }

  /** Bytes that are special to no one are text, whatever follows. */
  lemma {:induction false} PlainRun(c: Cuts, word: string, rest: string, docs: seq<string>)
    requires SpecialFree(word)
    ensures SplitFrom(c, word + rest, docs) == SplitFrom(Cuts(c.segs, c.cur + word), rest, docs)
    decreases |word|
  {
    hide SplitFrom, TakeAll;
    var s := word + rest;
    if word == "" {
      assert s == rest && c.cur + word == c.cur;
    } else {
      assert s[0] == word[0] && word[0] in word;
      assert First(s, docs) == Token([Plain(s[..1])], 1, docs);
      SplitStep(c, s, docs);
      TakeOne(c, Plain(s[..1]));
      assert s[1..] == word[1..] + rest;
      assert forall b :: b in word[1..] ==> b in word;
      PlainRun(Cuts(c.segs, c.cur + s[..1]), word[1..], rest, docs);
      assert c.cur + s[..1] + word[1..] == c.cur + word;
    }
  }

  predicate IsSeparator(sep: string) {
    sep == ";" || sep == "\n" || sep == "&&" || sep == "||" || sep == "|"
  }

  function Join(words: seq<string>, seps: seq<string>): string
    requires |words| == |seps| + 1
  {
    if seps == [] then words[0] else words[0] + (seps[0] + Join(words[1..], seps[1..]))
  }

  /** Between two single bars there is a word, or a separator that is no bar: two bars with nothing
      between them read as one separator. pending says a single bar of the same run came before. */
  predicate OneBarARun(words: seq<string>, seps: seq<string>, pending: bool)
    requires |words| == |seps| + 1
  {
    seps == [] ||
    var run := pending && words[0] == "";
    && (seps[0] == "|" ==> !run)
    && OneBarARun(words[1..], seps[1..], seps[0] == "|" || (seps[0] == "||" && run))
  }

  predicate Joinable(words: seq<string>, seps: seq<string>) {
    && |words| == |seps| + 1
    && (forall w :: w in words ==> SpecialFree(w))
    && (forall sep :: sep in seps ==> IsSeparator(sep))
  }

  /** The first word, and what is left of the joined line after it. */
  lemma FirstWord(words: seq<string>, seps: seq<string>)
    requires Joinable(words, seps)
    ensures seps == [] ==> Split(Join(words, seps)) == words
    ensures seps != [] ==>
      Split(Join(words, seps)) == SplitFrom(Cuts([], words[0]), seps[0] + Join(words[1..], seps[1..]), [])
  {
    hide SplitFrom;
    assert words[0] in words;
    var rest := if seps == [] then "" else seps[0] + Join(words[1..], seps[1..]);
    assert Join(words, seps) == words[0] + rest;
    PlainRun(Cuts([], ""), words[0], rest, []);
    assert "" + words[0] == words[0];
    if seps == [] {
      EmptySplit(words[0], []);
    }
  }

  /** Two bars in a row: the first of them, or a double bar before a single one. */
  predicate BarMeetsBar(words: seq<string>, seps: seq<string>)
    requires |words| == |seps| + 1
  {
    |seps| > 1 && seps[0] == "|" && words[1] == "" && (seps[1] == "|" || seps[1] == "||")
  }

  /** A separator that meets no bar is read as it was written. */
  lemma SeparatorIsRead(words: seq<string>, seps: seq<string>)
    requires Joinable(words, seps) && seps != [] && !BarMeetsBar(words, seps)
    ensures Split(Join(words, seps)) == [words[0]] + Split(Join(words[1..], seps[1..]))
  {
    hide SplitFrom;
    var rest := Join(words[1..], seps[1..]);
    var s := seps[0] + rest;
    FirstWord(words, seps);
    assert seps[0] in seps;
    assert SeparatorLen(s) == |seps[0]| by {
      assert s[0] == seps[0][0];
      if seps[0] == "|" && rest != "" {
        assert s[1] == rest[0] != '|' by { JoinStarts(words, seps); }
      }
    }
    assert s[|seps[0]|..] == rest;
    CutToken(Cuts([], words[0]), s);
    assert [] + [words[0]] == [words[0]];
    SplitAfter([words[0]], "", rest, []);
  }

  /** After a single bar that meets no bar, the line goes on with something else. */
  lemma JoinStarts(words: seq<string>, seps: seq<string>)
    requires Joinable(words, seps) && seps != [] && seps[0] == "|" && !BarMeetsBar(words, seps)
    ensures var rest := Join(words[1..], seps[1..]); rest == "" || rest[0] != '|'
  {
    var word := words[1];
    assert word in words;
    if word != "" {
      assert word[0] in word;
      assert Join(words[1..], seps[1..])[0] == word[0];
    } else if |seps| > 1 {
      assert seps[1] in seps;
    }
  }

  /** Two bars that meet are read as one separator, and what is left of the second goes on. */
  lemma BarsAreRead(words: seq<string>, seps: seq<string>)
    requires Joinable(words, seps) && BarMeetsBar(words, seps)
    ensures seps[1] == "|" ==>
      Split(Join(words, seps)) == [words[0]] + Split(Join(words[2..], seps[2..]))
    ensures seps[1] == "||" ==>
      Split(Join(words, seps)) == [words[0]] + Split(Join([""] + words[2..], ["|"] + seps[2..]))
  {
    hide SplitFrom;
    var tail := Join(words[2..], seps[2..]);
    FirstWord(words, seps);
    assert words[1..][1..] == words[2..] && seps[1..][1..] == seps[2..];
    var s := "|" + Join(words[1..], seps[1..]);
    assert s == "|" + (seps[1] + tail);
    var rest := seps[1][1..] + tail;
    assert s == "||" + rest;
    assert SeparatorLen(s) == 2 && s[2..] == rest;
    CutToken(Cuts([], words[0]), s);
    assert [] + [words[0]] == [words[0]];
    SplitAfter([words[0]], "", rest, []);
    if seps[1] == "|" {
      assert rest == tail;
    } else {
      assert ([""] + words[2..])[1..] == words[2..] && (["|"] + seps[2..])[1..] == seps[2..];
      assert Join([""] + words[2..], ["|"] + seps[2..]) == "" + ("|" + tail) == rest;
    }
  }

  /** Cutting never gives more segments than words were joined. */
  lemma {:induction false} AtMostTheWords(words: seq<string>, seps: seq<string>)
    requires Joinable(words, seps)
    ensures |Split(Join(words, seps))| <= |words|
    decreases |words|
  {
    assert |words| == |seps| + 1;
    hide Split, Join, Joinable;
    if seps == [] {
      FirstWord(words, seps);
    } else if !BarMeetsBar(words, seps) {
      SeparatorIsRead(words, seps);
      AtMostTheWords(words[1..], seps[1..]);
    } else {
      BarsAreRead(words, seps);
      if seps[1] == "|" {
        AtMostTheWords(words[2..], seps[2..]);
      } else {
        AtMostTheWords([""] + words[2..], ["|"] + seps[2..]);
      }
    }
  }

  /** Joining words that hold nothing special with separators, and cutting the line, gives the words
      back exactly when no two single bars have nothing but bars between them. */
  lemma {:induction false} JoinThenSplit(words: seq<string>, seps: seq<string>)
    requires Joinable(words, seps)
    ensures Split(Join(words, seps)) == words <==> OneBarARun(words, seps, false)
    decreases |words|
  {
    assert |words| == |seps| + 1;
    hide Split, Join, Joinable;
    if seps == [] {
      FirstWord(words, seps);
    } else {
      hide OneBarARun;
      if !BarMeetsBar(words, seps) {
        SeparatorIsRead(words, seps);
        JoinThenSplit(words[1..], seps[1..]);
        assert words == [words[0]] + words[1..];
      } else {
        BarsAreRead(words, seps);
        if seps[1] == "|" {
          AtMostTheWords(words[2..], seps[2..]);
        } else {
          var w, p := [""] + words[2..], ["|"] + seps[2..];
          JoinThenSplit(w, p);
          assert words == [words[0]] + w;
        }
      }
    }
  }
}
