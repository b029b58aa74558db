/** internal/agent/workmemory.go: the key of a read is its words, and what that makes one. */
module ReadKeys {
  import opened Strings
  import opened FileReads

  predicate IsWord(w: string) {
    w != "" && forall c :: c in w ==> c !in BLANKS
  }

  predicate AreWords(words: seq<string>) {
    forall w :: w in words ==> IsWord(w)
  }

  /** What strings.Fields gives are words. */
  lemma {:induction false} FieldsAreWords(s: string, cur: string)
    requires cur == "" || IsWord(cur)
    ensures AreWords(FieldsFrom(s, cur))
  {
    if s != "" {
      if s[0] in BLANKS {
        FieldsAreWords(s[1..], "");
      } else {
        FieldsAreWords(s[1..], cur + s[..1]);
      }
    }
  }

  /** Words joined by blanks are split into themselves. */
  lemma {:induction false} FieldsOfJoined(words: seq<string>)
    requires AreWords(words)
    ensures Fields(JoinedBy(words, " ")) == words
  {
    hide FieldsFrom;
    if words == [] {
      NoFields();
    } else {
      assert IsWord(words[0]);
      var rest := JoinedBy(words[1..], " ");
      assert "" + words[0] == words[0];
      FieldsOfWord("", words[0], rest);
      if |words| > 1 {
        assert forall w :: w in words[1..] ==> w in words;
        FieldsOfJoined(words[1..]);
        assert words[0] + " " + rest == JoinedBy(words, " ");
      }
    }
  }

  lemma NoFields()
    ensures Fields("") == []
  {
  }

  /** Two commands share a key exactly when they have the same words. */
  lemma SameKeyIsSameWords(a: string, b: string)
    ensures ReadKey(a) == ReadKey(b) <==> Fields(a) == Fields(b)
  {
    FieldsAreWords(a, "");
    FieldsAreWords(b, "");
    FieldsOfJoined(Fields(a));
    FieldsOfJoined(Fields(b));
    hide FieldsFrom, JoinedBy;
  }

  // ---- Commands the shell reads by their words.

  const QUOTING: set<char> := {'\'', '"', '\\'}

  /** No quote and no backslash. */
  predicate Unquoting(command: string) {
    forall c :: c in command ==> c !in QUOTING
  }

  /** Every blank is one that parts words for the shell, and ends no command. */
  predicate OneLine(command: string) {
    forall c :: c in command && c in BLANKS ==> c == ' ' || c == '\t'
  }

  /** No ".." after a name: where a link leads does not matter. */
  predicate NoClimb(parts: seq<string>) {
    forall i, j :: 0 <= j < i < |parts| && parts[i] == ".." ==> parts[j] in {"", ".", ".."}
  }

  /** A word the shell opens the file of as it is written: quoted by one pair of quotes or not at all, with
      no quote, no backslash, no ~ and no # it would read otherwise, and a path without climbing. */
  predicate PathAsWritten(w: string) {
    var path := Unquoted(w);
    && path != "" && Unquoting(path) && NoClimb(PartsFrom(path, ""))
    && if w == path then path[0] != '~' && path[0] != '#' else |w| == |path| + 2 && w[0] == w[|w| - 1]
  }

  /** The path of a read is its last word. */
  predicate ReadsAsWritten(command: string) {
    var words := Fields(command);
    OneLine(command) && words != [] && PathAsWritten(words[|words| - 1])
  }

  predicate OccursIn(c: char, words: seq<string>) {
    exists w :: w in words && c in w
  }

  /** The words have the characters of the command, but for the blanks. */
  lemma {:induction false} CharsOfFields(s: string, cur: string, c: char)
    requires c !in BLANKS
    ensures OccursIn(c, FieldsFrom(s, cur)) <==> c in cur || c in s
  {
    hide BLANKS;
    if s == "" {
      assert FieldsFrom(s, cur) == if cur == "" then [] else [cur];
    } else if s[0] in BLANKS {
      CharsOfFields(s[1..], "", c);
      assert s == [s[0]] + s[1..];
    } else {
      CharsOfFields(s[1..], cur + s[..1], c);
      assert s == s[..1] + s[1..];
    }
  }

  /** A command of the same words has the same quotes. */
  lemma SameWordsSameQuotes(a: string, b: string)
    requires Fields(a) == Fields(b) && Unquoting(a)
    ensures Unquoting(b)
  {
    hide FieldsFrom;
    forall c | c in b && c !in BLANKS ensures c in a {
      CharsOfFields(a, "", c);
      CharsOfFields(b, "", c);
    }
  }

  /** Two commands that differ in one blank or line break between words have the same key, quoted or not. */
  lemma {:induction false} BlanksAreOne(a: string, gap: string, b: string, cur: string)
    requires gap != "" && forall c :: c in gap ==> c in BLANKS
    ensures FieldsFrom(a + gap + b, cur) == FieldsFrom(a + " " + b, cur)
    decreases |a|, |gap|
  {
    var two, one := a + gap + b, a + " " + b;
    if a == "" {
      GapIsOne(gap, b, cur);
      assert two == gap + b && one == " " + b;
    } else {
      assert two[1..] == a[1..] + gap + b && one[1..] == a[1..] + " " + b;
      assert two[..1] == one[..1] == a[..1];
      BlanksAreOne(a[1..], gap, b, "");
      BlanksAreOne(a[1..], gap, b, cur + a[..1]);
    }
  }

  lemma {:induction false} GapIsOne(gap: string, b: string, cur: string)
    requires gap != "" && forall c :: c in gap ==> c in BLANKS
    ensures FieldsFrom(gap + b, cur) == FieldsFrom(" " + b, cur)
  {
    assert gap[0] in gap;
    assert (" " + b)[1..] == b && (gap + b)[1..] == gap[1..] + b;
    if |gap| > 1 {
      assert forall c :: c in gap[1..] ==> c in gap;
      GapIsOne(gap[1..], b, "");
    } else {
      assert gap[1..] + b == b;
    }
  }

  lemma GapsShareAKey(a: string, gap: string, b: string)
    requires gap != "" && forall c :: c in gap ==> c in BLANKS
    ensures ReadKey(a + gap + b) == ReadKey(a + " " + b)
  {
    BlanksAreOne(a, gap, b, "");
    hide FieldsFrom;
  }
}
