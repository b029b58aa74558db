/** internal/agent/workmemory.go: which lines of which file a command prints, when printing part of one
    file is all it does. */
module FileReads {
  import opened Strings

  // ---- Words and numbers.

  /** strings.Fields, over the ASCII blanks: `cur` is the word being read. */
  function FieldsFrom(s: string, cur: string): seq<string> {
    if s == "" then (if cur == "" then [] else [cur])
    else if s[0] in BLANKS then (if cur == "" then [] else [cur]) + FieldsFrom(s[1..], "")
    else FieldsFrom(s[1..], cur + s[..1])
  }

  function Fields(s: string): seq<string> {
    FieldsFrom(s, "")
  }

  /** The identity of a command: the same words in the same order. */
  function ReadKey(command: string): string {
    JoinedBy(Fields(command), " ")
  }

  function JoinedBy(words: seq<string>, sep: string): string {
    if words == [] then "" else if |words| == 1 then words[0] else words[0] + sep + JoinedBy(words[1..], sep)
  }

  const MAX_INT := 0x7FFF_FFFF_FFFF_FFFF

  datatype Number = NotANumber | Number(value: int)

  predicate IsDigit(c: char) {
    '0' <= c <= '9'
  }

  /** The value of a run of digits. */
  function Digits(s: string): nat
    requires forall c :: c in s ==> IsDigit(c)
  {
    if s == "" then 0
    else
      assert IsDigit(s[|s| - 1]);
      Digits(s[..|s| - 1]) * 10 + (s[|s| - 1] as int - '0' as int)
  }

  /** strconv.Atoi: an optional sign and digits that fit an int. */
  function Atoi(s: string): Number {
    var signed := s != "" && (s[0] == '-' || s[0] == '+');
    var digits := if signed then s[1..] else s;
    if digits == "" || exists c :: c in digits && !IsDigit(c) then NotANumber
    else
      var n: int := if signed && s[0] == '-' then -(Digits(digits) as int) else Digits(digits);
      if -MAX_INT - 1 <= n <= MAX_INT then Number(n) else NotANumber
  }

  // ---- Paths: filepath.Clean.

  function PartsFrom(s: string, cur: string): seq<string> {
    if s == "" then [cur]
    else if s[0] == '/' then [cur] + PartsFrom(s[1..], "")
    else PartsFrom(s[1..], cur + s[..1])
  }

  /** The parts of a path once "." is dropped and ".." has undone the part before it. */
  function Kept(parts: seq<string>, rooted: bool): seq<string> {
    if parts == [] then []
    else
      var before, part := Kept(parts[..|parts| - 1], rooted), parts[|parts| - 1];
      if part == "" || part == "." then before
      else if part != ".." then before + [part]
      else if before != [] && before[|before| - 1] != ".." then before[..|before| - 1]
      else if rooted then before
      else before + [part]
  }

  function Clean(path: string): string {
    var rooted := path != "" && path[0] == '/';
    var kept := JoinedBy(Kept(PartsFrom(path, ""), rooted), "/");
    if rooted then "/" + kept else if kept == "" then "." else kept
  }

  // ---- The reads recognised.

  const WHOLE_FILE := MAX_INT

  /** Lines from..to of a file. */
  datatype Lines = NotALineRead | Lines(path: string, first: int, last: int)

  const NOT_PLAIN: set<char> := {'|', '&', ';', '<', '>', '`', '$', '(', ')', '{', '}', '*', '?', '[', ']', '\n'}

  function Unquoted(word: string): string {
    Trim(word, QUOTES)
  }

  function OneFile(args: seq<string>, first: int, last: int): Lines {
    if |args| != 1 || HasPrefix(args[0], "-") then NotALineRead
    else Lines(Clean(Unquoted(args[0])), first, last)
  }

  function CatRead(args: seq<string>): Lines
    requires args != []
  {
    OneFile(if args[0] == "-n" then args[1..] else args, 1, WHOLE_FILE)
  }

  function HeadLines(count: string, rest: seq<string>): Lines {
    match Atoi(count)
    case NotANumber => NotALineRead
    case Number(n) => if n < 1 then NotALineRead else OneFile(rest, 1, n)
  }

  function HeadRead(args: seq<string>): Lines {
    if |args| == 3 && args[0] == "-n" then HeadLines(args[1], args[2..])
    else if |args| == 2 && |args[0]| > 1 && args[0][0] == '-' then HeadLines(args[0][1..], args[1..])
    else OneFile(args, 1, 10)
  }

  function SedRead(words: seq<string>): Lines {
    if |words| != 4 || words[1] != "-n" then NotALineRead
    else
      var script := Unquoted(words[2]);
      if !HasSuffix(script, "p") then NotALineRead
      else
        var span := TrimSuffix(script, "p");
        var comma := ByteFrom(span, ',', 0);
        var lo := Atoi(span[..comma]);
        if lo.NotANumber? || lo.value < 1 then NotALineRead
        else if comma == |span| then Lines(Clean(Unquoted(words[3])), lo.value, lo.value)
        else
          var hi := Atoi(span[comma + 1..]);
          if hi.NotANumber? || hi.value < lo.value then NotALineRead
          else Lines(Clean(Unquoted(words[3])), lo.value, hi.value)
  }

  function FileRead(command: string): (r: Lines)
    ensures r.Lines? ==> 1 <= r.first <= r.last <= WHOLE_FILE
  {
    if exists c :: c in command && c in NOT_PLAIN then NotALineRead
    else
      var words := Fields(command);
      if |words| < 2 then NotALineRead
      else if words[0] == "cat" then CatRead(words[1..])
      else if words[0] == "head" then HeadRead(words[1..])
      else if words[0] == "sed" then SedRead(words)
      else NotALineRead
  }

  // ---- What is printed is read back.

  lemma {:induction false} DecIsDigits(n: nat)
    ensures forall c :: c in Dec(n) ==> IsDigit(c)
    ensures Digits(Dec(n)) == n
  {
    var digit := [(('0' as int) + n % 10) as char];
    assert digit[..0] == "" && Digits(digit) == n % 10;
    if n >= 10 {
      DecIsDigits(n / 10);
      assert Dec(n) == Dec(n / 10) + digit;
      assert Dec(n)[..|Dec(n)| - 1] == Dec(n / 10);
    }
  }

  lemma AtoiOfDec(n: nat)
    requires n <= MAX_INT
    ensures Atoi(Dec(n)) == Number(n)
  {
    DecIsDigits(n);
    assert Dec(n)[0] in Dec(n);
    hide Digits, Dec;
  }

  predicate PlainWord(word: string) {
    && word != ""
    && forall c :: c in word ==> c !in BLANKS && c !in NOT_PLAIN && c !in QUOTES
  }

  /** A word, and what follows the blank after it. */
  lemma {:induction false} FieldsOfWord(cur: string, word: string, rest: string)
    requires forall c :: c in word ==> c !in BLANKS
    requires cur + word != ""
    ensures FieldsFrom(word, cur) == [cur + word]
    ensures FieldsFrom(word + " " + rest, cur) == [cur + word] + Fields(rest)
    decreases |word|
  {
    var s := word + " " + rest;
    if word == "" {
      assert s[1..] == rest && cur + word == cur;
    } else {
      assert word[0] in word;
      assert forall c :: c in word[1..] ==> c in word;
      FieldsOfWord(cur + word[..1], word[1..], rest);
      assert s[1..] == word[1..] + " " + rest && s[..1] == word[..1];
      assert cur + word[..1] + word[1..] == cur + word;
    }
  }

  /** The script a range of lines is printed by. */
  function Script(first: nat, last: nat): string {
    Dec(first) + "," + Dec(last) + "p"
  }

  function SedCommand(first: nat, last: nat, path: string): string {
    "sed" + " " + ("-n" + " " + (("'" + Script(first, last) + "'") + " " + path))
  }

  lemma QuotedIsUnquoted(s: string)
    requires s != "" && s[0] !in QUOTES && s[|s| - 1] !in QUOTES
    ensures Unquoted("'" + s + "'") == s
  {
    var quoted, right := "'" + s + "'", s + "'";
    assert quoted[0] == '\'' && quoted[1..] == right;
    assert right[|right| - 1] == '\'' && right[..|right| - 1] == s;
    assert TrimLeft(right, QUOTES) == right;
    assert TrimRight(s, QUOTES) == s;
  }

  lemma {:induction false} ScriptIsQuoted(first: nat, last: nat)
    ensures Unquoted("'" + Script(first, last) + "'") == Script(first, last)
    ensures HasSuffix(Script(first, last), "p") && TrimSuffix(Script(first, last), "p") == Dec(first) + "," + Dec(last)
  {
    var s := Script(first, last);
    assert Dec(first)[0] in Dec(first);
    assert s[0] == Dec(first)[0] && s[|s| - 1] == 'p';
    QuotedIsUnquoted(s);
  }

  /** `sed -n 'A,Bp' path` is read as lines A..B of the path. */
  lemma SedIsRead(first: nat, last: nat, path: string)
    requires 1 <= first <= last <= MAX_INT && PlainWord(path) && !HasPrefix(path, "-")
    ensures FileRead(SedCommand(first, last, path)) == Lines(Clean(path), first, last)
  {
    hide *;
    var quoted := "'" + Script(first, last) + "'";
    var words := ["sed", "-n", quoted, path];
    assert var span := Dec(first) + "," + Dec(last);
      var comma := ByteFrom(span, ',', 0);
      comma < |span| && Atoi(span[..comma]) == Number(first) && Atoi(span[comma + 1..]) == Number(last) by {
      var lo, hi := Dec(first), Dec(last);
      assert ',' !in lo;
      AtoiOfDec(first);
      AtoiOfDec(last);
      assert var span := lo + "," + hi;
        ByteFrom(span, ',', 0) == |lo| && span[..|lo|] == lo && span[|lo| + 1..] == hi by {
        var span := lo + "," + hi;
        assert span[|lo|] == ',';
        forall i | 0 <= i < |lo| ensures span[i] != ',' {
          assert span[i] == lo[i] && lo[i] in lo;
        }
      }
      hide *;
    }
    ScriptIsQuoted(first, last);
    SedIsPlain(first, last, path);
    SedWords(first, last, path);
    PlainIsUnquoted(path);
    assert words[2] == quoted && words[3] == path && |words| == 4 && words[0] == "sed" && words[1] == "-n";
    SedReadIs(words, SedCommand(first, last, path), first, last);
  }

  lemma PlainIsUnquoted(path: string)
    requires PlainWord(path)
    ensures Unquoted(path) == path
  {
    assert path[0] in path && path[|path| - 1] in path;
  }

  lemma SedReadIs(words: seq<string>, command: string, first: nat, last: nat)
    requires |words| == 4 && words[0] == "sed" && words[1] == "-n" && Fields(command) == words
    requires forall c :: c in command ==> c !in NOT_PLAIN
    requires Unquoted(words[2]) == Script(first, last) && HasSuffix(Script(first, last), "p") && first <= last && first >= 1
    requires TrimSuffix(Script(first, last), "p") == Dec(first) + "," + Dec(last)
    requires var span := Dec(first) + "," + Dec(last);
      var comma := ByteFrom(span, ',', 0);
      comma < |span| && Atoi(span[..comma]) == Number(first) && Atoi(span[comma + 1..]) == Number(last)
    ensures FileRead(command) == Lines(Clean(Unquoted(words[3])), first, last)
  {
    hide Script, Clean, Unquoted, Atoi, Fields, Dec, ByteFrom, HasSuffix, TrimSuffix;
  }

  lemma SedWords(first: nat, last: nat, path: string)
    requires PlainWord(path)
    ensures Fields(SedCommand(first, last, path)) == ["sed", "-n", "'" + Script(first, last) + "'", path]
  {
    SedIsPlain(first, last, path);
    hide Script, Fields;
    var quoted := "'" + Script(first, last) + "'";
    var two := quoted + " " + path;
    var three := "-n" + " " + two;
    WordThen("sed", three);
    WordThen("-n", two);
    WordThen(quoted, path);
    LastWord(path);
  }

  lemma WordThen(word: string, rest: string)
    requires word != "" && forall c :: c in word ==> c !in BLANKS
    ensures Fields(word + " " + rest) == [word] + Fields(rest)
  {
    FieldsOfWord("", word, rest);
    assert "" + word == word;
  }

  lemma LastWord(word: string)
    requires word != "" && forall c :: c in word ==> c !in BLANKS
    ensures Fields(word) == [word]
  {
    FieldsOfWord("", word, "");
    assert "" + word == word;
  }

  lemma SedIsPlain(first: nat, last: nat, path: string)
    requires PlainWord(path)
    ensures forall c :: c in SedCommand(first, last, path) ==> c !in NOT_PLAIN
    ensures forall c :: c in "'" + Script(first, last) + "'" ==> c !in BLANKS
  {
    DecIsDigits(first);
    DecIsDigits(last);
    hide Dec, Digits;
  }

  lemma CatWords(path: string)
    requires PlainWord(path)
    ensures Fields("cat" + " " + path) == ["cat", path]
    ensures Fields("cat" + " " + ("-n" + " " + path)) == ["cat", "-n", path]
  {
    hide Fields;
    WordThen("cat", path);
    WordThen("cat", "-n" + " " + path);
    WordThen("-n", path);
    LastWord(path);
  }

  /** A line with nothing a shell would interpret. */
  predicate NothingSpecial(s: string) {
    forall c :: c in s ==> c !in NOT_PLAIN
  }

  lemma NothingSpecialJoined(a: string, b: string)
    requires NothingSpecial(a) && NothingSpecial(b)
    ensures NothingSpecial(a + " " + b) && NothingSpecial("-" + a)
  {
  }

  /** What a line of these words is read as. */
  lemma ReadOf(command: string, words: seq<string>)
    requires NothingSpecial(command) && Fields(command) == words && |words| >= 2
    ensures words[0] == "cat" ==> FileRead(command) == CatRead(words[1..])
    ensures words[0] == "head" ==> FileRead(command) == HeadRead(words[1..])
  {
    hide Fields, CatRead, HeadRead, SedRead;
  }

  lemma FileOf(path: string, first: int, last: int)
    requires PlainWord(path) && !HasPrefix(path, "-")
    ensures OneFile([path], first, last) == Lines(Clean(path), first, last) && NothingSpecial(path) && path != "-n"
  {
    PlainIsUnquoted(path);
    hide Unquoted, Clean;
    assert HasPrefix("-n", "-") by { assert "-n"[..1] == "-"; }
  }

  /** `cat path` and `cat -n path` are read as the whole file. */
  lemma CatIsRead(path: string)
    requires PlainWord(path) && !HasPrefix(path, "-")
    ensures FileRead("cat" + " " + path) == FileRead("cat" + " " + ("-n" + " " + path)) == Lines(Clean(path), 1, WHOLE_FILE)
  {
    var numbered := ["cat", "-n", path];
    assert NothingSpecial("cat") && NothingSpecial("-n");
    FileOf(path, 1, WHOLE_FILE);
    assert CatRead([path]) == OneFile([path], 1, WHOLE_FILE);
    assert ["-n", path][1..] == [path] && CatRead(["-n", path]) == OneFile([path], 1, WHOLE_FILE);
    hide *;
    CatWords(path);
    NothingSpecialJoined("cat", path);
    NothingSpecialJoined("-n", path);
    NothingSpecialJoined("cat", "-n" + " " + path);
    assert ["cat", path][1..] == [path] && numbered[1..] == ["-n", path];
    ReadOf("cat" + " " + path, ["cat", path]);
    ReadOf("cat" + " " + ("-n" + " " + path), numbered);
  }

  /** Quotes around the path change nothing. */
  lemma QuotedCatIsRead(path: string)
    requires PlainWord(path) && !HasPrefix(path, "-")
    ensures var quoted := "'" + path + "'";
      Fields("cat" + " " + quoted) == ["cat", quoted] && FileRead("cat" + " " + quoted) == Lines(Clean(path), 1, WHOLE_FILE)
  {
    hide *;
    var quoted := "'" + path + "'";
    QuotedIsAWord(path);
    QuotedFile(path, quoted);
    NothingSpecialJoined("cat", quoted);
    WordThen("cat", quoted);
    LastWord(quoted);
    assert ["cat", quoted][1..] == [quoted] && ["cat"] + [quoted] == ["cat", quoted];
    ReadOf("cat" + " " + quoted, ["cat", quoted]);
  }

  lemma QuotedIsAWord(path: string)
    requires PlainWord(path)
    ensures var quoted := "'" + path + "'";
      NothingSpecial(quoted) && quoted[0] == '\'' && Unquoted(quoted) == path && forall c :: c in quoted ==> c !in BLANKS
    ensures NothingSpecial("cat") && forall c :: c in "cat" ==> c !in BLANKS
  {
    hide Unquoted;
    assert path[0] in path && path[|path| - 1] in path;
    assert '\'' !in NOT_PLAIN && '\'' !in BLANKS;
    QuotedIsUnquoted(path);
  }

  lemma QuotedFile(path: string, quoted: string)
    requires quoted != "" && quoted[0] == '\'' && Unquoted(quoted) == path
    ensures CatRead([quoted]) == Lines(Clean(path), 1, WHOLE_FILE)
  {
    hide Unquoted, Clean;
    assert "-n"[0] == '-' && "-"[0] == '-';
  }

  // ---- A path that climbs back.

  predicate IsName(name: string) {
    PlainWord(name) && '/' !in name && name != "." && name != ".."
  }

  lemma {:induction false} PartsOfName(word: string, rest: string, cur: string)
    requires '/' !in word
    ensures PartsFrom(word, cur) == [cur + word]
    ensures PartsFrom(word + "/" + rest, cur) == [cur + word] + PartsFrom(rest, "")
    decreases |word|
  {
    var s := word + "/" + rest;
    if word == "" {
      assert s[0] == '/' && s[1..] == rest && cur + word == cur;
    } else {
      PartsOfName(word[1..], rest, cur + word[..1]);
      assert s[1..] == word[1..] + "/" + rest && s[..1] == word[..1];
      assert cur + word[..1] + word[1..] == cur + word;
    }
  }

  lemma KeptLast(parts: seq<string>, part: string, rooted: bool)
    ensures var before := Kept(parts, rooted);
      Kept(parts + [part], rooted)
      == if part == "" || part == "." then before
         else if part != ".." then before + [part]
         else if before != [] && before[|before| - 1] != ".." then before[..|before| - 1]
         else if rooted then before else before + [part]
  {
    assert (parts + [part])[..|parts + [part]| - 1] == parts;
  }

  /** A part that names something, and the one that climbs out of it. */
  predicate Names(part: string) {
    part != "" && part != "." && part != ".."
  }

  lemma KeptName(parts: seq<string>, part: string)
    requires Names(part)
    ensures Kept(parts + [part], false) == Kept(parts, false) + [part]
  {
    KeptLast(parts, part, false);
    hide Kept;
  }

  lemma KeptNone()
    ensures Kept([], false) == []
  {
  }

  lemma ClimbIsUndone(dir: string, name: string)
    requires IsName(dir) && IsName(name) && !HasPrefix(dir, "-")
    ensures var path := dir + "/../" + name;
      PlainWord(path) && !HasPrefix(path, "-") && Clean(path) == Clean(name)
  {
    hide *;
    var path := dir + "/../" + name;
    NamesMean(dir, name);
    assert path == dir + "/" + (".." + "/" + name);
    PartsOfName(dir, ".." + "/" + name, "");
    PartsOfName("..", name, "");
    PartsOfName(name, "", "");
    assert "" + dir == dir && "" + ".." == ".." && "" + name == name;
    assert [dir] + ([".."] + [name]) == [dir] + [".."] + [name];
    assert Kept([dir] + [".."] + [name], false) == [name] == Kept([name], false) by {
      hide *;
      KeptNone();
      KeptName([], dir);
      assert [] + [dir] == [dir];
      assert Kept([dir] + [".."], false) == [] by {
        KeptLast([dir], "..", false);
        hide Kept;
        assert ".."[0] == '.' && |".."| == 2;
        assert [dir][..0] == [];
      }
      KeptName([dir] + [".."], name);
      KeptName([], name);
      assert [] + [name] == [name];
    }
    CleanIs(path);
    CleanIs(name);
  }

  lemma NamesMean(dir: string, name: string)
    requires IsName(dir) && IsName(name) && !HasPrefix(dir, "-")
    ensures var path := dir + "/../" + name;
      && PlainWord(path) && !HasPrefix(path, "-") && path[0] != '/' && name[0] != '/'
      && Names(dir) && Names(name) && '/' !in dir && '/' !in name && '/' !in ".."
  {
    var path := dir + "/../" + name;
    assert path[0] == dir[0] && dir[0] in dir && name[0] in name;
    assert forall c :: c in path ==> c in dir || c in name || c == '/' || c == '.';
    assert HasPrefix(path, "-") <==> dir[0] == '-';
    assert HasPrefix(dir, "-") <==> dir[0] == '-';
  }

  lemma CleanIs(path: string)
    requires path != "" && path[0] != '/'
    ensures var kept := JoinedBy(Kept(PartsFrom(path, ""), false), "/"); Clean(path) == if kept == "" then "." else kept
  {
    hide JoinedBy, Kept, PartsFrom;
  }

  lemma HeadWords(count: string, path: string)
    requires PlainWord(path) && count != "" && forall c :: c in count ==> c !in BLANKS
    ensures Fields("head" + " " + path) == ["head", path]
    ensures Fields("head" + " " + ("-n" + " " + (count + " " + path))) == ["head", "-n", count, path]
    ensures Fields("head" + " " + (("-" + count) + " " + path)) == ["head", "-" + count, path]
  {
    hide Fields;
    WordThen("head", path);
    WordThen("head", "-n" + " " + (count + " " + path));
    WordThen("-n", count + " " + path);
    WordThen(count, path);
    WordThen("head", ("-" + count) + " " + path);
    WordThen("-" + count, path);
    LastWord(path);
  }

  lemma CountedHead(n: string, count: nat, path: string)
    requires Atoi(n) == Number(count) && count >= 1 && n != ""
    ensures HeadRead(["-n", n, path]) == HeadRead(["-" + n, path]) == OneFile([path], 1, count)
  {
    hide OneFile, Atoi;
    assert ["-n", n, path][2..] == [path] && ["-" + n, path][1..] == [path];
    assert ("-" + n)[1..] == n;
  }

  lemma CountIsPlain(count: nat)
    ensures Dec(count) != "" && NothingSpecial(Dec(count)) && forall c :: c in Dec(count) ==> c !in BLANKS
  {
    hide Dec;
  }

  /** `head path` is read as the first ten lines, and `head -n N path` and `head -N path` as the first N. */
  lemma HeadIsRead(count: nat, path: string)
    requires 1 <= count <= MAX_INT && PlainWord(path) && !HasPrefix(path, "-")
    ensures FileRead("head" + " " + path) == Lines(Clean(path), 1, 10)
    ensures FileRead("head" + " " + ("-n" + " " + (Dec(count) + " " + path))) == Lines(Clean(path), 1, count)
    ensures FileRead("head" + " " + (("-" + Dec(count)) + " " + path)) == Lines(Clean(path), 1, count)
  {
    assert NothingSpecial("head") && NothingSpecial("-n");
    hide *;
    var n := Dec(count);
    CountIsPlain(count);
    HeadWords(n, path);
    assert
      && HeadRead([path]) == Lines(Clean(path), 1, 10)
      && HeadRead(["-n", Dec(count), path]) == HeadRead(["-" + Dec(count), path]) == Lines(Clean(path), 1, count) by {
      AtoiOfDec(count);
      FileOf(path, 1, 10);
      FileOf(path, 1, count);
      CountedHead(Dec(count), count, path);
      hide *;
    }
    FileOf(path, 1, 10);
    NothingSpecialJoined("head", path);
    NothingSpecialJoined(n, path);
    NothingSpecialJoined("-n", n + " " + path);
    NothingSpecialJoined("head", "-n" + " " + (n + " " + path));
    NothingSpecialJoined("-" + n, path);
    NothingSpecialJoined("head", ("-" + n) + " " + path);
    assert ["head", path][1..] == [path] && ["head", "-n", n, path][1..] == ["-n", n, path];
    assert ["head", "-" + n, path][1..] == ["-" + n, path];
    ReadOf("head" + " " + path, ["head", path]);
    ReadOf("head" + " " + ("-n" + " " + (n + " " + path)), ["head", "-n", n, path]);
    ReadOf("head" + " " + (("-" + n) + " " + path), ["head", "-" + n, path]);
  }

  /** Whatever is recognised is one of the three programs, with nothing a shell would interpret, over
      the file its last word names. */
  lemma {:induction false} RecognisedReads(command: string)
    requires FileRead(command).Lines?
    ensures forall c :: c in command ==> c !in NOT_PLAIN
    ensures var words := Fields(command);
      |words| >= 2 && words[0] in {"cat", "head", "sed"} && FileRead(command).path == Clean(Unquoted(words[|words| - 1]))
  {
    hide Fields, Unquoted, Clean, Atoi, ByteFrom, TrimSuffix, HasSuffix;
  }

  // ---- What cleaning a path leaves.

  /** No part that names nothing, and ".." only before everything else, never under the root. */
  predicate IsClean(parts: seq<string>, rooted: bool) {
    && (forall i :: 0 <= i < |parts| ==> parts[i] != "" && parts[i] != ".")
    && (forall i :: 0 <= i < |parts| && parts[i] == ".." ==> !rooted && forall j :: 0 <= j < i ==> parts[j] == "..")
  }

  lemma {:induction false} KeptIsClean(parts: seq<string>, rooted: bool)
    ensures IsClean(Kept(parts, rooted), rooted)
  {
    if parts != [] {
      KeptIsClean(parts[..|parts| - 1], rooted);
      var before := Kept(parts[..|parts| - 1], rooted);
      if before != [] && before[|before| - 1] == ".." {
        assert forall j :: 0 <= j < |before| - 1 ==> before[j] == "..";
      }
    }
  }

  /** What is clean is left as it is. */
  lemma {:induction false} CleanIsKept(parts: seq<string>, rooted: bool)
    requires IsClean(parts, rooted)
    ensures Kept(parts, rooted) == parts
  {
    if parts != [] {
      var n := |parts| - 1;
      var init := parts[..n];
      assert IsClean(init, rooted) by {
        assert forall i :: 0 <= i < n ==> init[i] == parts[i];
      }
      CleanIsKept(init, rooted);
      assert parts[n] != "" && parts[n] != ".";
      assert parts[n] == ".." ==> !rooted && (n > 0 ==> init[n - 1] == "..");
      hide IsClean;
      assert parts == init + [parts[n]];
    }
  }

  /** Cleaning the parts of a path again changes nothing. */
  lemma KeptTwice(parts: seq<string>, rooted: bool)
    ensures Kept(Kept(parts, rooted), rooted) == Kept(parts, rooted)
  {
    KeptIsClean(parts, rooted);
    CleanIsKept(Kept(parts, rooted), rooted);
  }
}
