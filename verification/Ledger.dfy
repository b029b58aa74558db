/** internal/agent/verify.go: the last run of every check a run executed itself, and the checks
    still open when it claims to be done. */
module Ledger {
  import opened Strings
  import opened Segments

  // ---- The keys of a command line.

  const PARENS: set<char> := {'(', ')'}

  function Words(seg: string): string {
    TrimSpace(Trim(TrimSpace(seg), PARENS))
  }

  predicate ChangesDirectory(seg: string) {
    HasPrefix(seg, "cd ")
  }

  function Directory(seg: string): string
    requires ChangesDirectory(seg)
  {
    Trim(TrimSpace(seg[3..]), QUOTES)
  }

  /** What a segment does: nothing, a change of directory, or a check, told by the phrases of the file,
      taken here as the map `phrases` from a segment to the words of its check. */
  datatype Clause = Nothing | Enters(dir: string) | RunsCheck(words: string)

  function ClauseOf(seg: string, phrases: map<string, string>): Clause {
    var words := Words(seg);
    if words == "" then Nothing
    else if ChangesDirectory(words) then Enters(Directory(words))
    else if words in phrases then RunsCheck(phrases[words])
    else Nothing
  }

  function Clauses(segs: seq<string>, phrases: map<string, string>): seq<Clause> {
    seq(|segs|, i requires 0 <= i < |segs| => ClauseOf(segs[i], phrases))
  }

  /** The directory so far, and the keys. */
  datatype Reading = Reading(cwd: string, keys: seq<string>)

  function Read(r: Reading, c: Clause): Reading {
    match c
    case Nothing => r
    case Enters(dir) => r.(cwd := dir)
    case RunsCheck(words) =>
      var key := r.cwd + "|" + words;
      if key in r.keys then r else r.(keys := r.keys + [key])
  }

  function ReadAll(clauses: seq<Clause>): Reading {
    if clauses == [] then Reading("", [])
    else Read(ReadAll(clauses[..|clauses| - 1]), clauses[|clauses| - 1])
  }

  function Keys(command: string, phrases: map<string, string>): seq<string> {
    ReadAll(Clauses(Split(command), phrases)).keys
  }

  method VerificationKeys(command: string, phrases: map<string, string>) returns (keys: seq<string>)
    ensures keys == Keys(command, phrases)
  {
    hide Split, Words, Directory;
    assert Words("") == "" by { WordsOfNothing(); }
    var segs := SplitSegments(command);
    ghost var clauses := Clauses(segs, phrases);
    keys := [];
    var cwd := "";
    var seen: set<string> := {};
    for i := 0 to |segs|
      invariant Reading(cwd, keys) == ReadAll(clauses[..i])
      invariant forall k :: k in seen <==> k in keys
    {
      assert clauses[..i + 1][..i] == clauses[..i];
      var seg := Words(segs[i]);
      if seg == "" {
        continue;
      }
      if ChangesDirectory(seg) {
        cwd := Directory(seg);
        continue;
      }
      if seg !in phrases {
        continue;
      }
      var k := cwd + "|" + phrases[seg];
      if k !in seen {
        seen := seen + {k};
        keys := keys + [k];
      }
    }
    assert clauses[..|segs|] == clauses;
  }

  lemma WordsOfNothing()
    ensures Words("") == ""
  {
  }

  /** The directory a clause runs in: that of the last change before it, none at first. */
  function CwdBefore(clauses: seq<Clause>, i: nat): string
    requires i <= |clauses|
  {
    if i == 0 then "" else if clauses[i - 1].Enters? then clauses[i - 1].dir else CwdBefore(clauses, i - 1)
  }

  /** Clause i runs the check of key k. */
  predicate Runs(clauses: seq<Clause>, i: int, k: string) {
    0 <= i < |clauses| && clauses[i].RunsCheck? && k == CwdBefore(clauses, i) + "|" + clauses[i].words
  }

  lemma {:induction false} CwdOfPrefix(clauses: seq<Clause>, n: nat, i: nat)
    requires i <= n <= |clauses|
    ensures CwdBefore(clauses[..n], i) == CwdBefore(clauses, i)
  {
    if i > 0 {
      CwdOfPrefix(clauses, n, i - 1);
    }
  }

  lemma {:induction false} CwdIsTheLast(clauses: seq<Clause>)
    ensures ReadAll(clauses).cwd == CwdBefore(clauses, |clauses|)
  {
    if clauses != [] {
      CwdIsTheLast(clauses[..|clauses| - 1]);
      CwdOfPrefix(clauses, |clauses| - 1, |clauses| - 1);
    }
  }

  /** The keys of a line are those of the checks its segments run, in the directory of the last `cd` before
      them, and none is listed twice. */
  lemma {:induction false} KeysAreTheChecksRun(clauses: seq<Clause>)
    ensures forall k :: k in ReadAll(clauses).keys <==> exists i :: Runs(clauses, i, k)
    ensures Distinct(ReadAll(clauses).keys)
  {
    if clauses != [] {
      var n := |clauses| - 1;
      var init := clauses[..n];
      KeysAreTheChecksRun(init);
      CwdIsTheLast(init);
      CwdOfPrefix(clauses, n, n);
      forall i, k ensures Runs(init, i, k) <==> Runs(clauses, i, k) && i < n {
        if 0 <= i < n {
          CwdOfPrefix(clauses, n, i);
        }
      }
      forall k ensures k in ReadAll(clauses).keys <==> k in ReadAll(init).keys || Runs(clauses, n, k) {
      }
      hide ReadAll, Runs;
      forall k ensures k in ReadAll(clauses).keys <==> exists i :: Runs(clauses, i, k) {
        if i :| Runs(init, i, k) {
          assert Runs(clauses, i, k);
        }
      }
    }
  }

  // ---- One execution, and what it leaves in the ledger.

  /** A command that ran: its exit status, whether it could not be started, what it printed, and
      whether that reports a failure (a regular expression of the file, taken as given). */
  datatype Execution = Execution(
    command: string, round: nat, exit: int, couldNotRun: bool, output: string, reportsFailure: bool)

  /** The last run of one check. */
  datatype Record = Record(command: string, round: nat, failed: bool, masked: bool, exit: int, tail: string)

  /** A non-zero status or a run that could not start is a failure; so is an output that reports one,
      whatever the status says, and then the status was not the check's. */
  function CheckFailed(e: Execution): (r: (bool, bool))
    ensures r.1 <==> e.exit == 0 && !e.couldNotRun && e.reportsFailure
    ensures !r.0 <==> e.exit == 0 && !e.couldNotRun && !e.reportsFailure
  {
    if e.exit != 0 || e.couldNotRun then (true, false)
    else if e.reportsFailure then (true, true)
    else (false, false)
  }

  const VERIFY_TAIL_CHARS := 1500

  function Tail(output: string): string {
    var t := TrimSpace(output);
    if |t| > VERIFY_TAIL_CHARS then "..." + t[|t| - VERIFY_TAIL_CHARS..] else t
  }

  /** The tail kept of an output is the end of it, blanks aside, and all of it when it is short. */
  lemma TailIsTheEnd(output: string)
    ensures var all, kept := TrimSpace(output), Tail(output);
      if |all| <= VERIFY_TAIL_CHARS then kept == all
      else |kept| == VERIFY_TAIL_CHARS + 3 && kept[..3] == "..." && HasSuffix(all, kept[3..])
  {
    hide TrimSpace;
    var all, kept := TrimSpace(output), Tail(output);
    if |all| > VERIFY_TAIL_CHARS {
      assert kept[3..] == all[|all| - VERIFY_TAIL_CHARS..];
    }
  }

  function RecordOf(e: Execution): Record {
    Record(e.command, e.round, CheckFailed(e).0, CheckFailed(e).1, e.exit, Tail(e.output))
  }

  type Checks = map<string, Record>

  /** The checks a command runs, whatever tells them from its line. */
  type Keying = string -> seq<string>

  /** What the phrases of the file tell. */
  function KeyedBy(phrases: map<string, string>): Keying {
    (command: string) => Keys(command, phrases)
  }

  /** The ledger once e is noted: every check of its line has e as its last run, the others keep theirs. */
  function Noted(verif: Checks, e: Execution, checks: Keying): Checks {
    verif + map k | k in checks(e.command) :: RecordOf(e)
  }

  function After(history: seq<Execution>, checks: Keying): Checks {
    if history == [] then map[]
    else Noted(After(history[..|history| - 1], checks), history[|history| - 1], checks)
  }

  predicate Covers(e: Execution, k: string, checks: Keying) {
    k in checks(e.command)
  }

  /** i is the last execution of the history that covers k. */
  predicate LastCovering(history: seq<Execution>, i: int, k: string, checks: Keying) {
    && 0 <= i < |history| && Covers(history[i], k, checks)
    && forall j :: i < j < |history| ==> !Covers(history[j], k, checks)
  }

  /** The last run of a check is what counts: a key is in the ledger exactly when some command
      covered it, with the record of the last one that did. */
  lemma {:induction false} LastRunWins(history: seq<Execution>, k: string, checks: Keying)
    ensures k in After(history, checks) <==> exists i :: LastCovering(history, i, k, checks)
    ensures forall i :: LastCovering(history, i, k, checks) ==>
      After(history, checks)[k] == RecordOf(history[i])
  {
    hide RecordOf;
    if history != [] {
      var n := |history| - 1;
      var init := history[..n];
      LastRunWins(init, k, checks);
      if Covers(history[n], k, checks) {
        assert LastCovering(history, n, k, checks);
      } else {
        forall i ensures LastCovering(init, i, k, checks) <==> LastCovering(history, i, k, checks) {
        }
      }
    }
  }

  predicate Open(verif: Checks, k: string) {
    k in verif && verif[k].failed
  }

  /** A key is open exactly when the last command that covered it failed. */
  lemma OpenIsLastFailed(history: seq<Execution>, k: string, checks: Keying)
    ensures Open(After(history, checks), k) <==>
      exists i :: LastCovering(history, i, k, checks) && CheckFailed(history[i]).0
  {
    LastRunWins(history, k, checks);
    hide After, CheckFailed, Tail;
    if i :| LastCovering(history, i, k, checks) {
      assert After(history, checks)[k] == RecordOf(history[i]);
      forall j | LastCovering(history, j, k, checks) ensures j == i {
      }
    }
  }

  /** Two checks whose records name the same command have the same record: its last run covered both. */
  lemma OneRecordACommand(history: seq<Execution>, k1: string, k2: string, checks: Keying)
    requires k1 in After(history, checks) && k2 in After(history, checks)
    requires After(history, checks)[k1].command == After(history, checks)[k2].command
    ensures After(history, checks)[k1] == After(history, checks)[k2]
  {
    LastRunWins(history, k1, checks);
    LastRunWins(history, k2, checks);
    hide After, CheckFailed, Tail;
    var i :| LastCovering(history, i, k1, checks);
    var j :| LastCovering(history, j, k2, checks);
    assert Covers(history[j], k1, checks);
    assert Covers(history[i], k2, checks);
  }

  // ---- The checks still open, oldest first.

  /** Go's < on strings: byte by byte. */
  predicate Less(a: string, b: string) {
    b != "" && (a == "" || a[0] < b[0] || (a[0] == b[0] && Less(a[1..], b[1..])))
  }

  lemma {:induction false} LessIsTotal(a: string, b: string)
    ensures a == b || Less(a, b) || Less(b, a)
    ensures !Less(a, a)
    ensures !(Less(a, b) && Less(b, a))
  {
    if a != "" {
      if b != "" {
        LessIsTotal(a[1..], b[1..]);
        assert a == [a[0]] + a[1..] && b == [b[0]] + b[1..];
      } else {
        LessIsTotal(a[1..], b);
      }
    }
  }

  lemma {:induction false} LessIsTransitive(a: string, b: string, c: string)
    requires Less(a, b) && Less(b, c)
    ensures Less(a, c)
  {
    if a != "" {
      if a[0] == b[0] == c[0] {
        LessIsTransitive(a[1..], b[1..], c[1..]);
      }
    }
  }

  predicate Before(verif: Checks, a: string, b: string) {
    && a in verif && b in verif
    && (verif[a].round < verif[b].round || (verif[a].round == verif[b].round && Less(a, b)))
  }

  predicate InOrder(verif: Checks, keys: seq<string>) {
    && (forall k :: k in keys ==> k in verif)
    && forall i, j :: 0 <= i < j < |keys| ==> Before(verif, keys[i], keys[j])
  }

  function Inserted(verif: Checks, keys: seq<string>, k: string): seq<string> {
    if keys == [] then [k]
    else if Before(verif, k, keys[0]) then [k] + keys
    else [keys[0]] + Inserted(verif, keys[1..], k)
  }

  lemma {:induction false} InsertedHolds(verif: Checks, keys: seq<string>, k: string)
    ensures forall x :: x in Inserted(verif, keys, k) <==> x == k || x in keys
  {
    hide Before;
    if keys != [] {
      InsertedHolds(verif, keys[1..], k);
      assert keys == [keys[0]] + keys[1..];
    }
  }

  lemma {:induction false} InsertedInOrder(verif: Checks, keys: seq<string>, k: string)
    requires InOrder(verif, keys) && k in verif && k !in keys
    ensures InOrder(verif, Inserted(verif, keys, k))
  {
    if keys != [] {
      var rest := Inserted(verif, keys[1..], k);
      if Before(verif, k, keys[0]) {
        hide Before;
        forall j | 1 <= j < |keys| ensures Before(verif, k, keys[j]) {
          assert Before(verif, k, keys[j]) by {
            if verif[k].round == verif[keys[0]].round == verif[keys[j]].round {
              LessIsTransitive(k, keys[0], keys[j]);
            }
          }
        }
      } else {
        assert Before(verif, keys[0], k) by { LessIsTotal(k, keys[0]); }
        hide Before;
        InsertedInOrder(verif, keys[1..], k);
        InsertedHolds(verif, keys[1..], k);
        forall x | x in rest ensures Before(verif, keys[0], x) {
          if x != k {
            var j :| 0 <= j < |keys[1..]| && keys[1..][j] == x;
            assert keys[j + 1] == x;
          }
        }
      }
    }
  }

  /** A record of this command is listed. */
  predicate Seen(out: seq<Record>, command: string) {
    exists i :: 0 <= i < |out| && out[i].command == command
  }

  /** The records of the open keys, in the order of the keys, the first of each command. */
  function Listed(verif: Checks, keys: seq<string>): seq<Record>
    requires forall k :: k in keys ==> k in verif
  {
    if keys == [] then []
    else
      var out, r := Listed(verif, keys[..|keys| - 1]), verif[keys[|keys| - 1]];
      if r.failed && !Seen(out, r.command) then out + [r] else out
  }

  /** Every open check is listed by its command, each command once, oldest round first. */
  ghost predicate ListsTheOpen(verif: Checks, out: seq<Record>) {
    && (forall r :: r in out ==> exists k :: Open(verif, k) && verif[k] == r)
    && (forall k :: Open(verif, k) ==> Seen(out, verif[k].command))
    && (forall i, j :: 0 <= i < j < |out| ==> out[i].command != out[j].command && out[i].round <= out[j].round)
  }

  /** What holds of the list after some of the keys. */
  lemma {:induction false} ListedHolds(verif: Checks, keys: seq<string>)
    requires InOrder(verif, keys)
    ensures var out := Listed(verif, keys);
      && (forall r :: r in out ==> exists k :: k in keys && Open(verif, k) && verif[k] == r)
      && (forall i, j :: 0 <= i < j < |out| ==> out[i].command != out[j].command)
      && (forall k :: k in keys && Open(verif, k) ==> Seen(out, verif[k].command))
  {
    if keys != [] {
      var n := |keys| - 1;
      var init := keys[..n];
      ListedHolds(verif, init);
      var before, out := Listed(verif, init), Listed(verif, keys);
      assert before <= out;
      forall r | r in out ensures exists k :: k in keys && Open(verif, k) && verif[k] == r {
        if r in before {
          var k :| k in init && Open(verif, k) && verif[k] == r;
          assert k in keys;
        } else {
          assert keys[n] in keys && Open(verif, keys[n]) && verif[keys[n]] == r;
        }
      }
      forall k | k in keys && Open(verif, k) ensures Seen(out, verif[k].command) {
        if k in init {
          var i :| 0 <= i < |before| && before[i].command == verif[k].command;
          assert out[i] == before[i];
        } else {
          assert k == keys[n];
          if !Seen(before, verif[k].command) {
            assert out[|before|].command == verif[k].command;
          }
        }
      }
    }
  }

  lemma {:induction false} ListedOldestFirst(verif: Checks, keys: seq<string>)
    requires InOrder(verif, keys)
    ensures var out := Listed(verif, keys);
      forall i, j :: 0 <= i < j < |out| ==> out[i].round <= out[j].round
  {
    if keys != [] {
      var n := |keys| - 1;
      var init := keys[..n];
      var before := Listed(verif, init);
      ListedOldestFirst(verif, init);
      ListedHolds(verif, init);
      forall i | 0 <= i < |before| ensures before[i].round <= verif[keys[n]].round {
        assert before[i] in before;
        var k :| k in init && Open(verif, k) && verif[k] == before[i];
        var j :| 0 <= j < n && keys[j] == k;
        assert Before(verif, keys[j], keys[n]);
      }
    }
  }

  lemma ListedListsTheOpen(verif: Checks, keys: seq<string>)
    requires InOrder(verif, keys) && forall k :: k in verif ==> k in keys
    ensures ListsTheOpen(verif, Listed(verif, keys))
  {
    ListedHolds(verif, keys);
    ListedOldestFirst(verif, keys);
    hide Listed, Seen, InOrder;
    var out := Listed(verif, keys);
    forall r | r in out ensures exists k :: Open(verif, k) && verif[k] == r {
      var k :| k in keys && Open(verif, k) && verif[k] == r;
    }
  }

  /** The part of a run's memory that keeps the last run of every check. */
  class CheckLedger {
    const phrases: map<string, string>
    var verif: Checks

    constructor (phrases: map<string, string>)
      ensures this.phrases == phrases && verif == map[]
    {
      this.phrases, verif := phrases, map[];
    }

    /** A later run of the same check replaces the earlier one. */
    method NoteVerification(e: Execution)
      modifies this`verif
      ensures verif == Noted(old(verif), e, KeyedBy(phrases))
    {
      hide Keys, RecordOf;
      var keys := VerificationKeys(e.command, phrases);
      var record := RecordOf(e);
      for i := 0 to |keys|
        invariant verif == old(verif) + map k | k in keys[..i] :: record
      {
        verif := verif[keys[i] := record];
        assert keys[..i + 1] == keys[..i] + [keys[i]];
      }
      assert keys[..|keys|] == keys;
    }

    /** Whatever order the keys of the map come in. */
    method SortedKeys() returns (keys: seq<string>)
      ensures InOrder(verif, keys)
      ensures forall k :: k in verif <==> k in keys
    {
      keys := [];
      var left := verif.Keys;
      while left != {}
        invariant InOrder(verif, keys)
        invariant left <= verif.Keys
        invariant forall k :: k in keys <==> k in verif && k !in left
      {
        var k :| k in left;
        InsertedHolds(verif, keys, k);
        InsertedInOrder(verif, keys, k);
        keys := Inserted(verif, keys, k);
        left := left - {k};
      }
    }

    method OpenFailures() returns (out: seq<Record>)
      ensures ListsTheOpen(verif, out)
      ensures out == [] <==> forall k :: !Open(verif, k)
    {
      var keys := SortedKeys();
      out := [];
      var seen: set<string> := {};
      for i := 0 to |keys|
        invariant out == Listed(verif, keys[..i])
        invariant forall c :: c in seen <==> Seen(out, c)
      {
        assert keys[..i + 1][..i] == keys[..i];
        assert keys[i] in keys;
        var r := verif[keys[i]];
        if r.failed && r.command !in seen {
          SeenAppend(out, r);
          seen := seen + {r.command};
          out := out + [r];
        }
      }
      assert keys[..|keys|] == keys;
      ListedListsTheOpen(verif, keys);
      EmptyIsNoneOpen(verif, out);
    }
  }

  lemma SeenAppend(out: seq<Record>, r: Record)
    ensures forall c :: Seen(out + [r], c) <==> Seen(out, c) || c == r.command
  {
    forall c ensures Seen(out + [r], c) <==> Seen(out, c) || c == r.command {
      if Seen(out, c) {
        var i :| 0 <= i < |out| && out[i].command == c;
        assert (out + [r])[i].command == c;
      }
      assert (out + [r])[|out|].command == r.command;
    }
  }

  lemma EmptyIsNoneOpen(verif: Checks, out: seq<Record>)
    requires ListsTheOpen(verif, out)
    ensures out == [] <==> forall k :: !Open(verif, k)
  {
    if out != [] {
      assert out[0] in out;
    }
  }
}
