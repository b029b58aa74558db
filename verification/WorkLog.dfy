/** internal/agent/worklog.go: what every round of a run printed, kept as its two ends. */
module WorkLogs {
  import opened Strings
  import opened Utf8
  import opened MiddleCut

  /** roundOutputChars: what the model is handed of one output. */
  const ROUND_OUTPUT_CHARS: nat := 16384

  /** head and tail are the ends a log keeps of everything written to it. */
  ghost predicate Ends(written: string, head: string, tail: string) {
    && IsHead(written, head)
    && IsTail(written, tail)
    && (|tail| < |written| ==> |tail| >= ROUND_OUTPUT_CHARS)
    && |tail| <= 2 * ROUND_OUTPUT_CHARS
  }

  predicate IsHead(written: string, head: string) {
    head == written[..if |written| < ROUND_OUTPUT_CHARS then |written| else ROUND_OUTPUT_CHARS]
  }

  predicate IsTail(written: string, tail: string) {
    |tail| <= |written| && tail == written[|written| - |tail|..]
  }

  /** The first bytes kept after writing p, and the last ones. */
  function HeadWith(head: string, p: string): string
    requires |head| <= ROUND_OUTPUT_CHARS
  {
    var room := ROUND_OUTPUT_CHARS - |head|;
    head + p[..if |p| < room then |p| else room]
  }

  function TailWith(tail: string, p: string): string {
    var t := tail + p;
    if |t| > 2 * ROUND_OUTPUT_CHARS then t[|t| - ROUND_OUTPUT_CHARS..] else t
  }

  lemma EndsAfterWrite(written: string, head: string, tail: string, p: string)
    requires Ends(written, head, tail)
    ensures |head| <= ROUND_OUTPUT_CHARS
    ensures Ends(written + p, HeadWith(head, p), TailWith(tail, p))
  {
  }

  lemma EndsAreShort(written: string, head: string, tail: string)
    requires Ends(written, head, tail)
    ensures |head| + |tail| <= 3 * ROUND_OUTPUT_CHARS
  {
  }

  /** The tail of a text is cut where the whole text is. */
  lemma TailIsCutAsTheWhole(whole: string, drop: nat, keep: nat)
    requires drop <= |whole| && keep <= |whole| - drop
    ensures var tail := whole[drop..];
            var start, at := FirstStart(tail, |tail| - keep), FirstStart(whole, |whole| - keep);
            start + drop == at && tail[start..] == whole[at..]
  {
    FirstStartReadsOnlyTheTail(whole, drop, |whole| - drop - keep);
  }

  /** A text known by its first bytes and by its last ones is cut as the whole text is. */
  lemma JoinedOfTheEnds(whole: string, keep: nat, drop: nat, first: nat, last: nat)
    requires first < keep <= |whole| && drop + last <= |whole| && first + last <= |whole|
    ensures JoinedAt(whole[..keep], whole[drop..], |whole|, first, last)
         == JoinedAt(whole, whole, |whole|, first, last)
  {
    assert whole[..keep][..first + 1] == whole[..first + 1];
    TruncatedReadsOnlyTheHead(whole[..keep], whole, first);
    TailIsCutAsTheWhole(whole, drop, last);
  }

  lemma EndsOfALongText(whole: string, drop: nat, cap: nat)
    requires 0 < cap < |whole| && drop + cap <= |whole|
    ensures Joined(whole[..cap], whole[drop..], |whole|, cap) == MiddleTruncated(whole, cap)
  {
    hide JoinedAt;
    assert cap / 3 < cap;
    JoinedOfTheEnds(whole, cap, drop, cap / 3, cap - cap / 3);
  }

  /** The two ends of a log that dropped its middle are cut to the text the whole log is cut to. */
  lemma EndsCutAsTheWhole(written: string, head: string, tail: string, extra: string)
    requires Ends(written, head, tail) && |tail| < |written|
    ensures |head| == ROUND_OUTPUT_CHARS && |head| + |tail| <= 3 * ROUND_OUTPUT_CHARS
    ensures Joined(head, tail + extra, |written| + |extra|, ROUND_OUTPUT_CHARS)
         == MiddleTruncated(written + extra, ROUND_OUTPUT_CHARS)
  {
    hide Joined, MiddleTruncated;
    var whole, drop := written + extra, |written| - |tail|;
    assert head == whole[..ROUND_OUTPUT_CHARS];
    assert tail + extra == whole[drop..];
    EndsOfALongText(whole, drop, ROUND_OUTPUT_CHARS);
  }

  class WorkLog {
    var head: string
    var tail: string
    var n: nat
    /** Everything ever written, which the log itself does not keep. */
    ghost var written: string

    ghost predicate Valid()
      reads this
    {
      n == |written| && Ends(written, head, tail)
    }

    constructor ()
      ensures Valid() && written == ""
    {
      head, tail, n := "", "", 0;
      written := "";
    }

    method Write(p: string)
      requires Valid()
      modifies this
      ensures Valid() && written == old(written) + p
      ensures |head| + |tail| <= 3 * ROUND_OUTPUT_CHARS
    {
      hide Ends, HeadWith, TailWith;
      EndsAfterWrite(written, head, tail, p);
      n := n + |p|;
      head := HeadWith(head, p);
      tail := TailWith(tail, p);
      written := written + p;
      EndsAreShort(written, head, tail);
    }

    /** The log with extra after it, cut in its middle: the same text as cutting all of it. */
    method TextWith(extra: string) returns (r: string)
      requires Valid()
      ensures r == MiddleTruncated(written + extra, ROUND_OUTPUT_CHARS)
    {
      if n == |tail| {
        r := TruncateMiddle(tail + extra, ROUND_OUTPUT_CHARS);
      } else {
        EndsCutAsTheWhole(written, head, tail, extra);
        r := CutMiddle(head, tail + extra, n + |extra|, ROUND_OUTPUT_CHARS);
      }
    }
  }

  /** Any sequence of writes, read back with any text after it. */
  method WriteAll(writes: seq<string>, extra: string) returns (log: WorkLog, r: string)
    ensures log.Valid() && fresh(log) && |log.head| + |log.tail| <= 3 * ROUND_OUTPUT_CHARS
    ensures r == MiddleTruncated(Concat(writes) + extra, ROUND_OUTPUT_CHARS)
  {
    log := new WorkLog();
    for i := 0 to |writes|
      invariant log.Valid() && fresh(log)
      invariant log.written == Concat(writes[..i])
      invariant |log.head| + |log.tail| <= 3 * ROUND_OUTPUT_CHARS
    {
      log.Write(writes[i]);
      assert writes[..i + 1] == writes[..i] + [writes[i]];
      ConcatAppend(writes[..i], [writes[i]]);
    }
    assert writes[..|writes|] == writes;
    r := log.TextWith(extra);
  }
}
