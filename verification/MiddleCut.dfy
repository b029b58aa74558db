/** internal/agent/agent.go: cutting a text to a size without splitting a character. */
module MiddleCut {
  import opened Strings
  import opened Utf8

  // ---- What the cuts compute, as functions of the text.

  /** The last character start at or before cut, 0 when there is none. */
  function LastStart(s: string, cut: nat): (k: nat)
    requires cut < |s|
    ensures k <= cut
  {
    if cut > 0 && !RuneStart(s[cut]) then LastStart(s, cut - 1) else cut
  }

  /** The first character start at or after start, |s| when there is none. */
  function FirstStart(s: string, start: nat): (k: nat)
    requires start <= |s|
    ensures start <= k <= |s|
    decreases |s| - start
  {
    if start < |s| && !RuneStart(s[start]) then FirstStart(s, start + 1) else start
  }

  lemma {:induction false} LastStartMeans(s: string, cut: nat)
    requires cut < |s|
    ensures LastStart(s, cut) == 0 || RuneStart(s[LastStart(s, cut)])
    ensures forall j :: LastStart(s, cut) < j <= cut ==> !RuneStart(s[j])
  {
    if cut > 0 && !RuneStart(s[cut]) {
      LastStartMeans(s, cut - 1);
    }
  }

  lemma {:induction false} FirstStartMeans(s: string, start: nat)
    requires start <= |s|
    ensures FirstStart(s, start) < |s| ==> RuneStart(s[FirstStart(s, start)])
    ensures forall j :: start <= j < FirstStart(s, start) ==> !RuneStart(s[j])
    decreases |s| - start
  {
    if start < |s| && !RuneStart(s[start]) {
      FirstStartMeans(s, start + 1);
    }
  }

  function Truncated(s: string, max: nat): string {
    if |s| <= max then s else s[..LastStart(s, max)] + "..."
  }

  function Marker(omitted: nat, total: nat): (m: string)
    ensures |m| == 30 + |Dec(omitted)| + |Dec(total)|
    ensures forall c :: c in m ==> c as int < 0x80
  {
    "\n[... " + Dec(omitted) + " of " + Dec(total) + " bytes omitted ...]\n"
  }

  /** The first bytes of head and the last bytes of tail, first and last of them kept, around a
      marker: the cut of a text of total bytes. */
  function JoinedAt(head: string, tail: string, total: nat, first: nat, last: nat): string
    requires |head| > first && |tail| >= last && total >= first + last
  {
    var start := FirstStart(tail, |tail| - last);
    Truncated(head, first) + Marker(total - first - (|tail| - start), total) + tail[start..]
  }

  /** The text cutMiddle builds from the first bytes and the last bytes of a text of total bytes. */
  function Joined(head: string, tail: string, total: nat, max: nat): string
    requires |head| > max / 3 && |tail| >= max - max / 3 && total >= max
  {
    JoinedAt(head, tail, total, max / 3, max - max / 3)
  }

  function MiddleTruncated(s: string, max: nat): string {
    if |s| <= max then s else Joined(s, s, |s|, max)
  }

  // ---- The cuts themselves.

  method Truncate(s: string, max: nat) returns (r: string)
    ensures r == Truncated(s, max)
  {
    if |s| <= max {
      return s;
    }
    var cut: nat := max;
    while cut > 0 && !RuneStart(s[cut])
      invariant cut <= max
      invariant LastStart(s, cut) == LastStart(s, max)
    {
      cut := cut - 1;
    }
    r := s[..cut] + "...";
  }

  method CutMiddle(head: string, tail: string, total: nat, max: nat) returns (r: string)
    requires |head| > max / 3 && |tail| >= max - max / 3 && total >= max
    ensures r == Joined(head, tail, total, max)
  {
    hide Truncated, Marker;
    var start := |tail| - (max - max / 3);
    while start < |tail| && !RuneStart(tail[start])
      invariant |tail| - (max - max / 3) <= start <= |tail|
      invariant FirstStart(tail, start) == FirstStart(tail, |tail| - (max - max / 3))
    {
      start := start + 1;
    }
    var omitted := total - max / 3 - (|tail| - start);
    var first := Truncate(head, max / 3);
    r := first + Marker(omitted, total) + tail[start..];
  }

  method TruncateMiddle(s: string, max: nat) returns (r: string)
    ensures r == MiddleTruncated(s, max)
  {
    if |s| <= max {
      return s;
    }
    r := CutMiddle(s, s, |s|, max);
  }

  // ---- What a cut of a valid text is worth.

  /** The first bytes of s decide how it is truncated. */
  lemma TruncatedReadsOnlyTheHead(s: string, t: string, max: nat)
    requires |s| > max && |t| > max && s[..max + 1] == t[..max + 1]
    ensures Truncated(s, max) == Truncated(t, max)
  {
    LastStartReadsOnlyTheHead(s, t, max);
    assert s[..LastStart(s, max)] == s[..max + 1][..LastStart(s, max)];
    assert t[..LastStart(s, max)] == t[..max + 1][..LastStart(s, max)];
  }

  lemma {:induction false} LastStartReadsOnlyTheHead(s: string, t: string, cut: nat)
    requires cut < |s| && cut < |t| && s[..cut + 1] == t[..cut + 1]
    ensures LastStart(s, cut) == LastStart(t, cut)
  {
    assert s[cut] == s[..cut + 1][cut] == t[cut];
    if cut > 0 {
      assert s[..cut] == s[..cut + 1][..cut] == t[..cut];
      LastStartReadsOnlyTheHead(s, t, cut - 1);
    }
  }

  /** The last bytes of s decide where its tail starts. */
  lemma {:induction false} FirstStartReadsOnlyTheTail(s: string, drop: nat, start: nat)
    requires drop <= |s| && start <= |s| - drop
    ensures FirstStart(s[drop..], start) + drop == FirstStart(s, start + drop)
    decreases |s| - start
  {
    if start < |s| - drop {
      assert s[drop..][start] == s[start + drop];
      if !RuneStart(s[start + drop]) {
        FirstStartReadsOnlyTheTail(s, drop, start + 1);
      }
    }
  }

  /** truncate never splits a character: a valid text stays valid, at most three bytes shorter than
      it was allowed to be, plus the ellipsis. */
  lemma TruncateKeepsCharacters(s: string, max: nat)
    requires ValidUtf8(s) && |s| > max
    ensures ValidUtf8(Truncated(s, max))
    ensures exists k: nat :: max - 3 <= k <= max && Truncated(s, max) == s[..k] + "..."
  {
    var k := LastStart(s, max);
    LastStartMeans(s, max);
    var j := StartBefore(s, max);
    var z := StartBefore(s, 0);
    CutAtStart(s, k);
    AsciiIsValid("...");
    ValidAppend(s[..k], "...");
  }

  /** Where the head of a cut ends in a valid text. */
  lemma HeadEnds(s: string, first: nat) returns (a: nat)
    requires ValidUtf8(s) && |s| > first
    ensures a == LastStart(s, first)
    ensures first - 3 <= a <= first && ValidUtf8(s[..a])
  {
    a := LastStart(s, first);
    LastStartMeans(s, first);
    var i := StartBefore(s, first);
    var z := StartBefore(s, 0);
    CutAtStart(s, a);
  }

  /** Where its tail starts. */
  lemma TailStarts(s: string, from: nat) returns (b: nat)
    requires ValidUtf8(s) && from <= |s|
    ensures b == FirstStart(s, from)
    ensures from <= b <= from + 3 && ValidUtf8(s[b..])
  {
    b := FirstStart(s, from);
    FirstStartMeans(s, from);
    var j := StartAfter(s, from);
    CutAtStart(s, b);
  }

  lemma JoinedAtOfValidText(s: string, first: nat, last: nat) returns (a: nat, b: nat)
    requires ValidUtf8(s) && |s| > first + last
    ensures first - 3 <= a <= first < b <= |s|
    ensures JoinedAt(s, s, |s|, first, last) == s[..a] + "..." + Marker(b - first, |s|) + s[b..]
    ensures ValidUtf8(s[..a]) && ValidUtf8(s[b..])
    ensures ValidUtf8(JoinedAt(s, s, |s|, first, last))
    ensures first + last < |JoinedAt(s, s, |s|, first, last)| <= first + last + 3 + |Marker(b - first, |s|)|
  {
    hide Marker, ValidUtf8, LastStart, FirstStart;
    a := HeadEnds(s, first);
    b := TailStarts(s, |s| - last);
    assert ValidUtf8(s[..a] + "..." + Marker(b - first, |s|) + s[b..]) by {
      hide ValidUtf8;
      AsciiIsValid("...");
      AsciiIsValid(Marker(b - first, |s|));
      ValidAppend(s[..a], "...");
      ValidAppend(s[..a] + "...", Marker(b - first, |s|));
      ValidAppend(s[..a] + "..." + Marker(b - first, |s|), s[b..]);
    }
  }

  /** The middle cut on valid UTF-8: a prefix of at most max/3 bytes and a suffix of the text, both
      whole characters, around a marker whose count is at most three bytes below what is missing.
      The result is valid, longer than max, and longer by the ellipsis and the marker at most. */
  lemma MiddleCutOfValidText(s: string, max: nat) returns (a: nat, b: nat)
    requires ValidUtf8(s) && |s| > max
    ensures max / 3 - 3 <= a <= max / 3 < b <= |s|
    ensures MiddleTruncated(s, max) == s[..a] + "..." + Marker(b - max / 3, |s|) + s[b..]
    ensures b - a - 3 <= b - max / 3 <= b - a
    ensures ValidUtf8(s[..a]) && ValidUtf8(s[b..]) && ValidUtf8(MiddleTruncated(s, max))
    ensures max < |MiddleTruncated(s, max)| <= max + 3 + |Marker(b - max / 3, |s|)|
  {
    hide JoinedAt, Marker, ValidUtf8;
    a, b := JoinedAtOfValidText(s, max / 3, max - max / 3);
  }

  /** With no byte to back off from, the cut keeps exactly max bytes. */
  lemma MiddleCutOfAscii(s: string, max: nat)
    requires |s| > max && forall c :: c in s ==> c as int < 0x80
    ensures |MiddleTruncated(s, max)| == max + 3 + |Marker(|s| - max, |s|)|
  {
    hide Marker;
    assert s[max / 3] in s;
    assert RuneStart(s[max / 3]);
    var from := |s| - (max - max / 3);
    if from < |s| {
      assert s[from] in s;
      assert RuneStart(s[from]);
    }
  }

  /** Nothing of a text without a character start is kept. */
  lemma MiddleCutOfNoStarts(s: string, max: nat)
    requires |s| > max && forall j :: 0 <= j < |s| ==> !RuneStart(s[j])
    ensures MiddleTruncated(s, max) == "..." + Marker(|s| - max / 3, |s|)
  {
    hide LastStart, FirstStart, Marker, RuneStart;
    assert JoinedAt(s, s, |s|, (max / 3), (max - max / 3)) == "..." + Marker(|s| - (max / 3), |s|) by {
      hide LastStart, FirstStart, Marker, RuneStart;
      NoStarts(s, (max / 3), |s| - (max - max / 3));
      assert s[..0] == "" && s[|s|..] == "";
      assert Truncated(s, (max / 3)) == "..." by {
        assert s[..0] + "..." == "...";
      }
      assert "..." + Marker(|s| - (max / 3), |s|) + "" == "..." + Marker(|s| - (max / 3), |s|);
    }
  }

  lemma NoStarts(s: string, first: nat, from: nat)
    requires first < |s| && from <= |s| && forall j :: 0 <= j < |s| ==> !RuneStart(s[j])
    ensures LastStart(s, first) == 0 && FirstStart(s, from) == |s|
  {
    LastStartMeans(s, first);
    FirstStartMeans(s, from);
    hide LastStart, FirstStart, RuneStart;
  }
}
