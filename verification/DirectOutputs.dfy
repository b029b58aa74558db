/** internal/agent/direct.go: the conversation of a direct run keeps its tool outputs within limits
    that shrink with their age. */
module DirectOutputs {
  import opened Strings
  import opened Utf8
  import opened MiddleCut

  const DIRECT_WHOLE_OUTPUTS: nat := 4
  const DIRECT_OLDER_OUTPUTS: nat := 24
  const DIRECT_OLDEST_OUTPUTS: nat := 400
  const ROUND_DETAIL_OUTPUT: nat := 12000
  const ROUND_DETAIL_OLDER: nat := 3000

  datatype Role = System | User | Assistant | Tool

  datatype Message = Message(role: Role, content: string)

  /** How many tool outputs there are from position i to the end of the conversation. */
  function Age(msgs: seq<Message>, i: nat): (n: nat)
    requires i <= |msgs|
    ensures n <= |msgs| - i
    decreases |msgs| - i
  {
    if i == |msgs| then 0 else (if msgs[i].role.Tool? then 1 else 0) + Age(msgs, i + 1)
  }

  function Limit(age: nat): nat {
    if age > DIRECT_OLDER_OUTPUTS then DIRECT_OLDEST_OUTPUTS
    else if age > DIRECT_WHOLE_OUTPUTS then ROUND_DETAIL_OLDER
    else ROUND_DETAIL_OUTPUT
  }

  /** A message as the shrinking leaves it. */
  function Shrunk(msgs: seq<Message>, i: nat): Message
    requires i < |msgs|
  {
    if msgs[i].role.Tool?
    then msgs[i].(content := MiddleTruncated(msgs[i].content, Limit(Age(msgs, i))))
    else msgs[i]
  }

  /** The roles alone decide the ages. */
  lemma {:induction false} AgeOfSameRoles(a: seq<Message>, b: seq<Message>, i: nat)
    requires |a| == |b| && i <= |a|
    requires forall j :: i <= j < |a| ==> a[j].role == b[j].role
    ensures Age(a, i) == Age(b, i)
    decreases |a| - i
  {
    if i < |a| {
      AgeOfSameRoles(a, b, i + 1);
    }
  }

  method ShrinkOutputs(msgs: array<Message>)
    modifies msgs
    ensures forall i :: 0 <= i < msgs.Length ==> msgs[i] == Shrunk(old(msgs[..]), i)
  {
    ghost var before := msgs[..];
    var seen := 0;
    var i := msgs.Length - 1;
    while i >= 0
      invariant -1 <= i < msgs.Length
      invariant seen == Age(before, i + 1)
      invariant forall j :: 0 <= j <= i ==> msgs[j] == before[j]
      invariant forall j :: i < j < msgs.Length ==> msgs[j] == Shrunk(before, j)
    {
      if msgs[i].role.Tool? {
        seen := seen + 1;
        var limit: nat;
        if seen > DIRECT_OLDER_OUTPUTS {
          limit := DIRECT_OLDEST_OUTPUTS;
        } else if seen > DIRECT_WHOLE_OUTPUTS {
          limit := ROUND_DETAIL_OLDER;
        } else {
          limit := ROUND_DETAIL_OUTPUT;
        }
        var cut := TruncateMiddle(msgs[i].content, limit);
        msgs[i] := msgs[i].(content := cut);
      }
      i := i - 1;
    }
  }

  predicate AllValid(msgs: seq<Message>) {
    forall i :: 0 <= i < |msgs| ==> ValidUtf8(msgs[i].content)
  }

  function AllShrunk(msgs: seq<Message>): seq<Message> {
    seq(|msgs|, i requires 0 <= i < |msgs| => Shrunk(msgs, i))
  }

  /** What one tool output may measure after a shrinking: its limit, the ellipsis and the marker
      for the text it was cut from. */
  function Allowed(age: nat, was: nat): nat {
    Limit(age) + 3 + 30 + 2 * |Dec(was)|
  }

  lemma {:induction false} DecGrows(a: nat, b: nat)
    requires a <= b
    ensures |Dec(a)| <= |Dec(b)|
  {
    if a >= 10 {
      DecGrows(a / 10, b / 10);
    }
  }

  /** After every shrinking of a valid conversation each tool output is within the limit of its age
      plus the note that says it was cut, ages are unchanged, and the conversation is still valid,
      so the same holds after the next one. */
  lemma ShrunkWithinLimits(msgs: seq<Message>)
    requires AllValid(msgs)
    ensures AllValid(AllShrunk(msgs))
    ensures forall i :: 0 <= i < |msgs| ==>
      && AllShrunk(msgs)[i].role == msgs[i].role
      && Age(AllShrunk(msgs), i) == Age(msgs, i)
      && (msgs[i].role.Tool? ==> |AllShrunk(msgs)[i].content| <= Allowed(Age(msgs, i), |msgs[i].content|))
      && (!msgs[i].role.Tool? ==> AllShrunk(msgs)[i] == msgs[i])
  {
    forall i | 0 <= i < |msgs|
      ensures ValidUtf8(AllShrunk(msgs)[i].content)
      ensures msgs[i].role.Tool? ==> |AllShrunk(msgs)[i].content| <= Allowed(Age(msgs, i), |msgs[i].content|)
    {
      var limit, text := Limit(Age(msgs, i)), msgs[i].content;
      if msgs[i].role.Tool? && |text| > limit {
        var a, b := MiddleCutOfValidText(text, limit);
        DecGrows(b - limit / 3, |text|);
      }
    }
    forall i | 0 <= i < |msgs| ensures Age(AllShrunk(msgs), i) == Age(msgs, i) {
      AgeOfSameRoles(AllShrunk(msgs), msgs, i);
    }
  }

  /** A tool output only gets older as messages are added, and an older one is never allowed more. */
  lemma {:induction false} LimitShrinksWithAge(msgs: seq<Message>, more: seq<Message>, i: nat)
    requires i <= |msgs|
    ensures Age(msgs + more, i) >= Age(msgs, i)
    ensures Limit(Age(msgs + more, i)) <= Limit(Age(msgs, i))
    decreases |msgs| - i
  {
    if i < |msgs| {
      LimitShrinksWithAge(msgs, more, i + 1);
    }
  }

  /** An output that was cut is longer than its limit, so the next shrinking at the same age cuts it
      again; one that was not cut is left alone. */
  lemma CutOutputsAreCutAgain(text: string, age: nat)
    requires ValidUtf8(text)
    ensures |text| > Limit(age) <==> |MiddleTruncated(text, Limit(age))| > Limit(age)
  {
    if |text| > Limit(age) {
      var a, b := MiddleCutOfValidText(text, Limit(age));
    }
  }
}
