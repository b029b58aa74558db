/** Go strings as the model sees them: a `string` whose characters stand for the bytes, one each.
    The functions are the few members of Go's `strings` and `fmt` packages the agent relies on. */
module Strings {

  predicate HasPrefix(s: string, p: string) {
    p <= s
  }

  predicate HasSuffix(s: string, p: string) {
    |p| <= |s| && s[|s| - |p|..] == p
  }

  function TrimSuffix(s: string, p: string): string {
    if HasSuffix(s, p) then s[..|s| - |p|] else s
  }

  /** p occurs in s at position i. */
  predicate OccursAt(s: string, p: string, i: int) {
    0 <= i && i + |p| <= |s| && s[i..i + |p|] == p
  }

  lemma OccursChar(s: string, p: string, i: nat, d: nat)
    requires OccursAt(s, p, i) && d < |p|
    ensures s[i + d] == p[d]
  {
    assert s[i..i + |p|][d] == p[d];
  }

  /** An occurrence in a text is one in any text around it. */
  lemma OccursWithin(before: string, s: string, after: string, p: string, i: nat)
    requires i <= |s|
    ensures OccursAt(s, p, i) ==> OccursAt(before + s + after, p, |before| + i)
    ensures i + |p| <= |s| && OccursAt(before + s + after, p, |before| + i) ==> OccursAt(s, p, i)
  {
    var t := before + s + after;
    if i + |p| <= |s| {
      assert t[|before| + i..|before| + i + |p|] == s[i..i + |p|];
    }
  }

  lemma OccursAfter(before: string, s: string, p: string, i: nat)
    ensures OccursAt(before + s, p, |before| + i) <==> OccursAt(s, p, i)
  {
    if i + |p| <= |s| {
      assert (before + s)[|before| + i..|before| + i + |p|] == s[i..i + |p|];
    }
  }

  /** strings.Index from position i on: the first occurrence of p, or |s| + 1 when there is none. */
  function IndexFrom(s: string, p: string, i: nat): (k: nat)
    requires i <= |s| + 1
    ensures i <= k <= |s| + 1
    ensures k <= |s| ==> k + |p| <= |s|
    decreases |s| + 1 - i
  {
    if i > |s| || OccursAt(s, p, i) then i else IndexFrom(s, p, i + 1)
  }

  lemma {:induction false} IndexMeans(s: string, p: string, i: nat)
    requires i <= |s| + 1
    ensures IndexFrom(s, p, i) <= |s| ==> OccursAt(s, p, IndexFrom(s, p, i))
    ensures forall j :: i <= j < IndexFrom(s, p, i) ==> !OccursAt(s, p, j)
    decreases |s| + 1 - i
  {
    if i <= |s| && !OccursAt(s, p, i) {
      IndexMeans(s, p, i + 1);
    }
  }

  predicate Contains(s: string, p: string) {
    IndexFrom(s, p, 0) <= |s|
  }

  /** A first occurrence is what IndexFrom finds. */
  lemma IndexIs(s: string, p: string, i: nat, k: nat)
    requires i <= k && OccursAt(s, p, k)
    requires forall j :: i <= j < k ==> !OccursAt(s, p, j)
    ensures IndexFrom(s, p, i) == k
  {
    IndexMeans(s, p, i);
  }

  /** fmt's %d of a non-negative number. */
  function Dec(n: nat): (r: string)
    ensures |r| >= 1
    ensures forall c :: c in r ==> '0' <= c <= '9'
  {
    var digit := [(('0' as int) + n % 10) as char];
    if n < 10 then digit else Dec(n / 10) + digit
  }

  /** fmt's %d of an int. */
  function DecInt(n: int): string {
    if n < 0 then "-" + Dec(-n) else Dec(n)
  }

  predicate Distinct(s: seq<string>) {
    forall i, j :: 0 <= i < j < |s| ==> s[i] != s[j]
  }

  function Concat(parts: seq<string>): string {
    if parts == [] then "" else parts[0] + Concat(parts[1..])
  }

  lemma {:induction false} ConcatAppend(a: seq<string>, b: seq<string>)
    ensures Concat(a + b) == Concat(a) + Concat(b)
  {
    if a == [] {
      assert a + b == b;
    } else {
      ConcatAppend(a[1..], b);
      assert (a + b)[1..] == a[1..] + b && (a + b)[0] == a[0];
    }
  }

  /** strings.IndexByte from position i on: the first place of c, |s| when there is none. */
  function ByteFrom(s: string, c: char, i: nat): (k: nat)
    requires i <= |s|
    ensures i <= k <= |s|
    ensures k < |s| ==> s[k] == c
    ensures forall j :: i <= j < k ==> s[j] != c
    decreases |s| - i
  {
    if i == |s| || s[i] == c then i else ByteFrom(s, c, i + 1)
  }

  /** strings.TrimLeft, strings.TrimRight and strings.Trim. */
  function TrimLeft(s: string, cut: set<char>): (r: string)
    ensures |r| <= |s| && r == s[|s| - |r|..]
    ensures r != "" ==> r[0] !in cut
  {
    if s != "" && s[0] in cut then TrimLeft(s[1..], cut) else s
  }

  function TrimRight(s: string, cut: set<char>): (r: string)
    ensures |r| <= |s| && r == s[..|r|]
    ensures r != "" ==> r[|r| - 1] !in cut
  {
    if s != "" && s[|s| - 1] in cut then TrimRight(s[..|s| - 1], cut) else s
  }

  function Trim(s: string, cut: set<char>): string {
    TrimRight(TrimLeft(s, cut), cut)
  }

  const BLANKS: set<char> := {' ', '\t', '\n', '\r', 11 as char, 12 as char}

  const QUOTES: set<char> := {'\'', '"'}

  /** strings.TrimSpace, over the ASCII blanks. */
  function TrimSpace(s: string): string {
    Trim(s, BLANKS)
  }

  /** strings.Count of one character. */
  function CountChar(s: string, c: char): nat {
    if s == "" then 0 else (if s[0] == c then 1 else 0) + CountChar(s[1..], c)
  }

  lemma {:induction false} CountAppend(a: string, b: string, c: char)
    ensures CountChar(a + b, c) == CountChar(a, c) + CountChar(b, c)
  {
    if a == "" {
      assert a + b == b;
    } else {
      CountAppend(a[1..], b, c);
      assert (a + b)[1..] == a[1..] + b;
    }
  }
}
