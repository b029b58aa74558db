/** UTF-8 as section 4 of RFC 3629 defines it, over strings of bytes. */
module Utf8 {

  /** utf8.RuneStart: every byte but a continuation byte 80..BF. */
  predicate RuneStart(c: char) {
    !(0x80 <= c as int < 0xC0)
  }

  predicate ByteIn(s: string, i: nat, lo: int, hi: int) {
    i < |s| && lo <= s[i] as int <= hi
  }

  /** The length of the well-formed character s starts with, 0 when it starts with none. */
  function RuneLen(s: string): (k: nat)
    ensures k <= 4 && k <= |s|
    ensures k > 0 ==> RuneStart(s[0])
    ensures forall i :: 0 < i < k ==> !RuneStart(s[i])
  {
    if ByteIn(s, 0, 0x00, 0x7F) then 1
    else if ByteIn(s, 0, 0xC2, 0xDF) && ByteIn(s, 1, 0x80, 0xBF) then 2
    else if && (|| (ByteIn(s, 0, 0xE0, 0xE0) && ByteIn(s, 1, 0xA0, 0xBF))
                || (ByteIn(s, 0, 0xE1, 0xEC) && ByteIn(s, 1, 0x80, 0xBF))
                || (ByteIn(s, 0, 0xED, 0xED) && ByteIn(s, 1, 0x80, 0x9F))
                || (ByteIn(s, 0, 0xEE, 0xEF) && ByteIn(s, 1, 0x80, 0xBF)))
            && ByteIn(s, 2, 0x80, 0xBF) then 3
    else if && (|| (ByteIn(s, 0, 0xF0, 0xF0) && ByteIn(s, 1, 0x90, 0xBF))
                || (ByteIn(s, 0, 0xF1, 0xF3) && ByteIn(s, 1, 0x80, 0xBF))
                || (ByteIn(s, 0, 0xF4, 0xF4) && ByteIn(s, 1, 0x80, 0x8F)))
            && ByteIn(s, 2, 0x80, 0xBF) && ByteIn(s, 3, 0x80, 0xBF) then 4
    else 0
  }

  predicate ValidUtf8(s: string) {
    s == "" || (RuneLen(s) > 0 && ValidUtf8(s[RuneLen(s)..]))
  }

  /** The encoding of a character depends on its own bytes only. */
  lemma RuneLenOfPrefix(s: string, i: nat)
    requires RuneLen(s) <= i <= |s| && RuneLen(s) > 0
    ensures RuneLen(s[..i]) == RuneLen(s)
  {
  }

  /** A valid text cut where a character starts is two valid texts. */
  lemma {:induction false} CutAtStart(s: string, i: nat)
    requires ValidUtf8(s) && i <= |s| && (i < |s| ==> RuneStart(s[i]))
    ensures ValidUtf8(s[..i]) && ValidUtf8(s[i..])
  {
    hide RuneLen;
    if i == 0 {
      assert s[0..] == s && s[..0] == "";
    } else {
      var k := RuneLen(s);
      CutAtStart(s[k..], i - k);
      RuneLenOfPrefix(s, i);
      assert s[..i][k..] == s[k..][..i - k];
      assert s[k..][i - k..] == s[i..];
    }
  }

  lemma {:induction false} ValidAppend(a: string, b: string)
    requires ValidUtf8(a) && ValidUtf8(b)
    ensures ValidUtf8(a + b)
  {
    if a == "" {
      assert a + b == b;
    } else {
      var k := RuneLen(a);
      assert RuneLen(a + b) == RuneLen(a);
      assert (a + b)[k..] == a[k..] + b by { hide RuneLen, ValidUtf8; }
      hide RuneLen;
      ValidAppend(a[k..], b);
    }
  }

  lemma {:induction false} AsciiIsValid(s: string)
    requires forall c :: c in s ==> c as int < 0x80
    ensures ValidUtf8(s)
  {
    if s != "" {
      assert s[0] in s && s[0] as int < 0x80;
      assert RuneLen(s) == 1;
      forall c | c in s[1..] ensures c as int < 0x80 { assert c in s; }
      AsciiIsValid(s[1..]);
    }
  }

  /** No position of a valid text is more than three bytes past the start of a character. */
  lemma {:induction false} StartBefore(s: string, i: nat) returns (j: nat)
    requires ValidUtf8(s) && i < |s|
    ensures i - 3 <= j <= i && RuneStart(s[j])
  {
    var k := RuneLen(s);
    if i < k {
      j := 0;
    } else {
      j := StartBefore(s[k..], i - k);
      j := j + k;
    }
  }

  /** Nor more than three bytes before the next one, or the end. */
  lemma {:induction false} StartAfter(s: string, i: nat) returns (j: nat)
    requires ValidUtf8(s) && i <= |s|
    ensures i <= j <= i + 3 && j <= |s| && (j < |s| ==> RuneStart(s[j]))
  {
    if i == 0 {
      j := 0;
    } else {
      var k := RuneLen(s);
      if i < k {
        j := k;
        if k < |s| {
          assert RuneLen(s[k..]) > 0;
          assert s[k..][0] == s[k];
        }
      } else {
        j := StartAfter(s[k..], i - k);
        j := j + k;
      }
    }
  }
}
