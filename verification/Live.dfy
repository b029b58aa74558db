/** internal/agent/live.go: the string fields of a JSON reply that is still being written. */
module Live {
  import opened Strings
  import opened Utf8

  // ---- What a \uXXXX escape writes.

  predicate IsHex(c: char) {
    '0' <= c <= '9' || 'a' <= c <= 'f' || 'A' <= c <= 'F'
  }

  function HexValue(c: char): (v: nat)
    requires IsHex(c)
    ensures v < 16
  {
    if c <= '9' then c as int - '0' as int
    else if c <= 'F' then c as int - 'A' as int + 10
    else c as int - 'a' as int + 10
  }

  function Hex4(d: string): (v: nat)
    requires AllHex(d)
    ensures v < 0x1_0000
  {
    ((HexValue(d[0]) * 16 + HexValue(d[1])) * 16 + HexValue(d[2])) * 16 + HexValue(d[3])
  }

  function Byte(v: nat): char
    requires v < 256
  {
    v as char
  }

  /** strings.Builder.WriteRune of a code point of at most 16 bits: its UTF-8 form, and the
      replacement character for a surrogate. */
  function RuneBytes(v: nat): (r: string)
    requires v < 0x1_0000
    ensures 1 <= |r| <= 3
  {
    if v < 0x80 then [Byte(v)]
    else if v < 0x800 then [Byte(0xC0 + v / 64), Byte(0x80 + v % 64)]
    else if 0xD800 <= v < 0xE000 then [Byte(0xEF), Byte(0xBF), Byte(0xBD)]
    else [Byte(0xE0 + v / 4096), Byte(0x80 + v / 64 % 64), Byte(0x80 + v % 64)]
  }

  /** Whatever the four digits, what an escape writes is one valid character. */
  lemma RuneBytesAreUtf8(v: nat)
    requires v < 0x1_0000
    ensures RuneLen(RuneBytes(v)) == |RuneBytes(v)| && ValidUtf8(RuneBytes(v))
  {
    var r := RuneBytes(v);
    assert RuneLen(r) == |r|;
    assert r[|r|..] == "";
  }

  /** What fmt.Sscanf and WriteRune make of the four characters after \u, for those they write
      something for. */
  type Scan = map<string, string>

  predicate AllHex(d: string) {
    |d| == 4 && forall c :: c in d ==> IsHex(c)
  }

  /** Four hex digits write the character they number; what else Sscanf can read something of is
      left open. */
  ghost predicate ReadsHex(scan: Scan) {
    forall d :: AllHex(d) ==> d in scan && scan[d] == RuneBytes(Hex4(d))
  }

  function UnicodeText(d: string, scan: Scan): string {
    if d in scan then scan[d] else ""
  }

  // ---- Decoding one string body.

  /** A decoded body: its value, how many bytes it used, and whether its closing quote was reached. */
  datatype Decoded = Decoded(value: string, used: nat, closed: bool)

  function After(n: nat, text: string, rest: Decoded): Decoded {
    Decoded(text + rest.value, n + rest.used, rest.closed)
  }

  /** What the escape at the head of s writes and how many bytes it takes; None when it is cut short. */
  datatype Escape = Cut | Escape(text: string, size: nat)

  function EscapeAt(s: string, scan: Scan): (e: Escape)
    requires s != "" && s[0] == '\\'
    ensures e.Escape? ==> 2 <= e.size <= |s|
    ensures |s| >= 6 ==> e.Escape?
  {
    if |s| < 2 then Cut
    else if s[1] == 'n' then Escape("\n", 2)
    else if s[1] == 't' then Escape("\t", 2)
    else if s[1] == 'r' then Escape("", 2)
    else if s[1] == 'u' then if |s| < 6 then Cut else Escape(UnicodeText(s[2..6], scan), 6)
    else Escape([s[1]], 2)
  }

  function Decode(s: string, scan: Scan): (d: Decoded)
    ensures d.used <= |s|
    ensures d.closed ==> 0 < d.used && s[d.used - 1] == '"'
    ensures !d.closed ==> d.used == |s|
  {
    if s == "" then Decoded("", 0, false)
    else if s[0] == '"' then Decoded("", 1, true)
    else if s[0] != '\\' then After(1, [s[0]], Decode(s[1..], scan))
    else
      match EscapeAt(s, scan)
      case Cut => Decoded("", |s|, false)
      case Escape(text, size) => After(size, text, Decode(s[size..], scan))
  }

  /** One step of the decoder inside s: what the byte at i starts, then the rest. */
  lemma DecodeStep(s: string, i: nat, value: string, text: string, size: nat, scan: Scan)
    requires i + size <= |s| && i < |s| && s[i] != '"'
    requires s[i] != '\\' ==> text == [s[i]] && size == 1
    requires s[i] == '\\' ==> EscapeAt(s[i..], scan) == Escape(text, size)
    ensures After(i, value, Decode(s[i..], scan)) == After(i + size, value + text, Decode(s[i + size..], scan))
  {
    hide EscapeAt;
    assert s[i..][size..] == s[i + size..];
    var rest := Decode(s[i + size..], scan);
    assert Decode(s[i..], scan) == After(size, text, rest);
    assert value + (text + rest.value) == value + text + rest.value;
  }

  lemma DecodeStarts(s: string, scan: Scan)
    ensures After(0, "", Decode(s[0..], scan)) == Decode(s, scan)
  {
    assert s[0..] == s;
    assert "" + Decode(s, scan).value == Decode(s, scan).value;
  }

  /** Where it stops: at the closing quote, at an escape cut short, or at the end. */
  lemma DecodeStops(s: string, i: nat, value: string, scan: Scan)
    requires i <= |s|
    ensures i == |s| ==> After(i, value, Decode(s[i..], scan)) == Decoded(value, |s|, false)
    ensures i < |s| && s[i] == '"' ==> After(i, value, Decode(s[i..], scan)) == Decoded(value, i + 1, true)
    ensures i < |s| && s[i] == '\\' && EscapeAt(s[i..], scan).Cut? ==>
      After(i, value, Decode(s[i..], scan)) == Decoded(value, |s|, false)
  {
    hide EscapeAt;
    assert value + "" == value;
  }

  method DecodePartial(s: string, scan: Scan) returns (value: string, used: nat)
    ensures value == Decode(s, scan).value && used == Decode(s, scan).used
  {
    hide Decode, After, EscapeAt;
    value := "";
    var i := 0;
    DecodeStarts(s, scan);
    while i < |s|
      invariant i <= |s|
      invariant After(i, value, Decode(s[i..], scan)) == Decode(s, scan)
      decreases |s| - i
    {
      DecodeStops(s, i, value, scan);
      if s[i] == '"' {
        return value, i + 1;
      } else if s[i] != '\\' {
        DecodeStep(s, i, value, [s[i]], 1, scan);
        value, i := value + [s[i]], i + 1;
      } else {
        var e := EscapeAt(s[i..], scan);
        if e.Cut? {
          return value, |s|;
        }
        DecodeStep(s, i, value, e.text, e.size, scan);
        value, i := value + e.text, i + e.size;
      }
    }
    DecodeStops(s, i, value, scan);
    used := |s|;
  }

  // ---- Every value of one field.

  predicate JsonSpace(c: char) {
    c == ' ' || c == '\t' || c == '\n' || c == '\r'
  }

  function SkipSpace(text: string, j: nat): (k: nat)
    requires j <= |text|
    ensures j <= k <= |text|
    decreases |text| - j
  {
    if j < |text| && JsonSpace(text[j]) then SkipSpace(text, j + 1) else j
  }

  lemma {:induction false} SkipSpaceMeans(text: string, j: nat)
    requires j <= |text|
    ensures SkipSpace(text, j) < |text| ==> !JsonSpace(text[SkipSpace(text, j)])
    ensures forall i :: j <= i < SkipSpace(text, j) ==> JsonSpace(text[i])
    decreases |text| - j
  {
    if j < |text| && JsonSpace(text[j]) {
      SkipSpaceMeans(text, j + 1);
    }
  }

  /** Where the value of the key that ends at j starts, after its opening quote; 0 when what follows
      the key is not a colon and a quote. */
  function ValueStart(text: string, j: nat): (v: nat)
    requires j <= |text|
    ensures v == 0 || j < v <= |text|
  {
    var colon := SkipSpace(text, j);
    if colon == |text| || text[colon] != ':' then 0
    else
      var quote := SkipSpace(text, colon + 1);
      if quote == |text| || text[quote] != '"' then 0 else quote + 1
  }

  /** The value after the key that ends at j, if one follows, and where the search goes on. */
  function ValueAt(text: string, j: nat, scan: Scan): (r: (seq<string>, nat))
    requires j <= |text|
    ensures |r.0| <= 1 && j <= r.1 <= |text|
  {
    var v := ValueStart(text, j);
    if v == 0 then ([], j)
    else var d := Decode(text[v..], scan); ([d.value], v + d.used)
  }

  /** The values of the field in the text from i on. */
  function ValuesFrom(text: string, key: string, i: nat, scan: Scan): seq<string>
    requires key != "" && i <= |text|
    decreases |text| - i
  {
    var at := IndexFrom(text, key, i);
    if at > |text| then []
    else var (found, next) := ValueAt(text, at + |key|, scan); found + ValuesFrom(text, key, next, scan)
  }

  function Key(name: string): (k: string)
    ensures |k| >= 2 && k[0] == '"'
  {
    "\"" + name + "\""
  }

  function Values(text: string, name: string, scan: Scan): seq<string> {
    ValuesFrom(text, Key(name), 0, scan)
  }

  method SkipJsonSpace(text: string, j: nat) returns (k: nat)
    requires j <= |text|
    ensures k == SkipSpace(text, j)
  {
    k := j;
    while k < |text| && JsonSpace(text[k])
      invariant j <= k <= |text|
      invariant SkipSpace(text, k) == SkipSpace(text, j)
    {
      k := k + 1;
    }
  }

  /** What follows one key: its value, when there is one, and where to look for the next key. */
  method NextValue(text: string, j: nat, scan: Scan) returns (found: seq<string>, next: nat)
    requires j <= |text|
    ensures (found, next) == ValueAt(text, j, scan)
  {
    hide Decode, SkipSpace;
    var k := SkipJsonSpace(text, j);
    if k >= |text| || text[k] != ':' {
      return [], j;
    }
    k := SkipJsonSpace(text, k + 1);
    if k >= |text| || text[k] != '"' {
      return [], j;
    }
    var value, used := DecodePartial(text[k + 1..], scan);
    return [value], k + 1 + used;
  }

  lemma ValuesStep(text: string, key: string, i: nat, out: seq<string>, scan: Scan)
    requires key != "" && i <= |text| && IndexFrom(text, key, i) <= |text|
    ensures var (found, next) := ValueAt(text, IndexFrom(text, key, i) + |key|, scan);
      out + ValuesFrom(text, key, i, scan) == out + found + ValuesFrom(text, key, next, scan)
  {
    hide ValueAt;
  }

  lemma NoMoreValues(text: string, key: string, i: nat, out: seq<string>, scan: Scan)
    requires key != "" && i <= |text| && IndexFrom(text, key, i) > |text|
    ensures out + ValuesFrom(text, key, i, scan) == out
  {
  }

  method PartialStrings(text: string, name: string, scan: Scan) returns (out: seq<string>)
    ensures out == Values(text, name, scan)
  {
    hide ValueAt, ValuesFrom, IndexFrom;
    out := [];
    var key := Key(name);
    var i := 0;
    assert out + ValuesFrom(text, key, 0, scan) == ValuesFrom(text, key, 0, scan);
    while true
      invariant i <= |text|
      invariant out + ValuesFrom(text, key, i, scan) == ValuesFrom(text, key, 0, scan)
      decreases |text| - i
    {
      var at := IndexFrom(text, key, i);
      if at > |text| {
        NoMoreValues(text, key, i, out, scan);
        return;
      }
      ValuesStep(text, key, i, out, scan);
      var found, next := NextValue(text, at + |key|, scan);
      out, i := out + found, next;
    }
  }

  // ---- Snapshots only grow.

  /** later shows everything earlier showed: the same values, the last of them possibly longer. */
  predicate Grows(earlier: seq<string>, later: seq<string>) {
    && |earlier| <= |later|
    && (forall i :: 0 <= i < |earlier| - 1 ==> earlier[i] == later[i])
    && (earlier != [] ==> earlier[|earlier| - 1] <= later[|earlier| - 1])
  }

  lemma {:induction false} DecodeGrows(s: string, t: string, scan: Scan)
    requires s <= t
    ensures Decode(s, scan).value <= Decode(t, scan).value
    ensures Decode(s, scan).closed ==> Decode(t, scan) == Decode(s, scan)
  {
    if s != "" {
      assert t[0] == s[0];
      if s[0] == '"' {
      } else if s[0] != '\\' {
        DecodeGrows(s[1..], t[1..], scan);
      } else {
        hide EscapeAt;
        var e := EscapeAt(s, scan);
        if e.Escape? {
          assert EscapeAt(t, scan) == EscapeAt(s, scan) by {
            assert |s| >= 6 ==> s[2..6] == t[2..6];
          }
          DecodeGrows(s[e.size..], t[e.size..], scan);
        }
      }
    }
  }

  lemma SkipInAPrefix(p: string, t: string, j: nat)
    requires p <= t && j <= |p|
    ensures SkipSpace(p, j) < |p| ==> SkipSpace(t, j) == SkipSpace(p, j)
    decreases |p| - j
  {
    if j < |p| && JsonSpace(p[j]) {
      SkipInAPrefix(p, t, j + 1);
    }
  }

  /** With no quote left, there is no value left. */
  lemma NoQuoteNoValue(p: string, key: string, i: nat, scan: Scan)
    requires key != "" && key[0] == '"'
    requires i <= |p| && forall j :: i <= j < |p| ==> p[j] != '"'
    ensures ValuesFrom(p, key, i, scan) == []
  {
    IndexMeans(p, key, i);
    var k := IndexFrom(p, key, i);
    if k <= |p| {
      OccursChar(p, key, k, 0);
    }
  }

  /** A value start found in a prefix is one of the text; when the prefix ends before deciding, it
      holds no further quote. */
  lemma ValueStartInAPrefix(p: string, t: string, j: nat)
    requires p <= t && j <= |p|
    ensures ValueStart(p, j) != 0 ==> ValueStart(t, j) == ValueStart(p, j)
    ensures ValueStart(p, j) == 0 ==> ValueStart(t, j) == 0 || forall i :: j <= i < |p| ==> p[i] != '"'
  {
    SkipInAPrefix(p, t, j);
    SkipSpaceMeans(p, j);
    var colon := SkipSpace(p, j);
    if colon < |p| && p[colon] == ':' {
      SkipInAPrefix(p, t, colon + 1);
      SkipSpaceMeans(p, colon + 1);
    }
  }

  lemma GrowsFromNothing(later: seq<string>)
    ensures Grows([], later)
  {
  }

  lemma ValueIsAt(text: string, j: nat, scan: Scan)
    requires j <= |text|
    ensures var v := ValueStart(text, j);
      ValueAt(text, j, scan)
      == if v == 0 then ([], j) else var d := Decode(text[v..], scan); ([d.value], v + d.used)
  {
    hide ValueStart, Decode;
  }

  lemma BodyInAPrefix(p: string, t: string, v: nat, scan: Scan)
    requires p <= t && v <= |p|
    ensures var d, e := Decode(p[v..], scan), Decode(t[v..], scan);
      d == e || (v + d.used == |p| && Grows([d.value], [e.value]))
  {
    hide Decode;
    assert p[v..] <= t[v..];
    DecodeGrows(p[v..], t[v..], scan);
  }

  /** The value after a key of a prefix: the same one when it ends there, else the last one of the
      prefix, which the text continues. */
  lemma ValueAtInAPrefix(p: string, t: string, key: string, j: nat, scan: Scan)
    requires key != "" && key[0] == '"'
    requires p <= t && j <= |p|
    ensures var (found, next) := ValueAt(p, j, scan);
      || ValueAt(t, j, scan) == (found, next)
      || (ValuesFrom(p, key, next, scan) == [] && Grows(found, ValueAt(t, j, scan).0))
  {
    hide *;
    ValueStartInAPrefix(p, t, j);
    ValueIsAt(p, j, scan);
    ValueIsAt(t, j, scan);
    var v := ValueStart(p, j);
    if v != 0 {
      BodyInAPrefix(p, t, v, scan);
      NoQuoteNoValue(p, key, |p|, scan);
    } else if ValueStart(t, j) != 0 {
      NoQuoteNoValue(p, key, j, scan);
      GrowsFromNothing(ValueAt(t, j, scan).0);
    }
  }

  lemma GrowsAfter(found: seq<string>, more: seq<string>, found': seq<string>, more': seq<string>)
    requires (found == found' && Grows(more, more')) || (more == [] && |found| <= 1 && Grows(found, found'))
    ensures Grows(found + more, found' + more')
  {
  }

  lemma {:induction false} ValuesGrow(p: string, t: string, key: string, i: nat, scan: Scan)
    requires key != "" && key[0] == '"'
    requires p <= t && i <= |p|
    ensures Grows(ValuesFrom(p, key, i, scan), ValuesFrom(t, key, i, scan))
    decreases |p| - i
  {
    hide ValueAt, Grows;
    var at := IndexFrom(p, key, i);
    if at <= |p| {
      assert IndexFrom(t, key, i) == IndexFrom(p, key, i) by {
        var k := IndexFrom(p, key, i);
        IndexMeans(p, key, i);
        assert t[k..k + |key|] == p[k..k + |key|];
        forall j | i <= j < k ensures !OccursAt(t, key, j) {
          assert j + |key| <= |p|;
          assert t[j..j + |key|] == p[j..j + |key|];
          assert !OccursAt(p, key, j);
        }
        IndexIs(t, key, i, k);
      }
      var j := at + |key|;
      ValueAtInAPrefix(p, t, key, j, scan);
      var (found, next) := ValueAt(p, j, scan);
      var (found', next') := ValueAt(t, j, scan);
      ValuesGrow(p, t, key, next, scan);
      GrowsAfter(found, ValuesFrom(p, key, next, scan), found', ValuesFrom(t, key, next', scan));
    } else {
      GrowsFromNothing(ValuesFrom(t, key, i, scan));
    }
  }

  /** Whatever the reply and wherever it is cut, what is shown of a field only grows. */
  lemma SnapshotsOnlyGrow(p: string, t: string, name: string, scan: Scan)
    requires p <= t
    ensures Grows(Values(p, name, scan), Values(t, name, scan))
  {
    ValuesGrow(p, t, Key(name), 0, scan);
  }

  // ---- What a JSON string means, and what the decoder makes of it.

  /** The characters of section 7 of RFC 8259: an unescaped byte, a short escape, or a \u escape. */
  datatype Unit =
    | Raw(c: char)
    | Short(c: char)
    | Unicode(digits: string)

  const SHORT: set<char> := {'"', '\\', '/', 'b', 'f', 'n', 'r', 't'}

  predicate Legal(u: Unit) {
    match u
    case Raw(c) => c as int >= 0x20 && c != '"' && c != '\\'
    case Short(c) => c in SHORT
    case Unicode(d) => AllHex(d)
  }

  predicate AllLegal(us: seq<Unit>) {
    forall u :: u in us ==> Legal(u)
  }

  function Written(u: Unit): (w: string)
    ensures w != ""
  {
    match u
    case Raw(c) => [c]
    case Short(c) => ['\\', c]
    case Unicode(d) => "\\u" + d
  }

  function WrittenAll(us: seq<Unit>): string {
    if us == [] then "" else Written(us[0]) + WrittenAll(us[1..])
  }

  predicate High(u: Unit) {
    u.Unicode? && AllHex(u.digits) && 0xD800 <= Hex4(u.digits) < 0xDC00
  }

  predicate Low(u: Unit) {
    u.Unicode? && AllHex(u.digits) && 0xDC00 <= Hex4(u.digits) < 0xE000
  }

  predicate Surrogate(u: Unit) {
    High(u) || Low(u)
  }

  /** The UTF-8 form of the character a surrogate pair stands for. */
  function PairBytes(high: Unit, low: Unit): (r: string)
    requires High(high) && Low(low)
  {
    var v := 0x1_0000 + (Hex4(high.digits) - 0xD800) * 0x400 + (Hex4(low.digits) - 0xDC00);
    [Byte(0xF0 + v / 0x4_0000), Byte(0x80 + v / 0x1000 % 64), Byte(0x80 + v / 64 % 64), Byte(0x80 + v % 64)]
  }

  /** What one character means, but for a surrogate. */
  function UnitMeaning(u: Unit): string
    requires Legal(u)
  {
    match u
    case Raw(c) => [c]
    case Short(c) =>
      if c == 'n' then "\n" else if c == 't' then "\t" else if c == 'r' then "\r"
      else if c == 'b' then [8 as char] else if c == 'f' then [12 as char] else [c]
    case Unicode(d) => RuneBytes(Hex4(d))
  }

  /** The text a string stands for, or none: a surrogate on its own stands for no character. */
  datatype Meant = Text(text: string) | NoText

  function Prepend(text: string, m: Meant): Meant {
    if m.Text? then Text(text + m.text) else NoText
  }

  /** Sections 7 and 8.2 of RFC 8259: a surrogate pair is one character. */
  function Meaning(us: seq<Unit>): Meant
    requires AllLegal(us)
  {
    if us == [] then Text("")
    else if |us| > 1 && High(us[0]) && Low(us[1]) then Prepend(PairBytes(us[0], us[1]), Meaning(us[2..]))
    else if Surrogate(us[0]) then NoText
    else Prepend(UnitMeaning(us[0]), Meaning(us[1..]))
  }

  /** What the decoder writes for one character. */
  function UnitText(u: Unit): string
    requires Legal(u)
  {
    match u
    case Raw(c) => [c]
    case Short(c) => if c == 'n' then "\n" else if c == 't' then "\t" else if c == 'r' then "" else [c]
    case Unicode(d) => RuneBytes(Hex4(d))
  }

  function DecodedText(us: seq<Unit>): string
    requires AllLegal(us)
  {
    if us == [] then "" else UnitText(us[0]) + DecodedText(us[1..])
  }

  lemma LegalAfter(us: seq<Unit>)
    requires AllLegal(us) && us != []
    ensures Legal(us[0]) && AllLegal(us[1..])
    ensures |us| > 1 ==> Legal(us[1]) && AllLegal(us[2..]) && us[1..][1..] == us[2..] && us[1..][0] == us[1]
  {
    assert us[0] in us;
    assert forall u :: u in us[1..] ==> u in us;
    if |us| > 1 {
      assert us[1] in us;
      assert forall u :: u in us[2..] ==> u in us;
    }
  }

  lemma UnitStep(u: Unit, rest: string, scan: Scan)
    requires Legal(u) && ReadsHex(scan)
    ensures var s := Written(u) + rest;
      && s[0] != '"'
      && (s[0] != '\\' ==> UnitText(u) == [s[0]] && |Written(u)| == 1)
      && (s[0] == '\\' ==> EscapeAt(s, scan) == Escape(UnitText(u), |Written(u)|))
  {
    hide RuneBytes, Hex4;
    var s := Written(u) + rest;
    if u.Unicode? {
      assert s[2..6] == u.digits;
    }
  }

  lemma QuoteCloses(rest: string, scan: Scan)
    ensures Decode("" + "\"" + rest, scan) == Decoded("", 1, true)
  {
  }

  /** What the decoder makes of any legal string, whatever follows its quote. */
  lemma {:induction false} DecodeUndoesWriting(us: seq<Unit>, rest: string, scan: Scan)
    requires ReadsHex(scan) && AllLegal(us)
    ensures Decode(WrittenAll(us) + "\"" + rest, scan) == Decoded(DecodedText(us), |WrittenAll(us)| + 1, true)
  {
    hide Decode, Legal, UnitText, Written;
    if us == [] {
      QuoteCloses(rest, scan);
    } else {
      LegalAfter(us);
      var tail := WrittenAll(us[1..]) + "\"" + rest;
      DecodeUndoesWriting(us[1..], rest, scan);
      assert Decode(Written(us[0]) + tail, scan) == After(|Written(us[0])|, UnitText(us[0]), Decode(tail, scan)) by {
        hide RuneBytes, Hex4, Decode, Written, EscapeAt;
        var s := Written(us[0]) + tail;
        assert s[|Written(us[0])|..] == tail;
        assert s[0..] == s && "" + UnitText(us[0]) == UnitText(us[0]);
        UnitStep(us[0], tail, scan);
        DecodeStep(s, 0, "", UnitText(us[0]), |Written(us[0])|, scan);
        DecodeStarts(s, scan);
      }
      assert WrittenAll(us) + "\"" + rest == Written(us[0]) + tail;
    }
  }

  /** The escapes the decoder has no place for: \r, \b, \f and the surrogates. */
  predicate Mistaken(u: Unit) {
    (u.Short? && u.c in {'r', 'b', 'f'}) || Surrogate(u)
  }

  predicate NoneMistaken(us: seq<Unit>) {
    forall u :: u in us ==> !Mistaken(u)
  }

  /** The bytes that only such an escape, or the same byte unescaped or in hex, puts in a meaning. */
  predicate Marked(c: char) {
    c as int in {8, 12, 13} || c as int >= 0xF0
  }

  function Marks(s: string): nat {
    if s == "" then 0 else (if Marked(s[0]) then 1 else 0) + Marks(s[1..])
  }

  lemma {:induction false} MarksAppend(a: string, b: string)
    ensures Marks(a + b) == Marks(a) + Marks(b)
  {
    hide Marked;
    if a == "" {
      assert a + b == b;
    } else {
      MarksAppend(a[1..], b);
      assert (a + b)[1..] == a[1..] + b && (a + b)[0] == a[0];
    }
  }

  lemma PairIsMarked(high: Unit, low: Unit)
    requires High(high) && Low(low)
    ensures Marks(PairBytes(high, low)) > 0
  {
    hide Hex4;
    assert Marked(PairBytes(high, low)[0]);
    hide Marked;
  }

  /** A mistaken escape loses its mark, and no other character loses or wins one. */
  lemma UnitMarks(u: Unit)
    requires Legal(u)
    ensures !Surrogate(u) ==> Marks(UnitMeaning(u)) == Marks(UnitText(u)) + if Mistaken(u) then 1 else 0
    ensures !Mistaken(u) ==> UnitMeaning(u) == UnitText(u)
    ensures Surrogate(u) ==> Marks(UnitText(u)) == 0
  {
    if u.Unicode? {
      if Surrogate(u) {
        assert Marks(RuneBytes(Hex4(u.digits))) == 0 by {
          var a, b, c := Byte(0xEF), Byte(0xBF), Byte(0xBD);
          assert RuneBytes(Hex4(u.digits)) == [a] + ([b] + [c]);
          assert !Marked(a) && !Marked(b) && !Marked(c);
          hide *;
          MarksAppend([a], [b] + [c]);
          MarksAppend([b], [c]);
        }
      }
    } else if u.Short? {
    }
  }

  /** The meaning has the marks of the decoded text, and more when a character is mistaken. */
  lemma {:induction false} MeaningMarks(us: seq<Unit>)
    requires AllLegal(us) && Meaning(us).Text?
    ensures Marks(DecodedText(us)) <= Marks(Meaning(us).text)
    ensures Marks(DecodedText(us)) == Marks(Meaning(us).text) ==> NoneMistaken(us)
    decreases |us|
  {
    hide Legal, AllLegal, UnitMeaning, UnitText, PairBytes, High, Low, Mistaken, Marks;
    if us != [] {
      LegalAfter(us);
      var u, more := us[0], us[1..];
      UnitMarks(u);
      MarksAppend(UnitText(u), DecodedText(more));
      if |us| > 1 && High(u) && Low(us[1]) {
        var after := us[2..];
        MeaningMarks(after);
        UnitMarks(us[1]);
        PairIsMarked(u, us[1]);
        MarksAppend(UnitText(us[1]), DecodedText(after));
        MarksAppend(PairBytes(u, us[1]), Meaning(after).text);
      } else {
        MeaningMarks(more);
        MarksAppend(UnitMeaning(u), Meaning(more).text);
        assert us == [u] + more;
      }
    }
  }

  lemma {:induction false} DecodedMeaning(us: seq<Unit>)
    requires AllLegal(us) && NoneMistaken(us)
    ensures Meaning(us) == Text(DecodedText(us))
  {
    hide Legal, AllLegal, UnitMeaning, UnitText, PairBytes, Mistaken, Marks;
    if us != [] {
      LegalAfter(us);
      UnitMarks(us[0]);
      assert us[0] in us;
      NotASurrogate(us[0]);
      assert forall u :: u in us[1..] ==> u in us;
      DecodedMeaning(us[1..]);
    }
  }

  lemma NotASurrogate(u: Unit)
    requires !Mistaken(u)
    ensures !Surrogate(u)
  {
    hide High, Low;
  }

  /** Decoding any legal JSON string gives the text it stands for exactly when it has no \r, \b, \f
      and no surrogate escape, whatever follows its closing quote. */
  lemma DecodeUndoesJson(us: seq<Unit>, rest: string, scan: Scan)
    requires ReadsHex(scan) && AllLegal(us)
    ensures var d := Decode(WrittenAll(us) + "\"" + rest, scan);
      && d.closed && d.used == |WrittenAll(us)| + 1
      && (Meaning(us) == Text(d.value) <==> NoneMistaken(us))
  {
    DecodeUndoesWriting(us, rest, scan);
    hide *;
    if NoneMistaken(us) {
      DecodedMeaning(us);
    } else if Meaning(us).Text? {
      MeaningMarks(us);
    }
  }

  lemma OneEscape(c: char, rest: string, scan: Scan)
    requires ReadsHex(scan) && c in SHORT
    ensures var us := [Short(c)];
      && AllLegal(us) && Decode(WrittenAll(us) + "\"" + rest, scan).value == UnitText(Short(c))
      && Meaning(us) == Text(UnitMeaning(Short(c)))
  {
    assert Legal(Short(c)) && !Surrogate(Short(c));
    hide *;
    DecodeUndoesWriting([Short(c)], rest, scan);
  }

  /** Where it fails: a backspace decodes to the letter b, a form feed to f, a carriage return to
      nothing. */
  lemma MistakenEscapes(rest: string, scan: Scan)
    requires ReadsHex(scan)
    ensures Decode(WrittenAll([Short('b')]) + "\"" + rest, scan).value == "b"
    ensures AllLegal([Short('b')]) && Meaning([Short('b')]) == Text([8 as char])
    ensures Decode(WrittenAll([Short('f')]) + "\"" + rest, scan).value == "f"
    ensures AllLegal([Short('f')]) && Meaning([Short('f')]) == Text([12 as char])
    ensures Decode(WrittenAll([Short('r')]) + "\"" + rest, scan).value == ""
    ensures AllLegal([Short('r')]) && Meaning([Short('r')]) == Text("\r")
  {
    hide Decode, Meaning, WrittenAll, AllLegal;
    OneEscape('b', rest, scan);
    OneEscape('f', rest, scan);
    OneEscape('r', rest, scan);
  }

  /** And a surrogate pair to two replacement characters, six bytes for the four of its character. */
  lemma MistakenPair(high: Unit, low: Unit, rest: string, scan: Scan)
    requires ReadsHex(scan) && High(high) && Low(low)
    ensures var us := [high, low];
      && AllLegal(us) && Meaning(us) == Text(PairBytes(high, low)) && |PairBytes(high, low)| == 4
      && |Decode(WrittenAll(us) + "\"" + rest, scan).value| == 6
    ensures High(Unicode("d83d")) && Low(Unicode("de00"))
  {
    assert |UnitText(high)| == 3 == |UnitText(low)|;
    assert High(Unicode("d83d")) && Low(Unicode("de00")) by {
      var d, e := "d83d", "de00";
      assert d[0] == 'd' && d[1] == '8' && d[2] == '3' && d[3] == 'd';
      assert e[0] == 'd' && e[1] == 'e' && e[2] == '0' && e[3] == '0';
    }
    hide Decode, UnitText, High, Low, Legal, WrittenAll, PairBytes;
    var us := [high, low];
    DecodeUndoesWriting(us, rest, scan);
    assert us[1..] == [low] && us[2..] == [];
    assert PairBytes(high, low) + "" == PairBytes(high, low);
    assert DecodedText([low]) == UnitText(low) + "" by { assert [low][1..] == []; }
  }

  // ---- The field of an object.

  predicate AllSpace(s: string) {
    forall c :: c in s ==> JsonSpace(c)
  }

  lemma {:induction false} SpaceIsSkipped(text: string, j: nat, k: nat)
    requires j <= k <= |text| && (forall i :: j <= i < k ==> JsonSpace(text[i])) && (k < |text| ==> !JsonSpace(text[k]))
    ensures SkipSpace(text, j) == k
    decreases k - j
  {
    if j < k {
      SpaceIsSkipped(text, j + 1, k);
    }
  }

  /** Space, then a byte that is none. */
  lemma SpaceThen(text: string, j: nat, space: string, c: char, rest: string)
    requires j <= |text| && text[j..] == space + ([c] + rest) && AllSpace(space) && !JsonSpace(c)
    ensures SkipSpace(text, j) == j + |space| < |text| && text[j + |space|] == c
    ensures text[j + |space| + 1..] == rest
  {
    hide JsonSpace, SkipSpace;
    var k := j + |space|;
    assert |text| == k + 1 + |rest|;
    forall i | j <= i < k ensures JsonSpace(text[i]) {
      assert text[i] == text[j..][i - j] == space[i - j];
      assert space[i - j] in space;
    }
    assert text[k] == text[j..][k - j] == c;
    assert text[k + 1..] == text[j..][k + 1 - j..] == rest;
    SpaceIsSkipped(text, j, k);
  }

  /** A member of an object after its name: a colon and a string, with any space JSON allows. */
  function MemberText(before: string, after: string, us: seq<Unit>, rest: string): string {
    before + ([':'] + (after + (['"'] + (WrittenAll(us) + "\"" + rest))))
  }

  lemma MemberStarts(text: string, j: nat, before: string, after: string, us: seq<Unit>, rest: string)
    requires j <= |text| && AllSpace(before) && AllSpace(after) && text[j..] == MemberText(before, after, us, rest)
    ensures var v := ValueStart(text, j);
      v == j + |before| + |after| + 2 <= |text| && text[v..] == WrittenAll(us) + "\"" + rest
  {
    assert !JsonSpace(':') && !JsonSpace('"');
    hide SkipSpace, WrittenAll, AllSpace, JsonSpace;
    var body := WrittenAll(us) + "\"" + rest;
    SpaceThen(text, j, before, ':', after + (['"'] + body));
    SpaceThen(text, j + |before| + 1, after, '"', body);
  }

  /** Wherever the name of a field is found in a reply and a string follows it, that string is shown next,
      and the search goes on after its closing quote. What is shown is what the string means exactly when
      it has no mistaken escape. */
  lemma FieldRoundTrips(text: string, name: string, i: nat, before: string, after: string, us: seq<Unit>,
                        rest: string, scan: Scan)
    requires ReadsHex(scan) && AllLegal(us) && AllSpace(before) && AllSpace(after)
    requires i <= |text| && IndexFrom(text, Key(name), i) <= |text|
    requires text[IndexFrom(text, Key(name), i) + |Key(name)|..] == MemberText(before, after, us, rest)
    ensures |rest| <= |text|
    ensures var shown := ValuesFrom(text, Key(name), i, scan);
      && shown != [] && shown[1..] == ValuesFrom(text, Key(name), |text| - |rest|, scan)
      && (Meaning(us) == Text(shown[0]) <==> NoneMistaken(us))
  {
    hide *;
    var key := Key(name);
    var j := IndexFrom(text, key, i) + |key|;
    MemberStarts(text, j, before, after, us, rest);
    DecodeUndoesJson(us, rest, scan);
    var v := ValueStart(text, j);
    var d := Decode(text[v..], scan);
    assert |text[v..]| == |WrittenAll(us)| + 1 + |rest|;
    ValueIsAt(text, j, scan);
    ValuesStep(text, key, i, [], scan);
    var more := ValuesFrom(text, key, |text| - |rest|, scan);
    assert [] + [d.value] + more == [d.value] + more;
    assert [] + ValuesFrom(text, key, i, scan) == ValuesFrom(text, key, i, scan);
    assert ([d.value] + more)[1..] == more;
  }
}
