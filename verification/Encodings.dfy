/** Texts as the three implementations hold them: code points in Python, UTF-16 units in JavaScript, UTF-8 bytes in the
    engine. The text tests and sizes agree. */
module Encodings {
  import opened Values
  import opened Plans

  type Unit = nat

  /** How a code point is written, which units begin one, and which code points can be written at all. */
  datatype Encoding = Encoding(write: Code -> seq<Unit>, leads: Unit -> bool, covers: Code -> bool)

  /** Only the first unit of a code point is a leading one, and no code point is written as the beginning of another. */
  ghost predicate SelfSynchronizing(e: Encoding) {
    && (forall c: Code :: e.covers(c) ==> WrittenOnce(e, c))
    && (forall c: Code, d: Code :: e.covers(c) && e.covers(d) && e.write(c) <= e.write(d) ==> c == d)
  }

  predicate Covers(e: Encoding, t: Text) {
    forall i :: 0 <= i < |t| ==> e.covers(t[i])
  }

  predicate WrittenOnce(e: Encoding, c: Code) {
    && e.write(c) != [] && e.leads(e.write(c)[0])
    && forall i :: 1 <= i < |e.write(c)| ==> !e.leads(e.write(c)[i])
  }

  function Write(e: Encoding, t: Text): seq<Unit> {
    if t == [] then [] else e.write(t[0]) + Write(e, t[1..])
  }

  predicate UnitsStartWith(s: seq<Unit>, prefix: seq<Unit>) {
    prefix <= s
  }

  predicate UnitsEndWith(s: seq<Unit>, suffix: seq<Unit>) {
    |suffix| <= |s| && s[|s| - |suffix|..] == suffix
  }

  predicate UnitsContain(s: seq<Unit>, part: seq<Unit>) {
    exists i :: 0 <= i <= |s| && part <= s[i..]
  }

  lemma {:induction false} WriteConcat(e: Encoding, a: Text, b: Text)
    ensures Write(e, a + b) == Write(e, a) + Write(e, b)
  {
    if a == [] {
      assert a + b == b;
    } else {
      assert (a + b)[0] == a[0] && (a + b)[1..] == a[1..] + b;
      WriteConcat(e, a[1..], b);
    }
  }

  lemma {:induction false} BothPrefixes(x: seq<Unit>, y: seq<Unit>, s: seq<Unit>)
    requires x <= s && y <= s && |x| <= |y|
    ensures x <= y
  {
    assert x == s[..|x|] == y[..|x|];
  }

  lemma {:induction false} PrefixOfText(e: Encoding, t: Text, p: Text)
    requires SelfSynchronizing(e) && Covers(e, t) && Covers(e, p) && Write(e, p) <= Write(e, t)
    ensures p <= t
  {
    if p != [] {
      assert WrittenOnce(e, p[0]);
      var c, d, s := p[0], t[0], Write(e, t);
      assert e.write(c) <= s && e.write(d) <= s;
      if |e.write(c)| <= |e.write(d)| {
        BothPrefixes(e.write(c), e.write(d), s);
      } else {
        BothPrefixes(e.write(d), e.write(c), s);
      }
      assert c == d;
      assert Write(e, p[1..]) == Write(e, p)[|e.write(c)|..] <= s[|e.write(c)|..] == Write(e, t[1..]);
      PrefixOfText(e, t[1..], p[1..]);
      assert t == [d] + t[1..] && p == [c] + p[1..];
    }
  }

  lemma {:induction false} PrefixesAgree(e: Encoding, t: Text, p: Text)
    requires SelfSynchronizing(e) && Covers(e, t) && Covers(e, p)
    ensures UnitsStartWith(Write(e, t), Write(e, p)) <==> StartsWith(t, p)
  {
    if Write(e, p) <= Write(e, t) {
      PrefixOfText(e, t, p);
    }
    if p <= t {
      WriteConcat(e, p, t[|p|..]);
      assert t == p + t[|p|..];
    }
  }

  lemma {:induction false} WriteInjective(e: Encoding, t: Text, p: Text)
    requires SelfSynchronizing(e) && Covers(e, t) && Covers(e, p)
    ensures Write(e, t) == Write(e, p) <==> t == p
  {
    PrefixesAgree(e, t, p);
    PrefixesAgree(e, p, t);
  }

  /** A leading unit is at a boundary between code points. */
  lemma {:induction false} Boundary(e: Encoding, t: Text, i: nat) returns (k: nat)
    requires SelfSynchronizing(e) && Covers(e, t) && i < |Write(e, t)| && e.leads(Write(e, t)[i])
    ensures k < |t| && Write(e, t)[i..] == Write(e, t[k..])
  {
    var n := |e.write(t[0])|;
    if i < n {
      assert WrittenOnce(e, t[0]);
      k := 0;
    } else {
      assert Write(e, t)[i] == Write(e, t[1..])[i - n];
      var j := Boundary(e, t[1..], i - n);
      k := j + 1;
      assert t[1..][j..] == t[k..];
      assert Write(e, t)[i..] == Write(e, t[1..])[i - n..];
    }
  }

  lemma {:induction false} FirstLeads(e: Encoding, p: Text)
    requires SelfSynchronizing(e) && Covers(e, p) && p != []
    ensures Write(e, p) != [] && e.leads(Write(e, p)[0])
  {
    assert WrittenOnce(e, p[0]);
  }

  /** An occurrence of the written text is an occurrence of the text. */
  lemma {:induction false} PartRead(e: Encoding, t: Text, p: Text, i: nat)
    requires SelfSynchronizing(e) && Covers(e, t) && Covers(e, p) && p != []
    requires i <= |Write(e, t)| && Write(e, p) <= Write(e, t)[i..]
    ensures Contains(t, p)
  {
    hide Write, SelfSynchronizing, Covers;
    FirstLeads(e, p);
    var s, w := Write(e, t), Write(e, p);
    assert s[i..][0] == w[0];
    var k := Boundary(e, t, i);
    CoveredRest(e, t, k);
    PrefixesAgree(e, t[k..], p);
    assert p <= t[k..];
  }

  lemma {:induction false} CoveredRest(e: Encoding, t: Text, k: nat)
    requires Covers(e, t) && k <= |t|
    ensures Covers(e, t[k..]) && Covers(e, t[..k])
  {
  }

  lemma {:induction false} PartsAgree(e: Encoding, t: Text, p: Text)
    requires SelfSynchronizing(e) && Covers(e, t) && Covers(e, p)
    ensures UnitsContain(Write(e, t), Write(e, p)) <==> Contains(t, p)
  {
    if p == [] {
      assert Write(e, p) <= Write(e, t)[0..] && p <= t[0..];
    } else {
      hide Write, SelfSynchronizing, Covers;
      var s, w := Write(e, t), Write(e, p);
      if UnitsContain(s, w) {
        var i :| 0 <= i <= |s| && w <= s[i..];
        PartRead(e, t, p, i);
      }
      if Contains(t, p) {
        var k :| 0 <= k <= |t| && p <= t[k..];
        CoveredRest(e, t, k);
        PrefixesAgree(e, t[k..], p);
        WriteConcat(e, t[..k], t[k..]);
        assert t == t[..k] + t[k..];
        assert s[|Write(e, t[..k])|..] == Write(e, t[k..]);
      }
    }
  }

  lemma {:induction false} SuffixesAgree(e: Encoding, t: Text, p: Text)
    requires SelfSynchronizing(e) && Covers(e, t) && Covers(e, p)
    ensures UnitsEndWith(Write(e, t), Write(e, p)) <==> EndsWith(t, p)
  {
    if p != [] {
      FirstLeads(e, p);
      var s, w := Write(e, t), Write(e, p);
      if UnitsEndWith(s, w) {
        var i := |s| - |w|;
        assert s[i] == w[0];
        var k := Boundary(e, t, i);
        WriteInjective(e, t[k..], p);
      }
      if EndsWith(t, p) {
        var k := |t| - |p|;
        WriteConcat(e, t[..k], t[k..]);
        assert t == t[..k] + t[k..];
      }
    }
  }

  predicate UnitsTested(test: TextTest, s: seq<Unit>, argument: seq<Unit>) {
    match test
    case TestStartsWith => UnitsStartWith(s, argument)
    case TestEndsWith => UnitsEndWith(s, argument)
    case TestContains => UnitsContain(s, argument)
  }

  /** The text tests do not depend on the encoding. */
  lemma {:induction false} TestsAgree(e: Encoding, test: TextTest, t: Text, argument: Text)
    requires SelfSynchronizing(e) && Covers(e, t) && Covers(e, argument)
    ensures UnitsTested(test, Write(e, t), Write(e, argument)) <==> TextTested(test, t, argument)
  {
    PrefixesAgree(e, t, argument);
    SuffixesAgree(e, t, argument);
    PartsAgree(e, t, argument);
  }

  // ----- UTF-16 -----

  predicate IsHigh(u: Unit) {
    0xD800 <= u <= 0xDBFF
  }

  predicate IsLow(u: Unit) {
    0xDC00 <= u <= 0xDFFF
  }

  function WriteUtf16(c: Code): seq<Unit> {
    if c < 0x10000 then [c] else [0xD800 + (c - 0x10000) / 0x400, 0xDC00 + (c - 0x10000) % 0x400]
  }

  const UTF_16: Encoding := Encoding(WriteUtf16, (u: Unit) => !IsLow(u), (c: Code) => !IsSurrogate(c))

  lemma {:induction false} Utf16Synchronizes()
    ensures SelfSynchronizing(UTF_16)
  {
    forall c: Code, d: Code | !IsSurrogate(c) && !IsSurrogate(d) && WriteUtf16(c) <= WriteUtf16(d)
      ensures c == d
    {
      var s, w := WriteUtf16(c), WriteUtf16(d);
      assert s[0] == w[0];
      if |s| == 2 {
        assert s[1] == w[1];
        assert c == 0x10000 + (s[0] - 0xD800) * 0x400 + (s[1] - 0xDC00);
        assert d == 0x10000 + (w[0] - 0xD800) * 0x400 + (w[1] - 0xDC00);
      }
    }
  }

  /** `isWellFormed`: every surrogate is one half of a pair. */
  predicate WellFormedUtf16(s: seq<Unit>) {
    if s == [] then true
    else if IsHigh(s[0]) then |s| >= 2 && IsLow(s[1]) && WellFormedUtf16(s[2..])
    else s[0] < 0x10000 && !IsLow(s[0]) && WellFormedUtf16(s[1..])
  }

  /** Section 3.9 of the Unicode Standard, on well-formed strings. */
  function ReadUtf16(s: seq<Unit>): (t: Text)
    requires WellFormedUtf16(s)
    ensures WellFormed(t)
  {
    if s == [] then []
    else if IsHigh(s[0]) then [0x10000 + (s[0] - 0xD800) * 0x400 + (s[1] - 0xDC00)] + ReadUtf16(s[2..])
    else [s[0]] + ReadUtf16(s[1..])
  }

  /** Reading and writing are inverse to each other. */
  lemma {:induction false} WriteAfterRead(s: seq<Unit>)
    requires WellFormedUtf16(s)
    ensures Write(UTF_16, ReadUtf16(s)) == s
  {
    if s != [] {
      var t := ReadUtf16(s);
      if IsHigh(s[0]) {
        WriteAfterRead(s[2..]);
        assert t[1..] == ReadUtf16(s[2..]) && WriteUtf16(t[0]) == [s[0], s[1]];
      } else {
        WriteAfterRead(s[1..]);
        assert t[1..] == ReadUtf16(s[1..]) && WriteUtf16(t[0]) == [s[0]];
      }
    }
  }

  lemma {:induction false} ReadAfterWrite(t: Text)
    requires WellFormed(t)
    ensures WellFormedUtf16(Write(UTF_16, t)) && ReadUtf16(Write(UTF_16, t)) == t
  {
    if t != [] {
      ReadAfterWrite(t[1..]);
      var s := Write(UTF_16, t);
      if t[0] < 0x10000 {
        assert s[1..] == Write(UTF_16, t[1..]);
      } else {
        assert s[2..] == Write(UTF_16, t[1..]);
      }
      assert t == [t[0]] + t[1..];
    }
  }

  function NotHigh(s: seq<Unit>): nat {
    if s == [] then 0 else (if IsHigh(s[|s| - 1]) then 0 else 1) + NotHigh(s[..|s| - 1])
  }

  lemma {:induction false} NotHighConcat(a: seq<Unit>, b: seq<Unit>)
    ensures NotHigh(a + b) == NotHigh(a) + NotHigh(b)
  {
    if b == [] {
      assert a + b == a;
    } else {
      var n := |b| - 1;
      assert (a + b)[..|a + b| - 1] == a + b[..n];
      NotHighConcat(a, b[..n]);
    }
  }

  lemma {:induction false} SizeIsCount(s: seq<Unit>)
    requires WellFormedUtf16(s)
    ensures NotHigh(s) == |ReadUtf16(s)|
  {
    if s != [] {
      var n := if IsHigh(s[0]) then 2 else 1;
      SizeIsCount(s[n..]);
      NotHighConcat(s[..n], s[n..]);
      assert s == s[..n] + s[n..];
      assert s[..n][..n - 1] == s[..n - 1];
      assert n == 2 ==> NotHigh(s[..1]) == 0 by {
        assert s[..1] == [s[0]] && s[..1][..0] == [];
      }
    }
  }

  /** `stringSize`: the units that are not high surrogates are as many as the code points. */
  method StringSize(text: seq<Unit>) returns (count: nat)
    requires WellFormedUtf16(text)
    ensures count == |ReadUtf16(text)|
  {
    count := 0;
    for index := 0 to |text|
      invariant count == NotHigh(text[..index])
    {
      assert text[..index + 1][..index] == text[..index];
      if text[index] < 0xD800 || text[index] > 0xDBFF {
        count := count + 1;
      }
    }
    assert text[..|text|] == text;
    SizeIsCount(text);
  }

  // ----- UTF-8, with the three-byte form of lone surrogates that no well-formed text contains -----

  function WriteUtf8(c: Code): seq<Unit> {
    if c < 0x80 then [c]
    else if c < 0x800 then [0xC0 + c / 0x40, 0x80 + c % 0x40]
    else if c < 0x10000 then [0xE0 + c / 0x1000, 0x80 + c / 0x40 % 0x40, 0x80 + c % 0x40]
    else [0xF0 + c / 0x40000, 0x80 + c / 0x1000 % 0x40, 0x80 + c / 0x40 % 0x40, 0x80 + c % 0x40]
  }

  const UTF_8: Encoding := Encoding(WriteUtf8, (b: Unit) => b < 0x80 || b >= 0xC0, (c: Code) => true)

  lemma {:induction false} Utf8Synchronizes()
    ensures SelfSynchronizing(UTF_8)
  {
    forall c: Code, d: Code | WriteUtf8(c) <= WriteUtf8(d)
      ensures c == d
    {
      Utf8PrefixFree(c, d);
    }
  }

  /** The code point of a UTF-8 sequence, by the number of its bytes. */
  function ReadUtf8(s: seq<Unit>): int
    requires 1 <= |s| <= 4
  {
    if |s| == 1 then s[0]
    else if |s| == 2 then (s[0] as int - 0xC0) * 0x40 + (s[1] as int - 0x80)
    else if |s| == 3 then (s[0] as int - 0xE0) * 0x1000 + (s[1] as int - 0x80) * 0x40 + (s[2] as int - 0x80)
    else
      (s[0] as int - 0xF0) * 0x40000 + (s[1] as int - 0x80) * 0x1000 +
      (s[2] as int - 0x80) * 0x40 + (s[3] as int - 0x80)
  }

  lemma {:induction false} Utf8Reads(c: Code)
    ensures ReadUtf8(WriteUtf8(c)) == c
  {
    assert c / 0x40 / 0x40 == c / 0x1000 && c / 0x1000 / 0x40 == c / 0x40000;
  }

  /** The first byte tells how many there are. */
  function Utf8Length(lead: Unit): nat {
    if lead < 0x80 then 1 else if lead < 0xE0 then 2 else if lead < 0xF0 then 3 else 4
  }

  lemma {:induction false} Utf8PrefixFree(c: Code, d: Code)
    requires WriteUtf8(c) <= WriteUtf8(d)
    ensures c == d
  {
    var s, w := WriteUtf8(c), WriteUtf8(d);
    assert Utf8Length(s[0]) == |s| && Utf8Length(w[0]) == |w|;
    assert s[0] == w[0] && s == w[..|s|];
    assert s == w;
    Utf8Reads(c);
    Utf8Reads(d);
  }

  /** Lexicographic order of units. */
  predicate UnitsLess(a: seq<Unit>, b: seq<Unit>) {
    b != [] && (a == [] || a[0] < b[0] || (a[0] == b[0] && UnitsLess(a[1..], b[1..])))
  }

  lemma {:induction false} SamePrefix(p: seq<Unit>, a: seq<Unit>, b: seq<Unit>)
    ensures UnitsLess(p + a, p + b) <==> UnitsLess(a, b)
  {
    if p == [] {
      assert p + a == a && p + b == b;
    } else {
      SamePrefix(p[1..], a, b);
      assert (p + a)[1..] == p[1..] + a && (p + b)[1..] == p[1..] + b;
    }
  }

  lemma {:induction false} FirstDifference(a: seq<Unit>, b: seq<Unit>, k: nat)
    requires k < |a| && k < |b| && a[..k] == b[..k] && a[k] < b[k]
    ensures UnitsLess(a, b) && !UnitsLess(b, a)
  {
    SamePrefix(a[..k], a[k..], b[k..]);
    SamePrefix(a[..k], b[k..], a[k..]);
    assert a == a[..k] + a[k..] && b == a[..k] + b[k..];
  }

  /** The six low bits decide where the others are the same. */
  lemma {:induction false} SixBits(c: nat, d: nat)
    ensures c < d ==> c / 0x40 < d / 0x40 || (c / 0x40 == d / 0x40 && c % 0x40 < d % 0x40)
  {
  }

  lemma {:induction false} LeadOrdered(c: Code, d: Code)
    requires c < d && |WriteUtf8(c)| != |WriteUtf8(d)|
    ensures WriteUtf8(c)[0] < WriteUtf8(d)[0]
  {
  }

  lemma {:induction false} HighBits(c: Code)
    ensures c / 0x1000 == c / 0x40 / 0x40 && c / 0x40000 == c / 0x40 / 0x40 / 0x40
  {
  }

  /** Where the bytes of a smaller code point first differ, they are smaller. */
  lemma {:induction false} Utf8Ordered(c: Code, d: Code) returns (k: nat)
    requires c < d
    ensures var s, w := WriteUtf8(c), WriteUtf8(d); k < |s| && k < |w| && s[..k] == w[..k] && s[k] < w[k]
  {
    if |WriteUtf8(c)| != |WriteUtf8(d)| {
      LeadOrdered(c, d);
      k := 0;
    } else {
      HighBits(c);
      HighBits(d);
      SixBits(c, d);
      SixBits(c / 0x40, d / 0x40);
      SixBits(c / 0x40 / 0x40, d / 0x40 / 0x40);
      k := SameLength(c, d, c / 0x40, d / 0x40, c / 0x40 / 0x40, d / 0x40 / 0x40);
    }
  }

  lemma {:induction false} SameLength(c: Code, d: Code, c1: nat, d1: nat, c2: nat, d2: nat) returns (k: nat)
    requires c < d && |WriteUtf8(c)| == |WriteUtf8(d)|
    requires c1 == c / 0x40 && d1 == d / 0x40 && c2 == c / 0x1000 && d2 == d / 0x1000
    requires c / 0x40000 == c2 / 0x40 && d / 0x40000 == d2 / 0x40
    requires c1 < d1 || (c1 == d1 && c % 0x40 < d % 0x40)
    requires c1 < d1 ==> c2 < d2 || (c2 == d2 && c1 % 0x40 < d1 % 0x40)
    requires c2 < d2 ==> c2 / 0x40 < d2 / 0x40 || (c2 / 0x40 == d2 / 0x40 && c2 % 0x40 < d2 % 0x40)
    requires c1 == d1 ==> c2 == d2
    ensures var s, w := WriteUtf8(c), WriteUtf8(d); k < |s| && k < |w| && s[..k] == w[..k] && s[k] < w[k]
  {
    var s, w, n := WriteUtf8(c), WriteUtf8(d), |WriteUtf8(c)|;
    if n == 1 {
      k := 0;
    } else if n == 2 {
      k := if c1 < d1 then 0 else 1;
    } else if n == 3 {
      k := if c2 < d2 then 0 else if c1 < d1 then 1 else 2;
    } else {
      k := if c2 / 0x40 < d2 / 0x40 then 0 else if c2 < d2 then 1 else if c1 < d1 then 2 else 3;
    }
  }

  /** The byte order of the encodings is the order of the texts. */
  lemma {:induction false} Utf8KeepsOrder(a: Text, b: Text)
    ensures UnitsLess(Write(UTF_8, a), Write(UTF_8, b)) <==> TextLess(a, b)
  {
    if a != [] && b != [] {
      var s, w := WriteUtf8(a[0]), WriteUtf8(b[0]);
      var x, y := Write(UTF_8, a[1..]), Write(UTF_8, b[1..]);
      assert Write(UTF_8, a) == s + x && Write(UTF_8, b) == w + y;
      if a[0] == b[0] {
        Utf8KeepsOrder(a[1..], b[1..]);
        SamePrefix(s, x, y);
      } else if a[0] < b[0] {
        var k := Utf8Ordered(a[0], b[0]);
        assert (s + x)[..k] == s[..k] && (w + y)[..k] == w[..k];
        FirstDifference(s + x, w + y, k);
      } else {
        var k := Utf8Ordered(b[0], a[0]);
        assert (s + x)[..k] == s[..k] && (w + y)[..k] == w[..k];
        FirstDifference(w + y, s + x, k);
      }
    } else if a == [] && b != [] {
      assert Write(UTF_8, b) == WriteUtf8(b[0]) + Write(UTF_8, b[1..]);
    }
  }

  /** JavaScript and the engine answer text tests alike, and both as Python does. */
  lemma {:induction false} ThreeViewsAgree(test: TextTest, t: Text, argument: Text)
    requires WellFormed(t) && WellFormed(argument)
    ensures UnitsTested(test, Write(UTF_16, t), Write(UTF_16, argument))
       <==> UnitsTested(test, Write(UTF_8, t), Write(UTF_8, argument))
    ensures UnitsTested(test, Write(UTF_8, t), Write(UTF_8, argument)) <==> TextTested(test, t, argument)
  {
    Utf16Synchronizes();
    Utf8Synchronizes();
    TestsAgree(UTF_16, test, t, argument);
    TestsAgree(UTF_8, test, t, argument);
  }
}
