/** Base64 with the engine's leniency: line breaks are skipped, padding may be missing, and unused tail bits may be set.
    */
module Base64 {
  import opened Values

  type Byte = b: int | 0 <= b < 0x100 witness 0

  type Digit = d: int | 0 <= d < 64 witness 0

  /** The largest length on a 64-bit machine. */
  const USIZE_MAX: nat := 0xFFFF_FFFF_FFFF_FFFF

  const PAD: Byte := 0x3D
  const CR: Byte := 0x0D
  const LF: Byte := 0x0A

  datatype Error = NoMatchingOverload | InvalidArgument | CollectionLimitExceeded | CostLimitExceeded

  datatype Result = Decoded(bytes: seq<Byte>) | Encoded(text: seq<Byte>) | Err(error: Error)

  datatype Input = BytesInput(bytes: seq<Byte>) | TextInput(text: seq<Byte>) | OtherInput

  // ----- the alphabets -----

  /** Sections 4 and 5 of RFC 4648. */
  function Char(url: bool, d: Digit): Byte {
    if d < 26 then 0x41 + d
    else if d < 52 then 0x61 + (d - 26)
    else if d < 62 then 0x30 + (d - 52)
    else if d == 62 then (if url then 0x2D else 0x2B)
    else (if url then 0x5F else 0x2F)
  }

  function DigitOf(url: bool, c: Byte): (r: Option<Digit>)
    ensures r.Some? ==> Char(url, r.value) == c
  {
    if 0x41 <= c <= 0x5A then Some(c - 0x41)
    else if 0x61 <= c <= 0x7A then Some(c - 0x61 + 26)
    else if 0x30 <= c <= 0x39 then Some(c - 0x30 + 52)
    else if c == (if url then 0x2D else 0x2B) then Some(62)
    else if c == (if url then 0x5F else 0x2F) then Some(63)
    else None
  }

  predicate InAlphabet(url: bool, s: seq<Byte>) {
    forall i :: 0 <= i < |s| ==> DigitOf(url, s[i]).Some?
  }

  function Chars(url: bool, d: seq<Digit>): (s: seq<Byte>)
    ensures |s| == |d|
  {
    seq(|d|, i requires 0 <= i < |d| => Char(url, d[i]))
  }

  function DigitsOf(url: bool, s: seq<Byte>): (d: seq<Digit>)
    requires InAlphabet(url, s)
    ensures |d| == |s|
  {
    seq(|s|, i requires 0 <= i < |s| => DigitOf(url, s[i]).value)
  }

  lemma {:induction false} AlphabetsInvert(url: bool, d: seq<Digit>, s: seq<Byte>)
    ensures InAlphabet(url, Chars(url, d)) && DigitsOf(url, Chars(url, d)) == d
    ensures InAlphabet(url, s) ==> Chars(url, DigitsOf(url, s)) == s
    ensures PAD !in Chars(url, d) && CR !in Chars(url, d) && LF !in Chars(url, d)
  {
  }

  // ----- digits and bytes -----

  function First(a: Byte): Digit { a / 4 }

  function Second(a: Byte, b: Byte): Digit { a % 4 * 16 + b / 16 }

  function Third(b: Byte, c: Byte): Digit { b % 16 * 4 + c / 64 }

  function Fourth(c: Byte): Digit { c % 64 }

  function ByteA(x: Digit, y: Digit): Byte { x as int * 4 + y as int / 16 }

  function ByteB(y: Digit, z: Digit): Byte { y as int % 16 * 16 + z as int / 4 }

  function ByteC(z: Digit, w: Digit): Byte { z as int % 4 * 64 + w as int }

  function Digits(b: seq<Byte>): seq<Digit> {
    if |b| == 0 then []
    else if |b| == 1 then [First(b[0]), Second(b[0], 0)]
    else if |b| == 2 then [First(b[0]), Second(b[0], b[1]), Third(b[1], 0)]
    else [First(b[0]), Second(b[0], b[1]), Third(b[1], b[2]), Fourth(b[2])] + Digits(b[3..])
  }

  /** The bytes of whole groups, and of a last group of two or three digits without its unused bits. */
  function Bytes(d: seq<Digit>): seq<Byte>
    requires |d| % 4 != 1
  {
    if |d| == 0 then []
    else if |d| == 2 then [ByteA(d[0], d[1])]
    else if |d| == 3 then [ByteA(d[0], d[1]), ByteB(d[1], d[2])]
    else [ByteA(d[0], d[1]), ByteB(d[1], d[2]), ByteC(d[2], d[3])] + Bytes(d[4..])
  }

  lemma {:induction false} GroupOfBytes(a: Byte, b: Byte, c: Byte)
    ensures ByteA(First(a), Second(a, b)) == a
    ensures ByteB(Second(a, b), Third(b, c)) == b
    ensures ByteC(Third(b, c), Fourth(c)) == c
  {
  }

  lemma {:induction false} GroupOfDigits(x: Digit, y: Digit, z: Digit, w: Digit)
    ensures First(ByteA(x, y)) == x
    ensures Second(ByteA(x, y), ByteB(y, z)) == y && Second(ByteA(x, y), 0) == MaskedDigit(2, y)
    ensures Third(ByteB(y, z), ByteC(z, w)) == z && Third(ByteB(y, z), 0) == MaskedDigit(3, z)
    ensures Fourth(ByteC(z, w)) == w
    ensures ByteA(x, MaskedDigit(2, y)) == ByteA(x, y) && ByteB(y, MaskedDigit(3, z)) == ByteB(y, z)
  {
  }

  /** The digit with the bits that a tail of this many digits does not use cleared. */
  function MaskedDigit(tail: nat, d: Digit): Digit {
    if tail == 2 then d - d % 16 else if tail == 3 then d - d % 4 else d
  }

  function Masked(d: seq<Digit>): (r: seq<Digit>)
    ensures |r| == |d|
  {
    if d == [] then d else d[|d| - 1 := MaskedDigit(|d| % 4, d[|d| - 1])]
  }

  /** Decoding what was encoded gives the bytes back, and encoding leaves no unused bit set. */
  lemma {:induction false} BytesOfDigits(b: seq<Byte>)
    ensures |Digits(b)| == (4 * |b| + 2) / 3 && |Digits(b)| % 4 != 1
    ensures Bytes(Digits(b)) == b && Masked(Digits(b)) == Digits(b)
  {
    hide First, Second, Third, Fourth, ByteA, ByteB, ByteC;
    if |b| >= 3 {
      BytesOfDigits(b[3..]);
      GroupOfBytes(b[0], b[1], b[2]);
      assert Digits(b)[4..] == Digits(b[3..]);
      assert b == [b[0], b[1], b[2]] + b[3..];
      MaskedTail(Digits(b));
    } else if |b| == 2 {
      GroupOfBytes(b[0], b[1], 0);
      TailMasked(b[0], b[1]);
    } else if |b| == 1 {
      GroupOfBytes(b[0], 0, 0);
      TailMasked(b[0], 0);
    }
  }

  /** The number that digits of a base make up, after those that made up the number so far. */
  function NumberFrom(before: int, base: int, digits: seq<int>): int
    decreases |digits|
  {
    if digits == [] then before else NumberFrom(before * base + digits[0], base, digits[1..])
  }

  /** The digits are the bytes as a number, in base 64 instead of 256, with zero bits up to a whole digit. */
  lemma {:induction false} SameNumber(before: int, b: seq<Byte>)
    ensures NumberFrom(before, 64, Digits(b)) ==
            NumberFrom(before, 256, b) * (if |b| % 3 == 0 then 1 else if |b| % 3 == 1 then 16 else 4)
    decreases |b|
  {
    hide Digits, NumberFrom;
    if |b| >= 3 {
      GroupStep(before, b);
      SameNumber(((before * 256 + b[0]) * 256 + b[1]) * 256 + b[2], b[3..]);
    } else {
      LastNumber(before, b);
    }
  }

  lemma {:induction false} GroupStep(before: int, b: seq<Byte>)
    requires |b| >= 3
    ensures var after := ((before * 256 + b[0]) * 256 + b[1]) * 256 + b[2];
            && NumberFrom(before, 64, Digits(b)) == NumberFrom(after, 64, Digits(b[3..]))
            && NumberFrom(before, 256, b) == NumberFrom(after, 256, b[3..])
  {
    hide First, Second, Third, Fourth, NumberFrom;
    var d := Digits(b);
    FourDigits(before, 64, d);
    ThreeDigits(before, 256, b);
    assert d[4..] == Digits(b[3..]);
    GroupNumber(before, b[0], b[1], b[2]);
  }

  lemma {:induction false} LastNumber(before: int, b: seq<Byte>)
    requires |b| < 3
    ensures NumberFrom(before, 64, Digits(b)) ==
            NumberFrom(before, 256, b) * (if |b| == 0 then 1 else if |b| == 1 then 16 else 4)
  {
    var d := Digits(b);
    assert NumberFrom(before, 64, []) == before;
    if |b| == 2 {
      ThreeDigits(before, 64, d);
      TwoDigits(before, 256, b);
      assert d[3..] == [] && b[2..] == [];
    } else if |b| == 1 {
      TwoDigits(before, 64, d);
      assert d[2..] == [] && b[1..] == [];
    }
  }

  lemma {:induction false} GroupNumber(before: int, a: Byte, b: Byte, c: Byte)
    ensures (((before * 64 + First(a)) * 64 + Second(a, b)) * 64 + Third(b, c)) * 64 + Fourth(c)
         == ((before * 256 + a) * 256 + b) * 256 + c
  {
  }

  lemma {:induction false} TwoDigits(before: int, base: int, d: seq<int>)
    requires |d| >= 2
    ensures NumberFrom(before, base, d) == NumberFrom((before * base + d[0]) * base + d[1], base, d[2..])
  {
    assert d[1..][1..] == d[2..] && d[1..][0] == d[1];
  }

  lemma {:induction false} ThreeDigits(before: int, base: int, d: seq<int>)
    requires |d| >= 3
    ensures NumberFrom(before, base, d)
         == NumberFrom(((before * base + d[0]) * base + d[1]) * base + d[2], base, d[3..])
  {
    TwoDigits(before, base, d);
    assert d[2..][1..] == d[3..] && d[2..][0] == d[2];
  }

  lemma {:induction false} FourDigits(before: int, base: int, d: seq<int>)
    requires |d| >= 4
    ensures NumberFrom(before, base, d)
         == NumberFrom((((before * base + d[0]) * base + d[1]) * base + d[2]) * base + d[3], base, d[4..])
  {
    ThreeDigits(before, base, d);
    assert d[3..][1..] == d[4..] && d[3..][0] == d[3];
  }

  lemma {:induction false} TailMasked(a: Byte, b: Byte)
    ensures MaskedDigit(2, Second(a, 0)) == Second(a, 0) && MaskedDigit(3, Third(b, 0)) == Third(b, 0)
  {
  }

  lemma {:induction false} MaskedTail(d: seq<Digit>)
    requires |d| >= 4
    ensures Masked(d) == d[..4] + Masked(d[4..])
  {
    if |d| > 4 {
      assert d[4..][|d| - 5] == d[|d| - 1];
    }
  }

  /** Encoding what was decoded gives the digits back with the tail masked. */
  lemma {:induction false} DigitsOfBytes(d: seq<Digit>)
    requires |d| % 4 != 1
    ensures |Bytes(d)| == |d| / 4 * 3 + |d| % 4 * 3 / 4
    ensures Digits(Bytes(d)) == Masked(d) && Bytes(Masked(d)) == Bytes(d)
  {
    hide First, Second, Third, Fourth, ByteA, ByteB, ByteC, MaskedDigit;
    if |d| >= 4 {
      DigitsOfBytes(d[4..]);
      GroupOfDigits(d[0], d[1], d[2], d[3]);
      MaskedTail(d);
      assert Bytes(d)[3..] == Bytes(d[4..]);
      assert Masked(d)[4..] == Masked(d[4..]);
      assert d == [d[0], d[1], d[2], d[3]] + d[4..];
    } else if |d| == 3 {
      GroupOfDigits(d[0], d[1], d[2], 0);
    } else if |d| == 2 {
      GroupOfDigits(d[0], d[1], 0, 0);
    }
  }

  // ----- texts -----

  function Padding(n: nat): (s: seq<Byte>)
    ensures |s| == n
  {
    seq(n, i => PAD)
  }

  /** How many `=` complete the last group of n bytes. */
  function PaddingFor(n: nat): (r: nat)
    ensures r <= 2
  {
    (3 - n % 3) % 3
  }

  /** The canonical encoding: full padding, no line breaks. */
  function Encode(url: bool, b: seq<Byte>): seq<Byte> {
    Chars(url, Digits(b)) + Padding(PaddingFor(|b|))
  }

  lemma {:induction false} EncodedLength(url: bool, b: seq<Byte>)
    ensures |Encode(url, b)| == (|b| + 2) / 3 * 4
    ensures forall i :: |Digits(b)| <= i < |Encode(url, b)| ==> Encode(url, b)[i] == 0x3D
  {
    BytesOfDigits(b);
    hide Digits, Bytes, Masked;
  }

  function Stripped(text: seq<Byte>): seq<Byte> {
    if text == [] then []
    else
      var last := text[|text| - 1];
      Stripped(text[..|text| - 1]) + (if last == CR || last == LF then [] else [last])
  }

  lemma {:induction false} StrippedShorter(text: seq<Byte>)
    ensures |Stripped(text)| <= |text| && CR !in Stripped(text) && LF !in Stripped(text)
    ensures CR !in text && LF !in text ==> Stripped(text) == text
  {
    if text != [] {
      StrippedShorter(text[..|text| - 1]);
      assert text == text[..|text| - 1] + [text[|text| - 1]];
    }
  }

  /** Stripping goes character by character: only carriage returns and line feeds are left out. */
  lemma {:induction false} StrippedParts(a: seq<Byte>, b: seq<Byte>, c: Byte)
    ensures Stripped(a + b) == Stripped(a) + Stripped(b)
    ensures Stripped([c]) == if c == 0x0D || c == 0x0A then [] else [c]
    decreases |b|
  {
    assert [c][..0] == [] && Stripped([]) == [];
    if b == [] {
      assert a + b == a;
    } else {
      var n := |b| - 1;
      StrippedParts(a, b[..n], c);
      assert (a + b)[..|a + b| - 1] == a + b[..n];
    }
  }

  /** Every character is the next one of the text, or a line break that was inserted. */
  ghost predicate WithBreaks(text: seq<Byte>, broken: seq<Byte>)
    decreases |broken|
  {
    if broken == [] then text == []
    else
      var n := |broken| - 1;
      || (broken[n] in {0x0D, 0x0A} && WithBreaks(text, broken[..n]))
      || (text != [] && broken[n] == text[|text| - 1] && WithBreaks(text[..|text| - 1], broken[..n]))
  }

  lemma {:induction false} BreaksAreSkipped(text: seq<Byte>, broken: seq<Byte>)
    requires WithBreaks(text, broken)
    ensures Stripped(broken) == Stripped(text)
    decreases |broken|
  {
    if broken != [] {
      var n := |broken| - 1;
      if broken[n] in {0x0D, 0x0A} && WithBreaks(text, broken[..n]) {
        BreaksAreSkipped(text, broken[..n]);
      } else {
        BreaksAreSkipped(text[..|text| - 1], broken[..n]);
      }
    }
  }

  /** The digits of a text without line breaks, and how many `=` follow them. */
  predicate Splits(t: seq<Byte>, body: seq<Byte>, padding: nat) {
    t == body + Padding(padding) && (body == [] || body[|body| - 1] != PAD)
  }

  /** Padding may be missing, but not partial, excessive, or without digits to complete; one digit alone is no byte. */
  predicate WellPadded(t: seq<Byte>, body: seq<Byte>, padding: nat) {
    Splits(t, body, padding) && padding <= 2 && |body| % 4 != 1 && (padding > 0 ==> |t| % 4 == 0)
  }

  lemma {:induction false} SplitsOnce(t: seq<Byte>, body: seq<Byte>, padding: nat, body': seq<Byte>, padding': nat)
    requires Splits(t, body, padding) && Splits(t, body', padding')
    ensures body == body' && padding == padding'
  {
    assert forall i :: |body| <= i < |t| ==> t[i] == PAD;
    assert forall i :: |body'| <= i < |t| ==> t[i] == PAD;
    assert body != [] ==> t[|body| - 1] != PAD;
    assert body' != [] ==> t[|body'| - 1] != PAD;
    assert body == t[..|body|] && body' == t[..|body'|];
  }

  lemma {:induction false} Chosen(t: seq<Byte>, body: seq<Byte>, padding: nat)
    requires WellPadded(t, body, padding)
    ensures forall other, n :: WellPadded(t, other, n) ==> other == body && n == padding
  {
    forall other, n | WellPadded(t, other, n) ensures other == body && n == padding {
      SplitsOnce(t, body, padding, other, n);
    }
  }

  lemma {:induction false} Refused(t: seq<Byte>, body: seq<Byte>, padding: nat)
    requires Splits(t, body, padding) && !WellPadded(t, body, padding)
    ensures forall other, n :: !WellPadded(t, other, n)
  {
    forall other, n ensures !WellPadded(t, other, n) {
      if WellPadded(t, other, n) {
        SplitsOnce(t, body, padding, other, n);
      }
    }
  }

  function DecodedSize(digits: nat): nat {
    digits / 4 * 3 + digits % 4 * 3 / 4
  }

  /** Zig's decoder for unpadded texts, which refuses unused bits that are set. */
  function StrictDecode(url: bool, s: seq<Byte>): Option<seq<Byte>> {
    if |s| % 4 == 1 || !InAlphabet(url, s) || Masked(DigitsOf(url, s)) != DigitsOf(url, s) then None
    else Some(Bytes(DigitsOf(url, s)))
  }

  // ----- evaluation -----

  function SaturatingAdd(a: nat, b: nat): nat {
    if a + b > USIZE_MAX then USIZE_MAX else a + b
  }

  function SaturatingTriple(a: nat): nat {
    if a * 3 > USIZE_MAX then USIZE_MAX else a * 3
  }

  lemma {:induction false} Saturated(a: nat, b: nat)
    ensures SaturatingTriple(a) == if 3 * a <= 0xFFFF_FFFF_FFFF_FFFF then 3 * a else 0xFFFF_FFFF_FFFF_FFFF
    ensures SaturatingAdd(a, b) == if a + b <= 0xFFFF_FFFF_FFFF_FFFF then a + b else 0xFFFF_FFFF_FFFF_FFFF
  {
  }

  /** The work that is left, which every operation draws on. */
  class Budget {
    var remaining: nat

    constructor (remaining: nat)
      ensures this.remaining == remaining
    {
      this.remaining := remaining;
    }

    /** `charge`. */
    method Charge(cost: nat) returns (paid: bool)
      modifies this
      ensures paid <==> cost <= old(remaining)
      ensures remaining == if paid then old(remaining) - cost else old(remaining)
    {
      paid := cost <= remaining;
      if paid {
        remaining := remaining - cost;
      }
    }
  }

  method EvaluateEncode(url: bool, input: Input, budget: Budget, limit: nat) returns (r: Result)
    modifies budget
    ensures !input.BytesInput? ==> r == Err(NoMatchingOverload) && budget.remaining == old(budget.remaining)
    ensures input.BytesInput? ==>
              var length := (|input.bytes| + 2) / 3 * 4;
              var cost := SaturatingAdd(|input.bytes|, length);
              if |input.bytes| + 2 > USIZE_MAX || length > USIZE_MAX || length > limit
              then r == Err(CollectionLimitExceeded) && budget.remaining == old(budget.remaining)
              else if cost > old(budget.remaining)
              then r == Err(CostLimitExceeded) && budget.remaining == old(budget.remaining)
              else
                && r == Encoded(Encode(url, input.bytes)) && |r.text| == length
                && budget.remaining == old(budget.remaining) - cost
  {
    if !input.BytesInput? {
      return Err(NoMatchingOverload);
    }
    var rounded := |input.bytes| + 2;
    if rounded > USIZE_MAX {
      return Err(CollectionLimitExceeded);
    }
    var length := rounded / 3 * 4;
    if length > USIZE_MAX || length > limit {
      return Err(CollectionLimitExceeded);
    }
    var paid := budget.Charge(SaturatingAdd(|input.bytes|, length));
    if !paid {
      return Err(CostLimitExceeded);
    }
    EncodedLength(url, input.bytes);
    return Encoded(Encode(url, input.bytes));
  }

  /** The line breaks are skipped by copying what is left into a buffer. */
  method Strip(text: seq<Byte>) returns (source: seq<Byte>)
    ensures source == Stripped(text)
  {
    source := text;
    if CR in text || LF in text {
      var buffer := new Byte[|text|];
      var length := 0;
      for i := 0 to |text|
        invariant length <= i && buffer[..length] == Stripped(text[..i])
      {
        assert text[..i + 1][..i] == text[..i];
        var byte := text[i];
        if byte != CR && byte != LF {
          buffer[length] := byte;
          length := length + 1;
        }
      }
      assert text[..|text|] == text;
      source := buffer[..length];
    } else {
      StrippedShorter(text);
    }
  }

  method CountPadding(source: seq<Byte>) returns (padding: nat)
    ensures padding <= |source| && Splits(source, source[..|source| - padding], padding)
  {
    padding := 0;
    while padding < |source| && source[|source| - padding - 1] == PAD
      invariant padding <= |source|
      invariant forall i :: |source| - padding <= i < |source| ==> source[i] == PAD
    {
      padding := padding + 1;
    }
    assert source == source[..|source| - padding] + Padding(padding);
  }

  /** The unused bits of the last digit are cleared, in a copy, before the strict decoder sees them. */
  method DecodeTail(url: bool, source: seq<Byte>) returns (r: Option<seq<Byte>>)
    requires |source| % 4 != 1
    ensures r == if InAlphabet(url, source) then Some(Bytes(DigitsOf(url, source))) else None
  {
    var tail := |source| % 4;
    var patched := source;
    if tail != 0 {
      var last := |source| - 1;
      var digit := DigitOf(url, source[last]);
      if digit.None? {
        return None;
      }
      var masked := MaskedDigit(tail, digit.value);
      if masked != digit.value {
        var buffer := new Byte[|source|](i requires 0 <= i < |source| => source[i]);
        buffer[last] := Char(url, masked);
        patched := buffer[..];
        assert patched == source[last := Char(url, masked)];
      }
      PatchedDigits(url, source, masked);
    }
    r := StrictDecode(url, patched);
    if InAlphabet(url, source) {
      DigitsOfBytes(DigitsOf(url, source));
      MaskedTwice(DigitsOf(url, source));
    }
  }

  lemma {:induction false} PatchedDigits(url: bool, source: seq<Byte>, masked: Digit)
    requires |source| % 4 >= 2 && DigitOf(url, source[|source| - 1]).Some?
    requires masked == MaskedDigit(|source| % 4, DigitOf(url, source[|source| - 1]).value)
    ensures var patched := source[|source| - 1 := Char(url, masked)];
            && (InAlphabet(url, patched) <==> InAlphabet(url, source))
            && (InAlphabet(url, source) ==> DigitsOf(url, patched) == Masked(DigitsOf(url, source)))
            && (masked == DigitOf(url, source[|source| - 1]).value ==> patched == source)
  {
    var last := |source| - 1;
    var patched := source[last := Char(url, masked)];
    assert DigitOf(url, Char(url, masked)) == Some(masked);
    assert forall i :: 0 <= i < last ==> patched[i] == source[i];
    if InAlphabet(url, patched) {
      forall i | 0 <= i < |source| ensures DigitOf(url, source[i]).Some? {
        assert i < last ==> DigitOf(url, patched[i]).Some?;
      }
    }
  }

  lemma {:induction false} MaskedTwice(d: seq<Digit>)
    ensures Masked(Masked(d)) == Masked(d)
    ensures |d| % 4 == 0 ==> Masked(d) == d
  {
  }

  method EvaluateDecode(url: bool, input: Input, budget: Budget, limit: nat) returns (r: Result)
    modifies budget
    ensures !input.TextInput? ==> r == Err(NoMatchingOverload) && budget.remaining == old(budget.remaining)
    ensures input.TextInput? ==> DecodeOutcome(url, input.text, limit, old(budget.remaining), r, budget.remaining)
  {
    hide Bytes, DigitsOf, Stripped, InAlphabet, SaturatingTriple, DecodedSize;
    if !input.TextInput? {
      return Err(NoMatchingOverload);
    }
    var paid := budget.Charge(SaturatingTriple(|input.text|));
    if !paid {
      return Err(CostLimitExceeded);
    }
    var source := Strip(input.text);
    var padding := CountPadding(source);
    ghost var stripped := source;
    if padding > 2 || (padding > 0 && |source| % 4 != 0) {
      Refused(source, source[..|source| - padding], padding);
      return Err(InvalidArgument);
    }
    source := source[..|source| - padding];
    var tail := |source| % 4;
    if tail == 1 || (padding > 0 && padding != 4 - tail) {
      Refused(stripped, source, padding);
      return Err(InvalidArgument);
    }
    assert WellPadded(stripped, source, padding);
    Chosen(stripped, source, padding);
    var length := DecodedSize(|source|);
    if length > limit {
      return Err(CollectionLimitExceeded);
    }
    paid := budget.Charge(length);
    if !paid {
      return Err(CostLimitExceeded);
    }
    var bytes := DecodeTail(url, source);
    r := if bytes.None? then Err(InvalidArgument) else Decoded(bytes.value);
  }

  /** What decoding does with a text, a limit and a budget: the first test that fails decides, and what was charged
      before it stays charged. */
  ghost predicate DecodeOutcome(url: bool, text: seq<Byte>, limit: nat, before: nat, r: Result, after: nat) {
    var cost := SaturatingTriple(|text|);
    if cost > before then r == Err(CostLimitExceeded) && after == before
    else if body, padding :| WellPadded(Stripped(text), body, padding) then
      BodyOutcome(url, body, limit, before - cost, r, after)
    else r == Err(InvalidArgument) && after == before - cost
  }

  predicate BodyOutcome(url: bool, body: seq<Byte>, limit: nat, before: nat, r: Result, after: nat) {
    var size := DecodedSize(|body|);
    if size > limit then r == Err(CollectionLimitExceeded) && after == before
    else if size > before then r == Err(CostLimitExceeded) && after == before
    else if InAlphabet(url, body) then
      |body| % 4 != 1 && r == Decoded(Bytes(DigitsOf(url, body))) && after == before - size
    else r == Err(InvalidArgument) && after == before - size
  }

  // ----- what decoding means -----

  lemma {:induction false} OutcomeOf(url: bool, text: seq<Byte>, limit: nat, before: nat, r: Result, after: nat,
      body: seq<Byte>, padding: nat)
    requires DecodeOutcome(url, text, limit, before, r, after) && WellPadded(Stripped(text), body, padding)
    requires SaturatingTriple(|text|) <= before
    ensures BodyOutcome(url, body, limit, before - SaturatingTriple(|text|), r, after)
  {
    Chosen(Stripped(text), body, padding);
    hide WellPadded, BodyOutcome, Stripped;
  }

  /** Acceptance, exactly: the digits, the padding and the tail are right, and the limit and the budget suffice for the
      three units a character costs and the decoded bytes. */
  lemma {:induction false} AcceptedIff(url: bool, text: seq<Byte>, limit: nat, before: nat, r: Result, after: nat)
    requires DecodeOutcome(url, text, limit, before, r, after)
    ensures r.Decoded? <==>
              exists body, padding ::
                && WellPadded(Stripped(text), body, padding) && InAlphabet(url, body)
                && DecodedSize(|body|) <= limit && SaturatingTriple(|text|) + DecodedSize(|body|) <= before
    ensures after <= before
  {
    if SaturatingTriple(|text|) <= before {
      if body, padding :| WellPadded(Stripped(text), body, padding) {
        OutcomeOf(url, text, limit, before, r, after, body, padding);
        Chosen(Stripped(text), body, padding);
        hide DecodeOutcome, WellPadded, Stripped, InAlphabet;
      }
    }
  }

  /** Line breaks inserted anywhere do not change what is decoded, as long as the budget pays for them. */
  lemma {:induction false} BreaksDecodeAlike(url: bool, text: seq<Byte>, broken: seq<Byte>, limit: nat, before: nat,
      r: Result, after: nat, before': nat, r': Result, after': nat)
    requires WithBreaks(text, broken)
    requires DecodeOutcome(url, text, limit, before, r, after)
    requires DecodeOutcome(url, broken, limit, before', r', after')
    requires r.Decoded? && 3 * |broken| + |r.bytes| <= before'
    ensures r' == r
  {
    BreaksAreSkipped(text, broken);
    AcceptedIff(url, text, limit, before, r, after);
    var body, padding :| WellPadded(Stripped(text), body, padding) && InAlphabet(url, body)
      && DecodedSize(|body|) <= limit && SaturatingTriple(|text|) + DecodedSize(|body|) <= before;
    OutcomeOf(url, text, limit, before, r, after, body, padding);
    Saturated(|broken|, 0);
    CanonicalBody(url, body);
    hide DecodeOutcome, Stripped, WellPadded, InAlphabet, Bytes, DigitsOf, SaturatingTriple, Encode;
    OutcomeOf(url, broken, limit, before', r', after', body, padding);
  }

  /** The bytes mean the text: encoding them gives its digits back, with the unused bits of the last one cleared and
      with full padding. */
  ghost predicate Means(url: bool, text: seq<Byte>, body: seq<Byte>, padding: nat, bytes: seq<Byte>) {
    && WellPadded(Stripped(text), body, padding) && InAlphabet(url, body)
    && |bytes| == DecodedSize(|body|)
    && Encode(url, bytes) == Chars(url, Masked(DigitsOf(url, body))) + Padding((4 - |body| % 4) % 4)
  }

  /** Decoding canonicalises, for exactly the announced work. */
  lemma {:induction false} DecodeCanonicalises(url: bool, text: seq<Byte>, limit: nat, before: nat, r: Result,
      after: nat)
    requires DecodeOutcome(url, text, limit, before, r, after) && r.Decoded?
    ensures exists body, padding :: Means(url, text, body, padding, r.bytes)
    ensures after == before - SaturatingTriple(|text|) - |r.bytes|
  {
    AcceptedIff(url, text, limit, before, r, after);
    var body, padding :| WellPadded(Stripped(text), body, padding) && InAlphabet(url, body)
      && DecodedSize(|body|) <= limit && SaturatingTriple(|text|) + DecodedSize(|body|) <= before;
    OutcomeOf(url, text, limit, before, r, after, body, padding);
    hide DecodeOutcome;
    CanonicalBody(url, body);
    assert Means(url, text, body, padding, r.bytes);
  }

  lemma {:induction false} CanonicalBody(url: bool, body: seq<Byte>)
    requires InAlphabet(url, body) && |body| % 4 != 1
    ensures var bytes := Bytes(DigitsOf(url, body));
            && |bytes| == DecodedSize(|body|)
            && Encode(url, bytes) == Chars(url, Masked(DigitsOf(url, body))) + Padding((4 - |body| % 4) % 4)
  {
    DigitsOfBytes(DigitsOf(url, body));
    SamePadding(|body|);
  }

  lemma {:induction false} SamePadding(n: nat)
    requires n % 4 != 1
    ensures PaddingFor(DecodedSize(n)) == (4 - n % 4) % 4
  {
    assert DecodedSize(n) % 3 == n % 4 * 3 / 4 % 3;
  }

  /** Round trip: what was encoded decodes to the same bytes, for exactly the work that is announced. */
  lemma {:induction false} DecodeAfterEncode(url: bool, b: seq<Byte>, limit: nat, before: nat, r: Result, after: nat)
    requires DecodeOutcome(url, Encode(url, b), limit, before, r, after)
    requires |b| <= limit && SaturatingTriple((|b| + 2) / 3 * 4) + |b| <= before
    ensures r == Decoded(b) && after == before - SaturatingTriple((|b| + 2) / 3 * 4) - |b|
  {
    var text, body, padding := Encode(url, b), Chars(url, Digits(b)), PaddingFor(|b|);
    EncodedLength(url, b);
    BytesOfDigits(b);
    DigitsOfBytes(Digits(b));
    EncodedSplits(url, b);
    AlphabetsInvert(url, Digits(b), []);
    OutcomeOf(url, text, limit, before, r, after, body, padding);
    hide DecodeOutcome, WellPadded, Stripped, InAlphabet, Encode, Chars, Digits, Bytes;
  }

  lemma {:induction false} EncodedSplits(url: bool, b: seq<Byte>)
    ensures WellPadded(Stripped(Encode(url, b)), Chars(url, Digits(b)), PaddingFor(|b|))
  {
    var n, padding := DigitCount(b);
    DigitsSplit(url, Digits(b), n, padding);
  }

  lemma {:induction false} DigitCount(b: seq<Byte>) returns (n: nat, padding: nat)
    ensures n == |Digits(b)| && padding == PaddingFor(|b|) && n % 4 != 1 && (n + padding) % 4 == 0
  {
    BytesOfDigits(b);
    n, padding := |Digits(b)|, PaddingFor(|b|);
    PaddedLength(|b|, n);
  }

  lemma {:induction false} DigitsSplit(url: bool, d: seq<Digit>, n: nat, padding: nat)
    requires n == |d| && padding <= 2 && n % 4 != 1 && (n + padding) % 4 == 0
    ensures WellPadded(Stripped(Chars(url, d) + Padding(padding)), Chars(url, d), padding)
  {
    var body := Chars(url, d);
    AlphabetsInvert(url, d, []);
    PaddedIsClean(body, padding);
    hide Stripped;
    assert body == [] || body[|body| - 1] in body;
  }

  lemma {:induction false} PaddedLength(n: nat, digits: nat)
    requires digits == (4 * n + 2) / 3
    ensures digits % 4 != 1 && (digits + PaddingFor(n)) % 4 == 0
  {
    var k := n / 3;
    assert n == 3 * k || n == 3 * k + 1 || n == 3 * k + 2;
    assert digits == 4 * k + (4 * (n % 3) + 2) / 3;
  }

  lemma {:induction false} PaddedIsClean(body: seq<Byte>, padding: nat)
    requires CR !in body && LF !in body
    ensures Stripped(body + Padding(padding)) == body + Padding(padding)
  {
    StrippedShorter(body + Padding(padding));
  }
}
