/** The rewriting of duration texts whose nanosecond components are too long for Abseil's 64-bit integer part. */
module Durations {
  import opened Values

  // ----- duration texts and what they denote -----

  datatype TimeUnit = Nanoseconds | Microseconds | Milliseconds | Seconds | Minutes | Hours

  function UnitText(u: TimeUnit): string {
    match u
    case Nanoseconds => "ns"
    case Microseconds => "us"
    case Milliseconds => "ms"
    case Seconds => "s"
    case Minutes => "m"
    case Hours => "h"
  }

  function UnitNanoseconds(u: TimeUnit): int {
    match u
    case Nanoseconds => 1
    case Microseconds => 1_000
    case Milliseconds => 1_000_000
    case Seconds => 1_000_000_000
    case Minutes => 60_000_000_000
    case Hours => 3_600_000_000_000
  }

  /** `whole`, `whole.fraction` or `.fraction`, and a unit. */
  datatype Component = Component(whole: string, point: bool, fraction: string, timeUnit: TimeUnit)

  predicate IsDigit(c: char) {
    '0' <= c <= '9'
  }

  predicate AllDigits(s: string) {
    forall i :: 0 <= i < |s| ==> IsDigit(s[i])
  }

  predicate IsComponent(c: Component) {
    AllDigits(c.whole) && AllDigits(c.fraction) && (c.point || c.fraction == "") && c.whole + c.fraction != ""
  }

  predicate AreComponents(cs: seq<Component>) {
    forall i :: 0 <= i < |cs| ==> IsComponent(cs[i])
  }

  function NumberText(c: Component): string {
    c.whole + (if c.point then "." + c.fraction else "")
  }

  function ComponentText(c: Component): string {
    NumberText(c) + UnitText(c.timeUnit)
  }

  function TextOf(cs: seq<Component>): string {
    if cs == [] then "" else ComponentText(cs[0]) + TextOf(cs[1..])
  }

  function Number(s: string): int {
    if s == "" then 0 else Number(s[..|s| - 1]) * 10 + (s[|s| - 1] as int - '0' as int)
  }

  /** The ten digits denote the numbers below ten, and every unit is made up of smaller ones. */
  lemma {:induction false} DigitsAndUnits(n: nat)
    requires n < 10
    ensures var c := '0' + n as char; IsDigit(c) && Number([c]) == n
    ensures UnitNanoseconds(Microseconds) == 1000 * UnitNanoseconds(Nanoseconds)
    ensures UnitNanoseconds(Milliseconds) == 1000 * UnitNanoseconds(Microseconds)
    ensures UnitNanoseconds(Seconds) == 1000 * UnitNanoseconds(Milliseconds)
    ensures UnitNanoseconds(Minutes) == 60 * UnitNanoseconds(Seconds)
    ensures UnitNanoseconds(Hours) == 60 * UnitNanoseconds(Minutes)
    ensures UnitNanoseconds(Nanoseconds) == 1
  {
    var c := '0' + n as char;
    assert [c][..0] == "" && [c][0] == c;
  }

  function PowerOfTen(n: nat): int {
    if n == 0 then 1 else 10 * PowerOfTen(n - 1)
  }

  /** A component in nanoseconds, as a fraction: numerator and denominator. */
  function Numerator(c: Component): int {
    (Number(c.whole) * PowerOfTen(|c.fraction|) + Number(c.fraction)) * UnitNanoseconds(c.timeUnit)
  }

  function ComponentValue(c: Component): real {
    Numerator(c) as real / Positive(PowerOfTen(|c.fraction|)) as real
  }

  function Positive(n: int): (r: int)
    ensures r > 0 && (n > 0 ==> r == n)
  {
    if n > 0 then n else 1
  }

  function Value(cs: seq<Component>): real {
    if cs == [] then 0.0 else ComponentValue(cs[0]) + Value(cs[1..])
  }

  // ----- the rewriting of components -----

  /** The decimal point moves nine places to the left, and nanoseconds become seconds. */
  function Shifted(c: Component): Component {
    if c.timeUnit == Nanoseconds && |c.whole| > 18 then
      Component(c.whole[..|c.whole| - 9], true, c.whole[|c.whole| - 9..] + c.fraction, Seconds)
    else c
  }

  function ShiftedAll(cs: seq<Component>): (r: seq<Component>)
    ensures |r| == |cs|
  {
    seq(|cs|, i requires 0 <= i < |cs| => Shifted(cs[i]))
  }

  lemma {:induction false} NumberConcat(a: string, b: string)
    ensures Number(a + b) == Number(a) * PowerOfTen(|b|) + Number(b)
  {
    if b == "" {
      assert a + b == a;
    } else {
      var n := |b| - 1;
      assert (a + b)[..|a + b| - 1] == a + b[..n];
      NumberConcat(a, b[..n]);
      assert PowerOfTen(|b|) == 10 * PowerOfTen(n);
    }
  }

  lemma {:induction false} PowerSum(a: nat, b: nat)
    ensures PowerOfTen(a + b) == PowerOfTen(a) * PowerOfTen(b) && PowerOfTen(a) > 0
  {
    if a > 0 {
      PowerSum(a - 1, b);
      assert PowerOfTen(a + b) == 10 * PowerOfTen(a - 1 + b);
    }
  }

  lemma {:induction false} NinePlaces()
    ensures PowerOfTen(9) == 1_000_000_000
  {
    assert PowerOfTen(3) == 1_000;
    PowerSum(3, 3);
    PowerSum(6, 3);
  }

  /** Moving the point does not change the component's value. */
  lemma {:induction false} ShiftedValue(c: Component)
    requires IsComponent(c)
    ensures IsComponent(Shifted(c)) && ComponentValue(Shifted(c)) == ComponentValue(c)
  {
    if c.timeUnit == Nanoseconds && |c.whole| > 18 {
      var n := |c.whole| - 9;
      var high, low, f := c.whole[..n], c.whole[n..], c.fraction;
      assert c.whole == high + low;
      NumberConcat(high, low);
      NumberConcat(low, f);
      NinePlaces();
      PowerSum(9, |f|);
      PowerSum(|f|, 0);
      ShiftedNumerator(Number(high), Number(low), Number(f), PowerOfTen(|f|));
      SameFraction(Numerator(c), PowerOfTen(|f|), 1_000_000_000);
      ShiftedParts(c);
    }
  }

  lemma {:induction false} ShiftedParts(c: Component)
    requires IsComponent(c) && c.timeUnit == Nanoseconds && |c.whole| > 18
    ensures var n := |c.whole| - 9;
            && IsComponent(Shifted(c)) && |Shifted(c).fraction| == 9 + |c.fraction|
            && Shifted(c).fraction == c.whole[n..] + c.fraction && Shifted(c).whole == c.whole[..n]
            && UnitNanoseconds(Shifted(c).timeUnit) == 1_000_000_000
  {
  }

  lemma {:induction false} ShiftedNumerator(high: int, low: int, fraction: int, p: int)
    ensures (high * (1_000_000_000 * p) + (low * p + fraction)) * 1_000_000_000
         == ((high * 1_000_000_000 + low) * p + fraction) * 1_000_000_000
  {
    assert high * (1_000_000_000 * p) == high * 1_000_000_000 * p;
    assert (high * 1_000_000_000 + low) * p == high * 1_000_000_000 * p + low * p;
  }

  lemma {:induction false} SameFraction(n: int, d: int, k: int)
    requires d > 0 && k > 0
    ensures k * d > 0 && (n * k) as real / (k * d) as real == n as real / d as real
  {
    var q := n as real / d as real;
    assert q * d as real == n as real;
    assert q * (k * d) as real == (n * k) as real;
  }

  lemma {:induction false} ShiftedAllValue(cs: seq<Component>)
    requires AreComponents(cs)
    ensures AreComponents(ShiftedAll(cs)) && Value(ShiftedAll(cs)) == Value(cs)
  {
    if cs != [] {
      ShiftedValue(cs[0]);
      ShiftedAllValue(cs[1..]);
      assert ShiftedAll(cs)[1..] == ShiftedAll(cs[1..]);
      forall i | 0 <= i < |cs| ensures IsComponent(ShiftedAll(cs)[i]) {
        ShiftedValue(cs[i]);
      }
    }
  }

  // ----- ticks -----

  /** Abseil counts quarters of a nanosecond and rounds every component down to them. */
  function TickFloor(x: real): real {
    (4.0 * x).Floor as real / 4.0
  }

  function Ticks(cs: seq<Component>): real {
    if cs == [] then 0.0 else TickFloor(ComponentValue(cs[0])) + Ticks(cs[1..])
  }

  predicate WholeTicks(c: Component) {
    TickFloor(ComponentValue(c)) == ComponentValue(c)
  }

  /** Rounding loses less than a tick for every component, and nothing exactly when every component is a whole number of
      ticks. */
  lemma {:induction false} TicksClose(cs: seq<Component>)
    ensures Value(cs) - |cs| as real / 4.0 <= Ticks(cs) <= Value(cs)
    ensures cs != [] ==> Value(cs) - |cs| as real / 4.0 < Ticks(cs)
    ensures Ticks(cs) == Value(cs) <==> forall i :: 0 <= i < |cs| ==> WholeTicks(cs[i])
  {
    if cs != [] {
      TickClose(ComponentValue(cs[0]));
      TicksClose(cs[1..]);
      hide ComponentValue, TickFloor;
      assert (forall i :: 0 <= i < |cs| ==> WholeTicks(cs[i])) <==>
             WholeTicks(cs[0]) && forall i :: 0 <= i < |cs[1..]| ==> WholeTicks(cs[1..][i]);
    }
  }

  lemma {:induction false} TickClose(x: real)
    ensures x - 0.25 < TickFloor(x) <= x
  {
  }

  /** Moving the point changes no component's value, so it changes no rounding. */
  lemma {:induction false} ShiftedAllTicks(cs: seq<Component>)
    requires AreComponents(cs)
    ensures Ticks(ShiftedAll(cs)) == Ticks(cs)
  {
    if cs != [] {
      ShiftedValue(cs[0]);
      ShiftedAllTicks(cs[1..]);
      assert ShiftedAll(cs)[1..] == ShiftedAll(cs[1..]);
    }
  }

  // ----- the loop over the text -----

  predicate IsNumberChar(c: char) {
    '0' <= c <= '9' || c == '.'
  }

  predicate NsAt(input: string, i: int) {
    0 <= i < |input| - 1 && input[i] == 'n' && input[i + 1] == 's'
  }

  /** `input.find("ns", position)`. */
  function FindNs(input: string, position: nat): (r: Option<nat>)
    ensures r.Some? ==> position <= r.value && NsAt(input, r.value)
    decreases |input| - position
  {
    if position >= |input| then None
    else if NsAt(input, position) then Some(position)
    else FindNs(input, position + 1)
  }

  /** Where the number that ends at `end` starts, not before `copied`. */
  function NumberStart(input: string, copied: nat, end: nat): (start: nat)
    requires copied <= end <= |input|
    ensures copied <= start <= end
  {
    if end > copied && IsNumberChar(input[end - 1]) then NumberStart(input, copied, end - 1) else end
  }

  function FindPoint(number: string): (r: nat)
    ensures r <= |number| && (r < |number| ==> number[r] == '.') && '.' !in number[..r]
  {
    if number == "" then 0 else if number[0] == '.' then 0 else 1 + FindPoint(number[1..])
  }

  /** The number with its point moved nine places to the left. */
  function ShiftedText(number: string): string
    requires FindPoint(number) > 18
  {
    var n := FindPoint(number);
    number[..n - 9] + "." + number[n - 9..n] + (if n < |number| then number[n + 1..] else "") + "s"
  }

  /** What the loop appends from here on: every `ns` is visited once, and the text before it is copied unless its number
      is rewritten. */
  function NormalizedFrom(input: string, copied: nat, position: nat): string
    requires copied <= position <= |input|
    decreases |input| - position
  {
    match FindNs(input, position)
    case None => input[copied..]
    case Some(p) =>
      var start := NumberStart(input, copied, p);
      if FindPoint(input[start..p]) > 18 then
        input[copied..start] + ShiftedText(input[start..p]) + NormalizedFrom(input, p + 2, p + 2)
      else NormalizedFrom(input, copied, p + 2)
  }

  lemma {:induction false} ShortNumber(input: string, copied: nat, position: nat, start: nat, p: nat)
    requires copied <= position <= |input| && FindNs(input, position) == Some(p)
    requires NumberStart(input, copied, p) == start && FindPoint(input[start..p]) <= 18
    ensures NormalizedFrom(input, copied, position) == NormalizedFrom(input, copied, p + 2)
  {
  }

  lemma {:induction false} SameFrom(input: string, copied: nat, position: nat, next: nat)
    requires copied <= position <= next <= |input| && FindNs(input, position) == FindNs(input, next)
    ensures NormalizedFrom(input, copied, position) == NormalizedFrom(input, copied, next)
  {
  }

  lemma {:induction false} LongNumber(input: string, copied: nat, position: nat, start: nat, p: nat)
    requires copied <= position <= |input| && FindNs(input, position) == Some(p)
    requires NumberStart(input, copied, p) == start && FindPoint(input[start..p]) > 18
    ensures NormalizedFrom(input, copied, position)
         == input[copied..start] + ShiftedText(input[start..p]) + NormalizedFrom(input, p + 2, p + 2)
  {
  }

  lemma {:induction false} NoNumber(input: string, copied: nat, position: nat)
    requires copied <= position <= |input| && FindNs(input, position) == None
    ensures NormalizedFrom(input, copied, position) == input[copied..]
  {
  }

  method AppendShifted(text: string, number: string, size: nat) returns (longer: string)
    requires size == FindPoint(number) > 18
    ensures longer == text + ShiftedText(number)
  {
    longer := text + number[..size - 9];
    longer := longer + ".";
    longer := longer + number[size - 9..size];
    if size < |number| {
      longer := longer + number[size + 1..];
    }
    longer := longer + "s";
  }

  /** The loop of `cel_duration_parse`. */
  method Normalize(input: string) returns (normalized: string)
    ensures normalized == NormalizedFrom(input, 0, 0)
  {
    hide NormalizedFrom, FindNs;
    normalized := "";
    var copied, position := 0, 0;
    while true
      invariant copied <= position <= |input|
      invariant normalized + NormalizedFrom(input, copied, position) == NormalizedFrom(input, 0, 0)
      decreases |input| - position
    {
      var found := FindNs(input, position);
      if found.None? {
        NoNumber(input, copied, position);
        break;
      }
      ghost var from := position;
      position := found.value;
      var start := position;
      while start > copied && IsNumberChar(input[start - 1])
        invariant copied <= start <= position
        invariant NumberStart(input, copied, position) == NumberStart(input, copied, start)
      {
        start := start - 1;
      }
      var number := input[start..position];
      var size := FindPoint(number);
      if size > 18 {
        LongNumber(input, copied, from, start, position);
        Pieces(normalized, input[copied..start], ShiftedText(number),
               NormalizedFrom(input, position + 2, position + 2));
        normalized := normalized + input[copied..start];
        normalized := AppendShifted(normalized, number, size);
        copied := position + 2;
      } else {
        ShortNumber(input, copied, from, start, position);
      }
      position := position + 2;
    }
    normalized := normalized + input[copied..];
  }

  lemma {:induction false} Pieces(a: string, b: string, c: string, d: string)
    ensures a + (b + c + d) == a + b + c + d
  {
  }

  // ----- on duration texts, the loop shifts the components -----

  /** A place between components: the text before it is empty or does not end in a number. */
  predicate Between(before: string) {
    before == "" || !IsNumberChar(before[|before| - 1])
  }

  lemma {:induction false} NumberChars(c: Component)
    requires IsComponent(c)
    ensures forall i :: 0 <= i < |NumberText(c)| ==> IsNumberChar(NumberText(c)[i])
    ensures FindPoint(NumberText(c)) == |c.whole|
  {
    PointAfter(c.whole, if c.point then "." + c.fraction else "");
  }

  lemma {:induction false} PointAfter(whole: string, rest: string)
    requires AllDigits(whole) && (rest == "" || rest[0] == '.')
    ensures FindPoint(whole + rest) == |whole|
  {
    if whole == "" {
      assert whole + rest == rest;
    } else {
      assert (whole + rest)[1..] == whole[1..] + rest;
      PointAfter(whole[1..], rest);
    }
  }

  lemma {:induction false} NumberStartsAt(input: string, copied: nat, from: nat, end: nat)
    requires copied <= from <= end <= |input|
    requires forall i :: from <= i < end ==> IsNumberChar(input[i])
    requires from == copied || !IsNumberChar(input[from - 1])
    ensures NumberStart(input, copied, end) == from
    decreases end
  {
    if end > from {
      NumberStartsAt(input, copied, from, end - 1);
    }
  }

  /** No `ns` before the unit of a component, and none inside another unit. */
  lemma {:induction false} SkipTo(input: string, position: nat, next: nat)
    requires position <= next <= |input| && forall i :: position <= i < next ==> !NsAt(input, i)
    ensures FindNs(input, position) == FindNs(input, next)
    decreases next - position
  {
    if position < next {
      SkipTo(input, position + 1, next);
    }
  }

  lemma {:induction false} UnitChars(u: TimeUnit)
    ensures var t := UnitText(u);
            && 1 <= |t| <= 2 && !IsNumberChar(t[|t| - 1])
            && (u == Nanoseconds ==> t == "ns") && (u != Nanoseconds ==> 'n' !in t)
  {
  }

  /** The component stands at this place of the text. */
  predicate StandsAt(input: string, from: nat, c: Component) {
    var p := from + |NumberText(c)|;
    var q := p + |UnitText(c.timeUnit)|;
    q <= |input| && input[from..p] == NumberText(c) && input[p..q] == UnitText(c.timeUnit)
  }

  lemma {:induction false} ComponentAt(input: string, before: string, c: Component, rest: string)
    requires input == before + ComponentText(c) + rest
    ensures StandsAt(input, |before|, c) && (before != "" ==> input[|before| - 1] == before[|before| - 1])
  {
  }

  /** In a component, `ns` is found at the unit of nanoseconds only. */
  lemma {:induction false} NsOfComponent(input: string, from: nat, c: Component)
    requires IsComponent(c) && StandsAt(input, from, c)
    ensures var p := from + |NumberText(c)|;
            && (c.timeUnit == Nanoseconds ==> FindNs(input, from) == Some(p))
            && (c.timeUnit != Nanoseconds ==> FindNs(input, from) == FindNs(input, p + |UnitText(c.timeUnit)|))
  {
    var p := from + |NumberText(c)|;
    var q := p + |UnitText(c.timeUnit)|;
    NumberIsPlain(input, from, c);
    SkipTo(input, from, p);
    assert forall i :: p <= i < q ==> input[i] == UnitText(c.timeUnit)[i - p];
    if c.timeUnit != Nanoseconds {
      SkipTo(input, p, q);
    }
  }

  lemma {:induction false} NumberIsPlain(input: string, from: nat, c: Component)
    requires IsComponent(c) && StandsAt(input, from, c)
    ensures forall i :: from <= i < from + |NumberText(c)| ==> IsNumberChar(input[i]) && !NsAt(input, i)
  {
    NumberChars(c);
    forall i | from <= i < from + |NumberText(c)| ensures IsNumberChar(input[i]) && !NsAt(input, i) {
      assert input[i] == NumberText(c)[i - from];
    }
  }

  lemma {:induction false} NumberOfComponent(input: string, copied: nat, from: nat, c: Component)
    requires IsComponent(c) && StandsAt(input, from, c)
    requires copied <= from && (from == copied || !IsNumberChar(input[from - 1]))
    ensures NumberStart(input, copied, from + |NumberText(c)|) == from
  {
    NumberIsPlain(input, from, c);
    NumberStartsAt(input, copied, from, from + |NumberText(c)|);
  }

  /** One component that is no long nanosecond count: the loop passes over it. */
  lemma {:induction false} PassOver(input: string, copied: nat, from: nat, c: Component)
    requires IsComponent(c) && StandsAt(input, from, c) && Shifted(c) == c
    requires copied <= from && (from == copied || !IsNumberChar(input[from - 1]))
    ensures NormalizedFrom(input, copied, from) == NormalizedFrom(input, copied, from + |ComponentText(c)|)
  {
    var p := from + |NumberText(c)|;
    NsOfComponent(input, from, c);
    if c.timeUnit == Nanoseconds {
      NumberOfComponent(input, copied, from, c);
      NumberChars(c);
      hide NormalizedFrom, FindNs, NumberStart, IsComponent, FindPoint;
      ShortNumber(input, copied, from, from, p);
    } else {
      hide NormalizedFrom, FindNs, NumberStart, IsComponent, FindPoint;
      SameFrom(input, copied, from, from + |ComponentText(c)|);
    }
  }

  /** A long nanosecond count: what precedes it is copied, and its shifted form follows. */
  lemma {:induction false} ShiftHere(input: string, copied: nat, from: nat, c: Component)
    requires IsComponent(c) && StandsAt(input, from, c) && Shifted(c) != c
    requires copied <= from && (from == copied || !IsNumberChar(input[from - 1]))
    ensures var next := from + |ComponentText(c)|;
            next <= |input| &&
            NormalizedFrom(input, copied, from)
            == input[copied..from] + ComponentText(Shifted(c)) + NormalizedFrom(input, next, next)
  {
    var p := from + |NumberText(c)|;
    NsOfComponent(input, from, c);
    NumberOfComponent(input, copied, from, c);
    ShiftedComponentText(c);
    LongNumber(input, copied, from, from, p);
  }

  lemma {:induction false} ShiftedComponentText(c: Component)
    requires IsComponent(c) && Shifted(c) != c
    ensures FindPoint(NumberText(c)) == |c.whole| > 18 && ShiftedText(NumberText(c)) == ComponentText(Shifted(c))
  {
    NumberChars(c);
    var number, n := NumberText(c), |c.whole|;
    assert number[..n - 9] == c.whole[..n - 9] && number[n - 9..n] == c.whole[n - 9..];
    if c.point {
      assert number[n + 1..] == c.fraction;
    } else {
      assert number == c.whole && c.fraction == "";
    }
    assert Shifted(c).fraction == c.whole[n - 9..] + c.fraction;
    assert ComponentText(Shifted(c)) == c.whole[..n - 9] + ("." + (c.whole[n - 9..] + c.fraction)) + "s";
  }

  /** On a duration text, from any place between components, the loop produces the shifted components. */
  lemma {:induction false} NormalizedText(input: string, copied: nat, before: string, cs: seq<Component>)
    requires AreComponents(cs) && Between(before) && copied <= |before| && input == before + TextOf(cs)
    ensures NormalizedFrom(input, copied, |before|) == input[copied..|before|] + TextOf(ShiftedAll(cs))
    decreases |cs|
  {
    hide NormalizedFrom, IsComponent, ShiftedAll;
    if cs == [] {
      NoNumber(input, copied, |before|);
      assert TextOf(ShiftedAll(cs)) == "" && input[copied..|before|] + "" == input[copied..];
    } else {
      var c, rest := cs[0], cs[1..];
      var after := before + ComponentText(c);
      assert Between(after) by { UnitChars(c.timeUnit); }
      assert input == after + TextOf(rest);
      assert IsComponent(c) && AreComponents(rest);
      ShiftedAllText(cs);
      if Shifted(c) == c {
        NormalizedText(input, copied, after, rest);
        PassText(input, copied, before, c, TextOf(rest), TextOf(ShiftedAll(rest)));
      } else {
        NormalizedText(input, |after|, after, rest);
        ShiftText(input, copied, before, c, TextOf(rest), TextOf(ShiftedAll(rest)));
      }
    }
  }

  lemma {:induction false} PassText(input: string, copied: nat, before: string, c: Component, rest: string,
      tail: string)
    requires IsComponent(c) && Between(before) && copied <= |before| && Shifted(c) == c
    requires input == before + ComponentText(c) + rest
    requires var next := |before + ComponentText(c)|; NormalizedFrom(input, copied, next) == input[copied..next] + tail
    ensures NormalizedFrom(input, copied, |before|) == input[copied..|before|] + (ComponentText(c) + tail)
  {
    hide NormalizedFrom, IsComponent, NumberText, UnitText, ComponentText, Shifted, StandsAt, IsNumberChar;
    ComponentAt(input, before, c, rest);
    PassOver(input, copied, |before|, c);
    Passed(input, copied, before, ComponentText(c), tail);
  }

  lemma {:induction false} ShiftText(input: string, copied: nat, before: string, c: Component, rest: string,
      tail: string)
    requires IsComponent(c) && Between(before) && copied <= |before| && Shifted(c) != c
    requires input == before + ComponentText(c) + rest
    requires var next := |before + ComponentText(c)|; NormalizedFrom(input, next, next) == input[next..next] + tail
    ensures NormalizedFrom(input, copied, |before|) == input[copied..|before|] + (ComponentText(Shifted(c)) + tail)
  {
    hide NormalizedFrom, IsComponent, NumberText, UnitText, ComponentText, Shifted, StandsAt, IsNumberChar;
    ComponentAt(input, before, c, rest);
    ShiftHere(input, copied, |before|, c);
    var next := |before + ComponentText(c)|;
    assert input[next..next] + tail == tail;
    Joined(input[copied..|before|], ComponentText(Shifted(c)), tail);
  }

  lemma {:induction false} Joined(a: string, b: string, c: string)
    ensures a + b + c == a + (b + c)
  {
  }

  lemma {:induction false} Passed(input: string, copied: nat, before: string, text: string, tail: string)
    requires before + text <= input && copied <= |before|
    ensures input[copied..|before + text|] + tail == input[copied..|before|] + (text + tail)
  {
    assert input[copied..|before + text|] == input[copied..|before|] + text;
  }

  lemma {:induction false} ShiftedAllText(cs: seq<Component>)
    requires cs != []
    ensures TextOf(ShiftedAll(cs)) == ComponentText(Shifted(cs[0])) + TextOf(ShiftedAll(cs[1..]))
  {
    assert ShiftedAll(cs)[1..] == ShiftedAll(cs[1..]);
  }

  /** An optional sign. */
  predicate IsSign(sign: string) {
    sign == "" || sign == "-" || sign == "+"
  }

  /** The rewriting preserves meaning: a duration text becomes a duration text with the same sign and the same value,
      and no nanosecond component is left with more than eighteen integer digits. */
  lemma {:induction false} NormalizePreservesMeaning(sign: string, cs: seq<Component>)
    requires IsSign(sign) && AreComponents(cs)
    ensures var shifted := ShiftedAll(cs);
            && NormalizedFrom(sign + TextOf(cs), 0, 0) == sign + TextOf(shifted)
            && AreComponents(shifted) && Value(shifted) == Value(cs)
            && forall i :: 0 <= i < |shifted| ==> shifted[i].timeUnit == Nanoseconds ==> |shifted[i].whole| <= 18
  {
    var input := sign + TextOf(cs);
    ShiftedAllValue(cs);
    ShiftedAllShort(cs);
    SignSkipped(input, sign);
    hide NormalizedFrom, AreComponents, ShiftedAll, TextOf, Value;
    NormalizedText(input, 0, sign, cs);
    assert input[0..|sign|] == sign;
  }

  lemma {:induction false} SignSkipped(input: string, sign: string)
    requires IsSign(sign) && sign <= input
    ensures NormalizedFrom(input, 0, 0) == NormalizedFrom(input, 0, |sign|)
  {
    SkipTo(input, 0, |sign|);
    SameFrom(input, 0, 0, |sign|);
  }

  lemma {:induction false} ShiftedAllShort(cs: seq<Component>)
    ensures forall i :: 0 <= i < |cs| && ShiftedAll(cs)[i].timeUnit == Nanoseconds ==> |ShiftedAll(cs)[i].whole| <= 18
  {
  }

  // ----- parsing -----

  datatype Status = Parsed | Invalid | OutOfRange

  function Signed(sign: string, value: real): real {
    if sign == "-" then -value else value
  }

  /** Longer fractions of minutes and hours overflow before Abseil divides them. Of the other units it drops digits that
      are worth less than a tick. */
  predicate ShortFraction(c: Component) {
    (c.timeUnit == Minutes ==> |c.fraction| <= 17) && (c.timeUnit == Hours ==> |c.fraction| <= 15)
  }

  predicate Readable(cs: seq<Component>) {
    AreComponents(cs) && forall i :: 0 <= i < |cs| ==> ShortFraction(cs[i])
  }

  /** The same value, or two that are beyond the range of CEL durations: Abseil saturates. */
  predicate SameInRange(x: real, y: real) {
    x == y || (!InRange(x) && !InRange(y))
  }

  /** Abseil reads a duration text as its components, each rounded down to ticks, or refuses it. */
  ghost predicate Faithful(parse: string -> Option<real>) {
    forall sign, cs :: IsSign(sign) && Readable(cs) ==>
      match parse(sign + TextOf(cs))
      case Some(r) => SameInRange(r, Signed(sign, Ticks(cs)))
      case None => true
  }

  /** Abseil accepts a duration text whose integer parts fit in 64 bits. */
  ghost predicate Accepting(parse: string -> Option<real>) {
    forall sign, cs :: IsSign(sign) && Readable(cs) && cs != [] && (forall c :: c in cs ==> |c.whole| <= 18) ==>
      parse(sign + TextOf(cs)).Some?
  }

  function Trunc(x: real): int {
    if x < 0.0 then -(-x).Floor else x.Floor
  }

  /** Strictly less than one nanosecond beyond the 64-bit range. */
  predicate InRange(x: real) {
    (INT64_MIN - 1) as real < x < (INT64_MAX + 1) as real
  }

  predicate Allowed(input: string) {
    input != "" && forall i :: 0 <= i < |input| ==> input[i] in "0123456789+-.hmsun"
  }

  /** What `cel_duration_parse` reads: the first attempt, or the second one on the rewritten text. */
  function Attempts(parse: string -> Option<real>, input: string): Option<real> {
    var first := parse(input);
    if first.Some? then first else parse(NormalizedFrom(input, 0, 0))
  }

  /** `cel_duration_parse`: the text as it is, and once more with its long nanosecond components rewritten. */
  method ParseDuration(input: string, parse: string -> Option<real>) returns (status: Status, nanos: int)
    ensures input == "" || (exists c :: c in input && c !in "0123456789+-.hmsun") ==> status == Invalid
    ensures Allowed(input) ==>
              match Attempts(parse, input)
              case None => status == Invalid
              case Some(value) => IsRead(status, nanos, value)
    ensures status == Parsed ==> IsInt64(nanos)
    ensures Faithful(parse) && Accepting(parse) ==>
              forall sign, cs :: Plain(sign, cs) && input == sign + TextOf(cs) ==>
                && IsRead(status, nanos, Signed(sign, Ticks(cs)))
                && (AllWholeTicks(cs) ==> IsRead(status, nanos, Signed(sign, Value(cs))))
  {
    hide Faithful, Accepting, Plain, AllWholeTicks, TextOf, Ticks, Value, NormalizedFrom, Trunc, IsRead, InRange,
         Allowed, Signed;
    OtherCharacters(input);
    nanos := 0;
    if Allowed(input) {
      var result := parse(input);
      if result.None? {
        var normalized := Normalize(input);
        result := parse(normalized);
      }
      if result.None? {
        status := Invalid;
      } else if !InRange(result.value) {
        status := OutOfRange;
        OutOfRangeIsRead(result.value, nanos);
      } else {
        status := Parsed;
        nanos := Trunc(result.value);
        TruncIsRead(result.value);
      }
    } else {
      status := Invalid;
    }
    if Faithful(parse) && Accepting(parse) {
      forall sign, cs | Plain(sign, cs) && input == sign + TextOf(cs)
        ensures IsRead(status, nanos, Signed(sign, Ticks(cs)))
        ensures AllWholeTicks(cs) ==> IsRead(status, nanos, Signed(sign, Value(cs)))
      {
        PlainIsRead(parse, sign, cs, status, nanos);
      }
    }
  }

  lemma {:induction false} TruncIsRead(x: real)
    requires InRange(x)
    ensures IsInt64(Trunc(x)) && IsRead(Parsed, Trunc(x), x)
  {
  }

  lemma {:induction false} OutOfRangeIsRead(x: real, nanos: int)
    requires !InRange(x)
    ensures IsRead(OutOfRange, nanos, x)
  {
  }

  lemma {:induction false} PlainIsRead(parse: string -> Option<real>, sign: string, cs: seq<Component>, status: Status,
      nanos: int)
    requires Faithful(parse) && Accepting(parse) && Plain(sign, cs)
    requires Allowed(sign + TextOf(cs)) ==>
               match Attempts(parse, sign + TextOf(cs))
               case None => status == Invalid
               case Some(value) => IsRead(status, nanos, value)
    ensures IsRead(status, nanos, Signed(sign, Ticks(cs)))
    ensures AllWholeTicks(cs) ==> IsRead(status, nanos, Signed(sign, Value(cs)))
  {
    PlainIsAllowed(sign, cs);
    ParsingIsExact(parse, sign, cs);
    if AllWholeTicks(cs) {
      TicksClose(cs);
    }
    hide Faithful, Accepting, Plain, TextOf, Ticks, Value, Attempts, Allowed;
  }

  /** A signed duration text whose integer parts have at most eighteen digits, 27 for nanoseconds. */
  predicate Plain(sign: string, cs: seq<Component>) {
    && IsSign(sign) && Readable(cs) && cs != []
    && forall c :: c in cs ==> |c.whole| <= if c.timeUnit == Nanoseconds then 27 else 18
  }

  predicate AllWholeTicks(cs: seq<Component>) {
    forall c :: c in cs ==> WholeTicks(c)
  }

  /** The value is read: without the part after the point, or as out of range if that does not fit in 64 bits. A value
      of whole nanoseconds is read exactly. */
  predicate IsRead(status: Status, nanos: int, value: real) {
    if -9_223_372_036_854_775_809.0 < value < 9_223_372_036_854_775_808.0 then
      && status == Parsed
      && (value >= 0.0 ==> nanos as real <= value < (nanos + 1) as real)
      && (value <= 0.0 ==> (nanos - 1) as real < value <= nanos as real)
      && (value == value.Floor as real ==> nanos == value.Floor)
    else status == OutOfRange
  }

  lemma {:induction false} OtherCharacters(input: string)
    ensures Allowed(input) <==> input != "" && forall c :: c in input ==> c in "0123456789+-.hmsun"
  {
    hide Allowed;
    AllowedUnfold(input);
    if input != "" && forall i :: 0 <= i < |input| ==> input[i] in "0123456789+-.hmsun" {
      forall c | c in input ensures c in "0123456789+-.hmsun" {
        var i :| 0 <= i < |input| && input[i] == c;
      }
    }
  }

  lemma {:induction false} AllowedUnfold(input: string)
    ensures Allowed(input) <==> input != "" && forall i :: 0 <= i < |input| ==> input[i] in "0123456789+-.hmsun"
  {
  }

  lemma {:induction false} MinusNegates(value: real)
    ensures Signed("-", value) == -value && Signed("+", value) == value && Signed("", value) == value
  {
  }

  /** No duration text is refused for its characters. */
  lemma {:induction false} PlainIsAllowed(sign: string, cs: seq<Component>)
    requires Plain(sign, cs)
    ensures Allowed(sign + TextOf(cs))
  {
    hide ComponentText;
    TextIsAllowed(cs);
    ComponentIsAllowed(cs[0]);
    assert TextOf(cs) != "";
  }

  predicate AllowedChars(s: string) {
    forall i :: 0 <= i < |s| ==> s[i] in "0123456789+-.hmsun"
  }

  lemma {:induction false} ComponentIsAllowed(c: Component)
    requires IsComponent(c)
    ensures AllowedChars(ComponentText(c)) && ComponentText(c) != ""
  {
    var chars := "0123456789+-.hmsun";
    assert chars[0..10] == "0123456789" && chars[12] == '.' && chars[13] == 'h' && chars[14] == 'm';
    assert chars[15] == 's' && chars[16] == 'u' && chars[17] == 'n';
    forall d: char | IsDigit(d) ensures d in chars {
      assert chars[d as int - '0' as int] == d;
    }
    assert AllowedChars(UnitText(c.timeUnit));
    assert AllowedChars(NumberText(c));
  }

  lemma {:induction false} TextIsAllowed(cs: seq<Component>)
    requires AreComponents(cs)
    ensures AllowedChars(TextOf(cs))
  {
    if cs != [] {
      ComponentIsAllowed(cs[0]);
      TextIsAllowed(cs[1..]);
    }
  }

  /** On duration texts whose integer parts have at most eighteen digits, 27 for nanoseconds, one of the attempts
      succeeds, and either one reads the text's components in ticks: the rewriting changes no rounding. */
  lemma {:induction false} ParsingIsExact(parse: string -> Option<real>, sign: string, cs: seq<Component>)
    requires Faithful(parse) && Accepting(parse) && Plain(sign, cs)
    ensures var r := Attempts(parse, sign + TextOf(cs));
            r.Some? && SameInRange(r.value, Signed(sign, Ticks(cs)))
  {
    assert AreComponents(cs);
    NormalizePreservesMeaning(sign, cs);
    ShiftedAllTicks(cs);
    ShiftedReadable(cs);
    hide NormalizedFrom, TextOf, Ticks, Readable, SameInRange, ShiftedAll, AreComponents, Value;
    assert parse(sign + TextOf(ShiftedAll(cs))).Some?;
  }

  lemma {:induction false} ShiftedReadable(cs: seq<Component>)
    requires Readable(cs) && forall c :: c in cs ==> |c.whole| <= if c.timeUnit == Nanoseconds then 27 else 18
    ensures Readable(ShiftedAll(cs)) && forall c :: c in ShiftedAll(cs) ==> |c.whole| <= 18
    ensures cs != [] ==> ShiftedAll(cs) != []
  {
    ShiftedAllValue(cs);
    var shifted := ShiftedAll(cs);
    forall i | 0 <= i < |shifted| ensures |shifted[i].whole| <= 18 && ShortFraction(shifted[i]) {
      assert cs[i] in cs && shifted[i] == Shifted(cs[i]);
    }
  }

  /** Where every component is a whole number of ticks, integer nanoseconds among them, what is read is what the text
      denotes, and the result is its whole nanoseconds. */
  lemma {:induction false} WholeTicksAreExact(parse: string -> Option<real>, sign: string, cs: seq<Component>)
    requires Faithful(parse) && Accepting(parse) && Plain(sign, cs) && AllWholeTicks(cs)
    ensures var r := Attempts(parse, sign + TextOf(cs));
            r.Some? && SameInRange(r.value, Signed(sign, Value(cs)))
  {
    ParsingIsExact(parse, sign, cs);
    TicksClose(cs);
    hide Attempts, TextOf, Ticks, Value, Readable, WholeTicks;
  }

  const THREE_PARTS: seq<Component> :=
    [Component("0", true, "3", Nanoseconds), Component("0", true, "3", Nanoseconds),
     Component("0", true, "4", Nanoseconds)]

  /** Where they are not, whole nanoseconds can get lost: `0.3ns0.3ns0.4ns` denotes one and is read as none. */
  lemma {:induction false} RoundingLosesNanoseconds()
    ensures TextOf(THREE_PARTS) == "0.3ns0.3ns0.4ns"
    ensures Value(THREE_PARTS) == 1.0 && Ticks(THREE_PARTS) == 0.75
    ensures Trunc(Value(THREE_PARTS)) == 1 && Trunc(Ticks(THREE_PARTS)) == 0
  {
    var three, four := THREE_PARTS[0], THREE_PARTS[2];
    TenthsValue("3", 3);
    TenthsValue("4", 4);
    assert THREE_PARTS == [three, three, four];
    assert THREE_PARTS[1..] == [three, four] && THREE_PARTS[1..][1..] == [four] && THREE_PARTS[1..][1..][1..] == [];
    assert ComponentText(three) == "0.3ns" && ComponentText(four) == "0.4ns";
    assert TickFloor(0.3) == 0.25 && TickFloor(0.4) == 0.25;
    hide ComponentValue, TickFloor, ComponentText;
    assert TextOf([]) == "" && TextOf([four]) == "0.4ns" + "";
    assert Value([four]) == 0.4 + Value([]) && Ticks([four]) == 0.25 + Ticks([]);
  }

  lemma {:induction false} TenthsValue(digit: string, n: int)
    requires |digit| == 1 && IsDigit(digit[0]) && digit[0] as int - '0' as int == n
    ensures ComponentValue(Component("0", true, digit, Nanoseconds)) == n as real / 10.0
  {
    assert Number("") == 0 && digit[..0] == "" && "0"[..0] == "";
    assert Number(digit) == n && Number("0") == 0;
    assert PowerOfTen(1) == 10 * PowerOfTen(0);
  }
}
