/** Scalars and messages of CEL as `google.protobuf.Any` messages, and back: a scalar is wrapped in the message of its
    type, and the serialized message is stored beside the name of its type. */
module ProtoAny {
  import opened ProtoJson
  import Values

  /** A CEL scalar. Timestamps are seconds and nanoseconds, durations are nanoseconds. A message counts as one, with its
      type and its content. */
  datatype Scalar =
    | NullScalar
    | BoolScalar(b: bool)
    | IntScalar(n: int)
    | UintScalar(n: int)
    | DoubleScalar(d: Double)
    | StringScalar(text: seq<Byte>)
    | BytesScalar(bytes: seq<Byte>)
    | TimestampScalar(seconds: int, nanos: int)
    | DurationScalar(nanos: int)
    | MessageScalar(typeName: string, content: seq<Byte>)

  /** The messages scalars are wrapped in, and every message that `adapt` does not look into. */
  datatype Payload =
    | NullPayload
    | BoolPayload(b: bool)
    | IntPayload(n: int)
    | UintPayload(n: int)
    | DoublePayload(d: Double)
    | StringPayload(text: seq<Byte>)
    | BytesPayload(bytes: seq<Byte>)
    | TimestampPayload(seconds: int, nanos: int)
    | DurationPayload(seconds: int, nanos: int)
    | MessagePayload(typeName: string, content: seq<Byte>)

  datatype AnyMessage = AnyMessage(typeUrl: string, value: seq<Byte>)

  /** The wire format and the descriptors, outside this model. They know the types of the payloads, and lose nothing: a
      message of a well-known type is read as that type's payload. */
  datatype Wire = Wire(
    write: Payload -> seq<Byte>,
    knows: string -> bool,
    read: (string, seq<Byte>) -> Values.Option<Payload>)

  ghost predicate Lossless(wire: Wire) {
    forall p :: IsPayload(p) ==> wire.knows(TypeName(p)) && wire.read(TypeName(p), wire.write(p)) == Values.Some(p)
  }

  datatype AnyStatus = AnyOk | AnyLimit | AnyInvalid | AnyUnknownType | AnyOverflow

  const MIN_SECONDS: int := -62135596800
  const MAX_SECONDS: int := 253402300799
  const BILLION: int := 1_000_000_000

  function TypeName(p: Payload): string {
    match p
    case NullPayload => "google.protobuf.Value"
    case BoolPayload(_) => "google.protobuf.BoolValue"
    case IntPayload(_) => "google.protobuf.Int64Value"
    case UintPayload(_) => "google.protobuf.UInt64Value"
    case DoublePayload(_) => "google.protobuf.DoubleValue"
    case StringPayload(_) => "google.protobuf.StringValue"
    case BytesPayload(_) => "google.protobuf.BytesValue"
    case TimestampPayload(_, _) => "google.protobuf.Timestamp"
    case DurationPayload(_, _) => "google.protobuf.Duration"
    case MessagePayload(typeName, _) => typeName
  }

  /** The types that `adapt` turns into other values than messages. */
  const WELL_KNOWN: set<string> :=
    {"google.protobuf.BoolValue", "google.protobuf.BytesValue", "google.protobuf.DoubleValue",
     "google.protobuf.FloatValue", "google.protobuf.Int32Value", "google.protobuf.Int64Value",
     "google.protobuf.StringValue", "google.protobuf.UInt32Value", "google.protobuf.UInt64Value",
     "google.protobuf.Timestamp", "google.protobuf.Duration", "google.protobuf.Struct",
     "google.protobuf.ListValue", "google.protobuf.Value", "google.protobuf.Any"}

  predicate IsPayload(p: Payload) {
    p.MessagePayload? ==> p.typeName !in WELL_KNOWN && '/' !in p.typeName
  }

  const URL_PREFIX: string := "type.googleapis.com/"

  /** `url.substr(url.rfind('/') + 1)`, or None without a slash. */
  function AfterSlash(url: string): Values.Option<string> {
    if url == "" then Values.None
    else if url[|url| - 1] == '/' then Values.Some("")
    else
      match AfterSlash(url[..|url| - 1])
      case Some(name) => Values.Some(name + [url[|url| - 1]])
      case None => Values.None
  }

  lemma {:induction false} NameAfterSlash(prefix: string, name: string)
    requires prefix != "" && prefix[|prefix| - 1] == '/' && '/' !in name
    ensures AfterSlash(prefix + name) == Values.Some(name)
  {
    if name != "" {
      var n := |name| - 1;
      assert (prefix + name)[..|prefix + name| - 1] == prefix + name[..n];
      NameAfterSlash(prefix, name[..n]);
      assert name[..n] + [name[n]] == name;
    } else {
      assert prefix + name == prefix;
    }
  }

  lemma {:induction false} NamesHaveNoSlash(p: Payload)
    requires IsPayload(p)
    ensures '/' !in TypeName(p)
  {
  }

  // ----- the messages of timestamps and durations -----

  /** Division and remainder of the source truncate toward zero. */
  function Quotient(n: int, d: int): int
    requires d > 0
  {
    if n < 0 then -(-n / d) else n / d
  }

  function Wrapped(v: Scalar): Payload {
    match v
    case NullScalar => NullPayload
    case BoolScalar(b) => BoolPayload(b)
    case IntScalar(n) => IntPayload(n)
    case UintScalar(n) => UintPayload(n)
    case DoubleScalar(d) => DoublePayload(d)
    case StringScalar(text) => StringPayload(text)
    case BytesScalar(bytes) => BytesPayload(bytes)
    case TimestampScalar(seconds, nanos) => TimestampPayload(seconds, nanos)
    case DurationScalar(nanos) => DurationPayload(Quotient(nanos, BILLION), nanos - Quotient(nanos, BILLION) * BILLION)
    case MessageScalar(typeName, content) => MessagePayload(typeName, content)
  }

  predicate InTimestampRange(seconds: int, nanos: int) {
    MIN_SECONDS <= seconds <= MAX_SECONDS && 0 <= nanos < BILLION
  }

  /** What a message means, or why it means nothing. */
  function Meaning(p: Payload): (AnyStatus, Scalar) {
    match p
    case NullPayload => (AnyOk, NullScalar)
    case BoolPayload(b) => (AnyOk, BoolScalar(b))
    case IntPayload(n) => (AnyOk, IntScalar(n))
    case UintPayload(n) => (AnyOk, UintScalar(n))
    case DoublePayload(d) => (AnyOk, DoubleScalar(d))
    case StringPayload(text) => (AnyOk, StringScalar(text))
    case BytesPayload(bytes) => (AnyOk, BytesScalar(bytes))
    case TimestampPayload(seconds, nanos) =>
      if InTimestampRange(seconds, nanos) then (AnyOk, TimestampScalar(seconds, nanos)) else (AnyOverflow, NullScalar)
    case DurationPayload(seconds, nanos) =>
      if nanos <= -BILLION || nanos >= BILLION || (seconds > 0 && nanos < 0) || (seconds < 0 && nanos > 0)
      then (AnyInvalid, NullScalar)
      else if !Values.IsInt64(seconds * BILLION + nanos) then (AnyOverflow, NullScalar)
      else (AnyOk, DurationScalar(seconds * BILLION + nanos))
    case MessagePayload(typeName, content) => (AnyOk, MessageScalar(typeName, content))
  }

  /** Seconds and nanoseconds that make up a number of nanoseconds, neither of them of the opposite sign. */
  predicate Splits(total: int, seconds: int, nanos: int) {
    && seconds * 1_000_000_000 + nanos == total
    && -1_000_000_000 < nanos < 1_000_000_000
    && !(seconds > 0 && nanos < 0) && !(seconds < 0 && nanos > 0)
  }

  /** There is one way to split a duration, and it is the one that is written. */
  lemma {:induction false} DurationSplits(total: int)
    ensures Wrapped(DurationScalar(total)).DurationPayload?
    ensures forall seconds, nanos ::
              Splits(total, seconds, nanos) <==> Wrapped(DurationScalar(total)) == DurationPayload(seconds, nanos)
  {
    if total < 0 {
      assert -total == -total / 1_000_000_000 * 1_000_000_000 + -total % 1_000_000_000;
    } else {
      assert total == total / 1_000_000_000 * 1_000_000_000 + total % 1_000_000_000;
    }
  }

  /** A duration message is accepted if and only if it splits a 64-bit number of nanoseconds, which it then means. */
  lemma {:induction false} DurationJoins(seconds: int, nanos: int)
    ensures var total := seconds * 1_000_000_000 + nanos;
            var meaning := Meaning(DurationPayload(seconds, nanos));
            && (meaning.0 == AnyOk <==>
                  && Splits(total, seconds, nanos)
                  && -9_223_372_036_854_775_808 <= total <= 9_223_372_036_854_775_807)
            && (meaning.0 == AnyOk ==> meaning.1 == DurationScalar(total))
            && (meaning.0 == AnyInvalid <==> !Splits(total, seconds, nanos))
  {
  }

  // ----- the calendar -----

  predicate IsLeap(year: int) {
    year % 4 == 0 && (year % 100 != 0 || year % 400 == 0)
  }

  /** The days from the beginning of year 1 to that of another year. */
  function DaysBefore(year: int): int {
    365 * (year - 1) + (year - 1) / 4 - (year - 1) / 100 + (year - 1) / 400
  }

  lemma {:induction false} YearLength(year: int)
    ensures DaysBefore(1) == 0 && DaysBefore(year + 1) == DaysBefore(year) + if IsLeap(year) then 366 else 365
  {
    EveryFour(year);
    EveryHundred(year);
    EveryFourHundred(year);
  }

  lemma {:induction false} EveryFour(n: int)
    ensures n / 4 == (n - 1) / 4 + if n % 4 == 0 then 1 else 0
    ensures n % 100 == 0 ==> n % 4 == 0
  {
  }

  lemma {:induction false} EveryHundred(n: int)
    ensures n / 100 == (n - 1) / 100 + if n % 100 == 0 then 1 else 0
    ensures n % 400 == 0 ==> n % 100 == 0
  {
  }

  lemma {:induction false} EveryFourHundred(n: int)
    ensures n / 400 == (n - 1) / 400 + if n % 400 == 0 then 1 else 0
  {
  }

  /** Timestamps are the seconds, counted from 1970, of the years 1 to 9999. */
  lemma {:induction false} TimestampYears(seconds: int, nanos: int)
    ensures Storable(TimestampScalar(seconds, nanos)) <==>
              && (DaysBefore(1) - DaysBefore(1970)) * 86_400 <= seconds
              && seconds < (DaysBefore(10_000) - DaysBefore(1970)) * 86_400
              && 0 <= nanos < 1_000_000_000
    ensures Meaning(TimestampPayload(seconds, nanos)) ==
            if Storable(TimestampScalar(seconds, nanos)) then (AnyOk, TimestampScalar(seconds, nanos))
            else (AnyOverflow, NullScalar)
  {
  }

  /** A CEL duration is a 64-bit count, and messages of well-known types are other values in CEL. */
  predicate IsScalar(v: Scalar) {
    (v.DurationScalar? ==> Values.IsInt64(v.nanos)) && IsPayload(Wrapped(v))
  }

  predicate Storable(v: Scalar) {
    v.TimestampScalar? ==> InTimestampRange(v.seconds, v.nanos)
  }

  /** Splitting a duration into seconds and nanoseconds of one sign, and joining them, is exact. */
  lemma {:induction false} MeaningWrapped(v: Scalar)
    requires IsScalar(v) && Storable(v)
    ensures Meaning(Wrapped(v)) == (AnyOk, v)
  {
    if v.DurationScalar? {
      var n, d := v.nanos, BILLION;
      if n < 0 {
        assert -n == -n / d * d + -n % d;
      } else {
        assert n == n / d * d + n % d;
      }
    }
  }

  /** A message that means a scalar is the message of that scalar, so no two messages mean the same. */
  lemma {:induction false} WrappedMeaning(p: Payload)
    requires IsPayload(p) && Meaning(p).0 == AnyOk
    ensures Wrapped(Meaning(p).1) == p && Storable(Meaning(p).1) && IsScalar(Meaning(p).1)
  {
    if p.DurationPayload? {
      var n := p.seconds * BILLION + p.nanos;
      if n < 0 {
        assert -n == -p.seconds * BILLION + -p.nanos;
        DividesOnce(-n, -p.seconds, -p.nanos);
      } else {
        DividesOnce(n, p.seconds, p.nanos);
      }
    }
  }

  lemma {:induction false} DividesOnce(n: int, q: int, r: int)
    requires n == q * BILLION + r && 0 <= r < BILLION
    ensures n / BILLION == q && n % BILLION == r
  {
  }

  // ----- work -----

  predicate IsWrapper(p: Payload) {
    !p.NullPayload? && !p.TimestampPayload? && !p.DurationPayload? && !p.MessagePayload?
  }

  /** A message is its own payload; a scalar is boxed first, one level deeper. */
  function Boxing(v: Scalar): nat {
    if v.MessageScalar? then 0 else 1
  }

  /** Reading or writing the field of a wrapper is one more call, one level deeper. */
  function Units(p: Payload): nat {
    if IsWrapper(p) then 1 else 0
  }

  function PayloadText(p: Payload): nat {
    match p
    case StringPayload(text) => |text|
    case BytesPayload(bytes) => |bytes|
    case _ => 0
  }

  /** A payload is adapted one level down, and a wrapper's field is read one level further. */
  predicate WithinLimits(wire: Wire, p: Payload, limits: Limits) {
    && 1 + Units(p) <= limits.depth
    && PayloadText(p) <= limits.bytes && |wire.write(p)| <= limits.bytes
  }

  /** `assign` and `read` of the field of a wrapper. */
  method MoveField(scope: Scope, p: Payload, depth: nat) returns (moved: bool)
    modifies scope
    ensures moved <==>
              IsWrapper(p) ==> && depth <= scope.limits.depth && 1 <= old(scope.remaining)
                               && PayloadText(p) <= scope.limits.bytes && PayloadText(p) <= old(scope.remainingBytes)
    ensures moved ==> scope.Drew(Units(p), PayloadText(p))
  {
    if !IsWrapper(p) {
      return true;
    }
    moved := scope.Enter(depth);
    if moved && (p.StringPayload? || p.BytesPayload?) {
      moved := scope.ChargeText(PayloadText(p));
    }
  }

  /** The type URLs of the messages scalars are boxed as. */
  function StandardUrl(v: Scalar): string {
    "type.googleapis.com/" +
    match v
    case NullScalar => "google.protobuf.Value"
    case BoolScalar(_) => "google.protobuf.BoolValue"
    case IntScalar(_) => "google.protobuf.Int64Value"
    case UintScalar(_) => "google.protobuf.UInt64Value"
    case DoubleScalar(_) => "google.protobuf.DoubleValue"
    case StringScalar(_) => "google.protobuf.StringValue"
    case BytesScalar(_) => "google.protobuf.BytesValue"
    case TimestampScalar(_, _) => "google.protobuf.Timestamp"
    case DurationScalar(_) => "google.protobuf.Duration"
    case MessageScalar(typeName, _) => typeName
  }

  lemma {:induction false} BoxedMessage(wire: Wire, v: Scalar)
    ensures URL_PREFIX + TypeName(Wrapped(v)) == StandardUrl(v)
    ensures v.DurationScalar? ==>
              exists seconds, nanos ::
                Splits(v.nanos, seconds, nanos) && wire.write(Wrapped(v)) == wire.write(DurationPayload(seconds, nanos))
  {
    if v.DurationScalar? {
      DurationSplits(v.nanos);
      hide Splits;
      var p := Wrapped(v);
      assert Splits(v.nanos, p.seconds, p.nanos) && p == DurationPayload(p.seconds, p.nanos);
    }
  }

  /** `box` for the type `google.protobuf.Any`. */
  method BoxAny(scope: Scope, wire: Wire, v: Scalar, depth: nat) returns (status: AnyStatus, any: AnyMessage)
    modifies scope
    ensures status == AnyOk <==>
              var p := Wrapped(v);
              && Storable(v) && depth + Boxing(v) + Units(p) <= scope.limits.depth
              && 1 + Boxing(v) + Units(p) <= old(scope.remaining)
              && PayloadText(p) <= scope.limits.bytes && |wire.write(p)| <= scope.limits.bytes
              && PayloadText(p) + |wire.write(p)| <= old(scope.remainingBytes)
    ensures status == AnyOk ==>
              && any == AnyMessage(URL_PREFIX + TypeName(Wrapped(v)), wire.write(Wrapped(v)))
              && scope.Drew(1 + Boxing(v) + Units(Wrapped(v)), PayloadText(Wrapped(v)) + |wire.write(Wrapped(v))|)
    ensures status == AnyOk ==> any.typeUrl == StandardUrl(v)
    ensures status == AnyOk && v.DurationScalar? ==>
              exists seconds, nanos ::
                Splits(v.nanos, seconds, nanos) && any.value == wire.write(DurationPayload(seconds, nanos))
    ensures status == AnyOverflow ==> !Storable(v)
  {
    BoxedMessage(wire, v);
    hide Splits, TypeName, StandardUrl, Storable, Quotient;
    any := AnyMessage("", []);
    var entered := scope.Enter(depth);
    if entered && !v.MessageScalar? {
      entered := scope.Enter(depth + 1);
    }
    if !entered {
      return AnyLimit, any;
    }
    if !Storable(v) {
      return AnyOverflow, any;
    }
    var p := Wrapped(v);
    var moved := MoveField(scope, p, depth + 2);
    if !moved {
      return AnyLimit, any;
    }
    var bytes := wire.write(p);
    var paid := scope.ChargeText(|bytes|);
    if !paid {
      return AnyLimit, any;
    }
    return AnyOk, AnyMessage(URL_PREFIX + TypeName(p), bytes);
  }

  /** `adapt` for the type `google.protobuf.Any`. */
  method AdaptAny(scope: Scope, wire: Wire, any: AnyMessage, depth: nat) returns (status: AnyStatus, v: Scalar)
    modifies scope
    ensures status == AnyOk <==>
              && AfterSlash(any.typeUrl).Some? && wire.knows(AfterSlash(any.typeUrl).value)
              && wire.read(AfterSlash(any.typeUrl).value, any.value).Some?
              && var p := wire.read(AfterSlash(any.typeUrl).value, any.value).value;
                 && Meaning(p).0 == AnyOk
                 && depth + 1 + Units(p) <= scope.limits.depth && 1 + Units(p) <= old(scope.remaining)
                 && PayloadText(p) <= scope.limits.bytes && |any.value| <= scope.limits.bytes
                 && |any.value| + PayloadText(p) <= old(scope.remainingBytes)
    ensures status == AnyOk ==>
              var p := wire.read(AfterSlash(any.typeUrl).value, any.value).value;
              v == Meaning(p).1 && scope.Drew(1 + Units(p), |any.value| + PayloadText(p))
    ensures status == AnyOk ==>
              match wire.read(AfterSlash(any.typeUrl).value, any.value).value
              case DurationPayload(seconds, nanos) =>
                Splits(seconds * 1_000_000_000 + nanos, seconds, nanos) &&
                v == DurationScalar(seconds * 1_000_000_000 + nanos)
              case TimestampPayload(seconds, nanos) =>
                Storable(TimestampScalar(seconds, nanos)) && v == TimestampScalar(seconds, nanos)
              case _ => true
    ensures status == AnyUnknownType <==>
              && depth <= scope.limits.depth && AfterSlash(any.typeUrl).Some?
              && !wire.knows(AfterSlash(any.typeUrl).value)
    ensures status == AnyInvalid ==>
              || AfterSlash(any.typeUrl).None?
              || wire.read(AfterSlash(any.typeUrl).value, any.value).None?
              || Meaning(wire.read(AfterSlash(any.typeUrl).value, any.value).value).0 == AnyInvalid
    ensures status == AnyOverflow ==>
              && AfterSlash(any.typeUrl).Some? && wire.read(AfterSlash(any.typeUrl).value, any.value).Some?
              && Meaning(wire.read(AfterSlash(any.typeUrl).value, any.value).value).0 == AnyOverflow
  {
    v := NullScalar;
    if depth > scope.limits.depth {
      return AnyLimit, v;
    }
    var name := AfterSlash(any.typeUrl);
    if name.None? {
      return AnyInvalid, v;
    }
    if !wire.knows(name.value) {
      return AnyUnknownType, v;
    }
    if |any.value| > scope.limits.bytes || |any.value| > scope.remainingBytes || scope.remaining == 0 {
      return AnyLimit, v;
    }
    var paid := scope.ChargeText(|any.value|);
    var entered := scope.Enter(depth);
    assert paid && entered;
    var parsed := wire.read(name.value, any.value);
    if parsed.None? {
      return AnyInvalid, v;
    }
    if depth + 1 > scope.limits.depth {
      return AnyLimit, v;
    }
    var p := parsed.value;
    var moved := MoveField(scope, p, depth + 2);
    if !moved {
      return AnyLimit, v;
    }
    return Meaning(p).0, Meaning(p).1;
  }

  /** A scalar or message assigned to a field of type `google.protobuf.Any` and read back: given the budget for both
      ways, it comes back exactly. */
  method ThroughAny(scope: Scope, wire: Wire, v: Scalar) returns (status: AnyStatus, w: Scalar)
    requires Lossless(wire) && IsScalar(v)
    modifies scope
    ensures status == AnyOk <==>
              var p := Wrapped(v);
              && Storable(v) && WithinLimits(wire, p, scope.limits)
              && 2 + Boxing(v) + 2 * Units(p) <= old(scope.remaining)
              && 2 * (PayloadText(p) + |wire.write(p)|) <= old(scope.remainingBytes)
    ensures status == AnyOk ==> w == v
  {
    w := NullScalar;
    var any;
    status, any := BoxAny(scope, wire, v, 0);
    if status == AnyOk {
      var p := Wrapped(v);
      NamesHaveNoSlash(p);
      NameAfterSlash(URL_PREFIX, TypeName(p));
      MeaningWrapped(v);
      status, w := AdaptAny(scope, wire, any, 0);
    }
  }
}
