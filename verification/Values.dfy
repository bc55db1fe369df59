/** Values shared by the CEL engine and by the host functions compiled from plain-data plans. */
module Values {

  /** A Unicode code point, lone surrogates included: a Python `str` may hold them. */
  type Code = c: int | 0 <= c < 0x110000 witness 0

  type Text = seq<Code>

  const DOT: Code := 0x2E

  const INT64_MIN: int := -0x8000_0000_0000_0000
  const INT64_MAX: int := 0x7FFF_FFFF_FFFF_FFFF

  predicate IsInt64(n: int) {
    INT64_MIN <= n <= INT64_MAX
  }

  predicate IsSurrogate(c: Code) {
    0xD800 <= c <= 0xDFFF
  }

  /** True of the texts that have a UTF-8 encoding. */
  predicate WellFormed(t: Text) {
    forall i :: 0 <= i < |t| ==> !IsSurrogate(t[i])
  }

  /** Map keys. CEL also has unsigned keys, which no compiled plan can look up. */
  datatype Key = BoolKey(b: bool) | IntKey(n: int) | TextKey(t: Text)

  /** A binding tree. `Foreign` stands for every value outside the plain-data shape: floats, bytes, null, type
      values... */
  datatype Value =
    | VBool(b: bool)
    | VInt(n: int)
    | VText(t: Text)
    | VList(items: seq<Value>)
    | VMap(fields: map<Key, Value>)
    | Foreign(tag: Text)

  /** The sentinel object read in place of an absent entry. It is neither dict, list, str, bool nor int. */
  const MISSING: Value := Foreign([])

  type Bindings = map<Key, Value>

  /** `m.get(key, _MISSING)` on a host dictionary. */
  function Get(m: map<Key, Value>, key: Text): Value {
    if TextKey(key) in m then m[TextKey(key)] else MISSING
  }

  datatype Option<+T> = None | Some(value: T) {
    predicate IsFailure() { None? }

    function PropagateFailure<U>(): Option<U>
      requires None?
    {
      None
    }

    function Extract(): T
      requires Some?
    {
      value
    }
  }

  // ----- text predicates, on code points -----

  predicate StartsWith(t: Text, prefix: Text) {
    prefix <= t
  }

  predicate EndsWith(t: Text, suffix: Text) {
    |suffix| <= |t| && t[|t| - |suffix|..] == suffix
  }

  predicate Contains(t: Text, part: Text) {
    exists i :: 0 <= i <= |t| && part <= t[i..]
  }

  /** Lexicographic order by code point, which is the byte order of the UTF-8 encodings. */
  predicate TextLess(a: Text, b: Text) {
    b != [] && (a == [] || a[0] < b[0] || (a[0] == b[0] && TextLess(a[1..], b[1..])))
  }
}
