/** The engine's dynamically typed values (src/native_storage.cpp:54-221). Integers are
    unbounded and doubles are exact reals; not-a-number is left out. */
module Values {
  import opened Bytes
  import Lexicographic

  datatype Value =
    | Null
    | Integer(i: int)
    | Real(r: real)
    | Text(text: seq<byte>)
    | Boolean(b: bool)
    | Blob(blob: seq<byte>)

  type Row = seq<Value>

  function Tag(v: Value): nat {
    match v
    case Null => 0
    case Integer(_) => 1
    case Real(_) => 2
    case Text(_) => 3
    case Boolean(_) => 4
    case Blob(_) => 5
  }

  predicate IsNumeric(v: Value) {
    v.Integer? || v.Real? || v.Boolean?
  }

  function AsReal(v: Value): real
    requires IsNumeric(v)
  {
    match v
    case Integer(i) => i as real
    case Real(r) => r
    case Boolean(b) => if b then 1.0 else 0.0
  }

  predicate AsBoolean(v: Value) {
    match v
    case Null => false
    case Integer(i) => i != 0
    case Real(r) => r != 0.0
    case Text(s) => s != []
    case Boolean(b) => b
    case Blob(s) => s != []
  }

  /** operator==: numbers by value whatever their type, everything else by type and contents. */
  predicate Equal(a: Value, b: Value) {
    if a.Null? || b.Null? then a.Null? && b.Null?
    else if IsNumeric(a) && IsNumeric(b) then AsReal(a) == AsReal(b)
    else a == b
  }

  function Sign(less: bool, greater: bool): int {
    if less then -1 else if greater then 1 else 0
  }

  function CompareBytes(a: seq<byte>, b: seq<byte>): int {
    Sign(Lexicographic.Less(a, b), Lexicographic.Less(b, a))
  }

  function Compare(a: Value, b: Value): int {
    if a.Null? || b.Null? then Sign(a.Null? && !b.Null?, !a.Null? && b.Null?)
    else if IsNumeric(a) && IsNumeric(b) then Sign(AsReal(a) < AsReal(b), AsReal(a) > AsReal(b))
    else if Tag(a) != Tag(b) then (if Tag(a) < Tag(b) then -1 else 1)
    else if a.Text? then CompareBytes(a.text, b.text)
    else CompareBytes(a.blob, b.blob)
  }

  /** Values of one declared column: all of one tag, never NULL or Boolean. */
  predicate InColumn(tag: nat, v: Value) {
    Tag(v) == tag && !v.Null? && !v.Boolean?
  }

  /** Within one column comparison is a total order that agrees with equality. */
  lemma ColumnOrder(tag: nat, a: Value, b: Value, c: Value)
    requires InColumn(tag, a) && InColumn(tag, b) && InColumn(tag, c)
    ensures Compare(a, b) == 0 <==> a == b
    ensures Equal(a, b) <==> a == b
    ensures Compare(a, b) < 0 <==> Compare(b, a) > 0
    ensures Compare(a, b) < 0 && Compare(b, c) < 0 ==> Compare(a, c) < 0
  {
    match a
    case Text(_) => BytesOrder(a.text, b.text, c.text);
    case Blob(_) => BytesOrder(a.blob, b.blob, c.blob);
    case _ =>
  }

  lemma BytesOrder(a: seq<byte>, b: seq<byte>, c: seq<byte>)
    ensures CompareBytes(a, b) == 0 <==> a == b
    ensures CompareBytes(a, b) < 0 <==> CompareBytes(b, a) > 0
    ensures CompareBytes(a, b) < 0 && CompareBytes(b, c) < 0 ==> CompareBytes(a, c) < 0
  {
    Lexicographic.Irreflexive(a);
    Lexicographic.Connected(a, b);
    if Lexicographic.Less(a, b) && Lexicographic.Less(b, a) { Lexicographic.Transitive(a, b, a); }
    if Lexicographic.Less(a, b) && Lexicographic.Less(b, c) { Lexicographic.Transitive(a, b, c); }
    if Lexicographic.Less(a, c) && Lexicographic.Less(c, a) { Lexicographic.Transitive(a, c, a); }
  }

  /** Across types it is not even transitive. */
  lemma NotTransitive(s: seq<byte>)
    ensures Compare(Text(s), Boolean(true)) < 0 && Compare(Boolean(true), Integer(5)) < 0
    ensures Compare(Text(s), Integer(5)) > 0
  {
  }

  // ------------------------------------------------------------------- hashing

  const TwoTo64: nat := 0x1_0000_0000_0000_0000

  /** The library's and the engine's mixing functions; nothing depends on what they compute. */
  const HashReal: real -> nat
  const HashText: seq<byte> -> nat
  const Combine: (nat, nat) -> nat

  function HashBlob(seed: nat, s: seq<byte>): nat
    decreases s
  {
    if s == [] then seed else HashBlob(Combine(seed, s[0]), s[1..])
  }

  function Hash(v: Value): nat {
    if IsNumeric(v) then Combine(2, HashReal(AsReal(v)))
    else match v
      case Text(s) => Combine(3, HashText(s))
      case Blob(s) => HashBlob(5, s)
      case _ => Tag(v)
  }

  /** Equal values, of whatever types, hash alike. */
  lemma EqualHash(a: Value, b: Value)
    requires Equal(a, b)
    ensures Hash(a) == Hash(b)
  {
  }
}
