/** Column vectors of one type with a bitmap for NULLs (src/native_vectorized.cpp:45-188): which
    values they give back for the values appended. */
module TypedVectors {
  import opened Wrappers
  import opened Bytes
  import opened Words
  import opened Values
  import opened Tables

  datatype Kind = NullKind | IntegerKind | RealKind | TextKind | BooleanKind | BlobKind

  /** The typed array, its alternative being the vector's type. */
  datatype Storage =
    | NoStorage
    | Integers(ints: seq<int>)
    | Reals(reals: seq<real>)
    | Texts(texts: seq<seq<byte>>)
    | Booleans(bools: seq<bool>)
    | Blobs(blobs: seq<seq<byte>>)

  datatype VectorError = NotConvertible

  function KindOf(v: Value): Kind {
    match v
    case Null => NullKind
    case Integer(_) => IntegerKind
    case Real(_) => RealKind
    case Text(_) => TextKind
    case Boolean(_) => BooleanKind
    case Blob(_) => BlobKind
  }

  function KindOfStorage(s: Storage): Kind {
    match s
    case NoStorage => NullKind
    case Integers(_) => IntegerKind
    case Reals(_) => RealKind
    case Texts(_) => TextKind
    case Booleans(_) => BooleanKind
    case Blobs(_) => BlobKind
  }

  // -------------------------------------------------------------------- storage

  /** So many default elements. */
  function Blank(kind: Kind, n: nat): Storage {
    match kind
    case NullKind => NoStorage
    case IntegerKind => Integers(seq(n, _ => 0))
    case RealKind => Reals(seq(n, _ => 0.0))
    case TextKind => Texts(seq(n, _ => []))
    case BooleanKind => Booleans(seq(n, _ => false))
    case BlobKind => Blobs(seq(n, _ => []))
  }

  predicate Sized(s: Storage, n: nat) {
    match s
    case NoStorage => true
    case Integers(xs) => |xs| == n
    case Reals(xs) => |xs| == n
    case Texts(xs) => |xs| == n
    case Booleans(xs) => |xs| == n
    case Blobs(xs) => |xs| == n
  }

  function Element(s: Storage, i: nat): Value {
    match s
    case NoStorage => Null
    case Integers(xs) => if i < |xs| then Integer(xs[i]) else Null
    case Reals(xs) => if i < |xs| then Real(xs[i]) else Null
    case Texts(xs) => if i < |xs| then Text(xs[i]) else Null
    case Booleans(xs) => if i < |xs| then Boolean(xs[i]) else Null
    case Blobs(xs) => if i < |xs| then Blob(xs[i]) else Null
  }

  function ToReals(xs: seq<int>): (reals: seq<real>)
    ensures |reals| == |xs| && forall i :: 0 <= i < |xs| ==> reals[i] == xs[i] as real
  {
    seq(|xs|, i requires 0 <= i < |xs| => xs[i] as real)
  }

  /** A first value decides the type; a real among integers widens them all. */
  function Prepared(s: Storage, n: nat, v: Value): Storage {
    if v.Null? then s
    else if s.NoStorage? then Blank(KindOf(v), n)
    else if s.Integers? && v.Real? then Reals(ToReals(s.ints))
    else s
  }

  /** asInteger, asReal and asBlob throw where there is nothing to convert. */
  predicate Convertible(kind: Kind, v: Value) {
    match kind
    case IntegerKind => IsNumeric(v)
    case RealKind => IsNumeric(v)
    case BlobKind => v.Blob?
    case _ => true
  }

  function Pushed(s: Storage, v: Value): Storage
    requires v.Null? || Convertible(KindOfStorage(s), v)
  {
    match s
    case NoStorage => s
    case Integers(xs) => Integers(xs + [if v.Null? then 0 else AsInteger(v)])
    case Reals(xs) => Reals(xs + [if v.Null? then 0.0 else AsReal(v)])
    case Texts(xs) => Texts(xs + [if v.Null? then [] else ToText(v)])
    case Booleans(xs) => Booleans(xs + [!v.Null? && AsBoolean(v)])
    case Blobs(xs) => Blobs(xs + [if v.Null? then [] else v.blob])
  }

  // ------------------------------------------------------------- specification

  /** A vector as its reader sees it. */
  datatype Seen = Seen(kind: Kind, values: seq<Value>)

  function KindAfter(kind: Kind, v: Value): Kind {
    if v.Null? then kind
    else if kind == NullKind then KindOf(v)
    else if kind == IntegerKind && v.Real? then RealKind
    else kind
  }

  function Convert(kind: Kind, v: Value): Value
    requires v.Null? || Convertible(kind, v)
  {
    if v.Null? then Null
    else match kind
      case NullKind => Null
      case IntegerKind => Integer(AsInteger(v))
      case RealKind => Real(AsReal(v))
      case TextKind => Text(ToText(v))
      case BooleanKind => Boolean(AsBoolean(v))
      case BlobKind => v
  }

  function Widen(v: Value): Value {
    if v.Integer? then Real(v.i as real) else v
  }

  function Widened(values: seq<Value>): (w: seq<Value>)
    ensures |w| == |values| && forall i :: 0 <= i < |values| ==> w[i] == Widen(values[i])
  {
    seq(|values|, i requires 0 <= i < |values| => Widen(values[i]))
  }

  predicate Accepts(kind: Kind, v: Value) {
    v.Null? || Convertible(KindAfter(kind, v), v)
  }

  function Appended(c: Seen, v: Value): Seen
    requires Accepts(c.kind, v)
  {
    var kind := KindAfter(c.kind, v);
    Seen(kind, (if kind == c.kind || c.kind == NullKind then c.values else Widened(c.values)) + [Convert(kind, v)])
  }

  // ----------------------------------------------------------------- the object

  function Reading(bitmap: seq<bv64>, s: Storage, n: nat): (c: Seen)
    requires n <= 64 * |bitmap|
    ensures |c.values| == n && c.kind == KindOfStorage(s)
    ensures forall i :: 0 <= i < n ==> c.values[i] == if Marked(bitmap, i) then Null else Element(s, i)
  {
    Seen(KindOfStorage(s), seq(n, i requires 0 <= i < n => if Marked(bitmap, i) then Null else Element(s, i)))
  }

  /** Bit i of the bitmap. */
  predicate Marked(bitmap: seq<bv64>, i: nat)
    requires i < 64 * |bitmap|
  {
    HasBit(bitmap[i / 64], i % 64)
  }

  /** The bitmap covers the elements and marks none beyond them; without a type all are NULL. */
  ghost predicate Good(bitmap: seq<bv64>, s: Storage, n: nat) {
    && n <= 64 * |bitmap| && Sized(s, n)
    && (forall i: nat :: n <= i < 64 * |bitmap| ==> !Marked(bitmap, i))
    && (s.NoStorage? ==> forall i: nat :: i < n ==> Marked(bitmap, i))
  }

  lemma SamePosition(i: nat, n: nat)
    ensures i / 64 == n / 64 && i % 64 == n % 64 <==> i == n
  {
  }

  function Marking(bitmap: seq<bv64>, n: nat): (marked: seq<bv64>)
    requires n < 64 * |bitmap|
    ensures |marked| == |bitmap|
    ensures forall i: nat :: i < 64 * |bitmap| ==> (Marked(marked, i) <==> i == n || Marked(bitmap, i))
  {
    MarksOne(bitmap, n);
    bitmap[n / 64 := WithBit(bitmap[n / 64], n % 64)]
  }

  lemma MarksOne(bitmap: seq<bv64>, n: nat)
    requires n < 64 * |bitmap|
    ensures var marked := bitmap[n / 64 := WithBit(bitmap[n / 64], n % 64)];
      forall i: nat :: i < 64 * |bitmap| ==> (Marked(marked, i) <==> i == n || Marked(bitmap, i))
  {
    var marked := bitmap[n / 64 := WithBit(bitmap[n / 64], n % 64)];
    forall i: nat | i < 64 * |bitmap| ensures Marked(marked, i) <==> i == n || Marked(bitmap, i) {
      SamePosition(i, n);
    }
  }

  lemma PushedSize(s: Storage, n: nat, v: Value)
    requires Sized(s, n) && (v.Null? || Convertible(KindOfStorage(Prepared(s, n, v)), v))
    ensures Sized(Prepared(s, n, v), n) && Sized(Pushed(Prepared(s, n, v), v), n + 1)
    ensures KindOfStorage(Pushed(Prepared(s, n, v), v)) == KindOfStorage(Prepared(s, n, v)) == KindAfter(KindOfStorage(s), v)
  {
  }

  /** Earlier elements stay, widened if the type changed; the new one is converted. */
  lemma PushedElements(s: Storage, n: nat, v: Value, i: nat)
    requires Sized(s, n) && (v.Null? || Convertible(KindOfStorage(Prepared(s, n, v)), v)) && i < n && !s.NoStorage?
    ensures Element(Pushed(Prepared(s, n, v), v), i)
         == if KindAfter(KindOfStorage(s), v) == KindOfStorage(s) then Element(s, i) else Widen(Element(s, i))
  {
  }

  lemma PushedLast(s: Storage, n: nat, v: Value)
    requires Sized(s, n) && !v.Null? && Convertible(KindOfStorage(Prepared(s, n, v)), v)
    ensures Element(Pushed(Prepared(s, n, v), v), n) == Convert(KindAfter(KindOfStorage(s), v), v)
  {
  }

  lemma PushedReading(bitmap: seq<bv64>, bitmap': seq<bv64>, s: Storage, n: nat, v: Value)
    requires Good(bitmap, s, n) && n < 64 * |bitmap| == 64 * |bitmap'|
    requires v.Null? || Convertible(KindOfStorage(Prepared(s, n, v)), v)
    requires forall i: nat :: i < 64 * |bitmap| ==> (Marked(bitmap', i) <==> (v.Null? && i == n) || Marked(bitmap, i))
    ensures Good(bitmap', Pushed(Prepared(s, n, v), v), n + 1) && Accepts(KindOfStorage(s), v)
    ensures Reading(bitmap', Pushed(Prepared(s, n, v), v), n + 1) == Appended(Reading(bitmap, s, n), v)
  {
    var s' := Pushed(Prepared(s, n, v), v);
    PushedSize(s, n, v);
    var before, after := Reading(bitmap, s, n), Reading(bitmap', s', n + 1);
    if !v.Null? { PushedLast(s, n, v); }
    forall i: nat | i <= n ensures after.values[i] == Appended(before, v).values[i] {
      if i < n && !s.NoStorage? { PushedElements(s, n, v, i); }
    }
  }

  class TypedVector {
    var size: nat
    var nullBitmap: seq<bv64>
    var storage: Storage

    ghost predicate Valid()
      reads this
    {
      Good(nullBitmap, storage, size)
    }

    function Contents(): (c: Seen)
      requires Valid()
      reads this
    {
      Reading(nullBitmap, storage, size)
    }

    constructor (kind: Kind)
      ensures Valid() && Contents() == Seen(kind, [])
    {
      size, nullBitmap, storage := 0, [], Blank(kind, 0);
    }

    method IsNull(index: nat) returns (r: bool)
      requires Valid() && index < size
      ensures r <==> Contents().values[index].Null?
    {
      r := Marked(nullBitmap, index);
      if !r { ElementPresent(storage, size, index); }
    }

    method ValueAt(index: nat) returns (v: Value)
      requires Valid() && index < size
      ensures v == Contents().values[index]
    {
      v := if Marked(nullBitmap, index) then Null else Element(storage, index);
    }

    method Append(input: Value) returns (r: Result<(), VectorError>)
      requires Valid()
      modifies this
      ensures Valid()
      ensures r.Ok? <==> Accepts(old(Contents()).kind, input)
      ensures r.Ok? ==> Contents() == Appended(old(Contents()), input)
    {
      Grow();
      var prepared := Prepared(storage, size, input);
      PreparedKind(storage, size, input);
      if !input.Null? && !Convertible(KindOfStorage(prepared), input) { return Err(NotConvertible); }
      var marked := if input.Null? then Marking(nullBitmap, size) else nullBitmap;
      PushedReading(nullBitmap, marked, storage, size, input);
      nullBitmap, storage, size := marked, Pushed(prepared, input), size + 1;
      r := Ok(());
    }

    /** A new word of the bitmap when the last is full. */
    method Grow()
      requires Valid()
      modifies this`nullBitmap
      ensures Valid() && size < 64 * |nullBitmap| && Contents() == old(Contents())
    {
      if |nullBitmap| <= size / 64 {
        GrownReading(nullBitmap, storage, size);
        nullBitmap := nullBitmap + [0];
      }
    }
  }

  lemma GrownReading(bitmap: seq<bv64>, s: Storage, n: nat)
    requires Good(bitmap, s, n)
    ensures Good(bitmap + [0], s, n) && Reading(bitmap + [0], s, n) == Reading(bitmap, s, n)
  {
    forall i: nat | i < 64 * |bitmap + [0]| ensures Marked(bitmap + [0], i) <==> i < 64 * |bitmap| && Marked(bitmap, i) {
      if i >= 64 * |bitmap| { NoBits(i % 64); }
    }
  }

  lemma ElementPresent(s: Storage, n: nat, i: nat)
    requires Sized(s, n) && i < n && !s.NoStorage?
    ensures !Element(s, i).Null?
  {
  }

  lemma PreparedKind(s: Storage, n: nat, v: Value)
    ensures KindOfStorage(Prepared(s, n, v)) == KindAfter(KindOfStorage(s), v)
  {
  }

  // --------------------------------------------------- what a vector gives back

  function AppendAll(kind: Kind, vs: seq<Value>): Result<Seen, VectorError> {
    if vs == [] then Ok(Seen(kind, []))
    else match AppendAll(kind, vs[..|vs| - 1])
      case Err(e) => Err(e)
      case Ok(c) => if Accepts(c.kind, vs[|vs| - 1]) then Ok(Appended(c, vs[|vs| - 1])) else Err(NotConvertible)
  }

  predicate OfKind(kind: Kind, v: Value) {
    v.Null? || KindOf(v) == kind
  }

  /** Values of one type come back as they were appended, whether the vector was declared with
      the type or takes it from the first value. */
  lemma {:induction false} UniformComesBack(kind: Kind, declared: Kind, vs: seq<Value>)
    requires declared == kind || declared == NullKind
    requires forall i :: 0 <= i < |vs| ==> OfKind(kind, vs[i])
    ensures AppendAll(declared, vs).Ok? && AppendAll(declared, vs).value.values == vs
    ensures AppendAll(declared, vs).value.kind in {declared, kind}
  {
    if vs != [] {
      var start, last := vs[..|vs| - 1], vs[|vs| - 1];
      UniformComesBack(kind, declared, start);
      var c := AppendAll(declared, start).value;
      OneMoreUniform(kind, c, last);
      assert vs == start + [last];
    }
  }

  lemma OneMoreUniform(kind: Kind, c: Seen, v: Value)
    requires OfKind(kind, v) && (c.kind == kind || c.kind == NullKind)
    ensures Accepts(c.kind, v) && Appended(c, v).values == c.values + [v]
    ensures Appended(c, v).kind == if v.Null? then c.kind else kind
  {
  }

  /** The type after these values. */
  function KindUpTo(declared: Kind, vs: seq<Value>): Kind {
    if vs == [] then declared else KindAfter(KindUpTo(declared, vs[..|vs| - 1]), vs[|vs| - 1])
  }

  /** Values that a vector of this type does not distort. */
  predicate Undistorted(kind: Kind, v: Value) {
    v.Null? || match kind
      case NullKind => false
      case IntegerKind => v.Integer? || v.Boolean?
      case RealKind => IsNumeric(v)
      case TextKind => v.Text?
      case BooleanKind => IsNumeric(v) && (AsReal(v) == 0.0 || AsReal(v) == 1.0)
      case BlobKind => v.Blob?
  }

  predicate Faithful(values: seq<Value>, vs: seq<Value>) {
    |values| == |vs| && forall i :: 0 <= i < |vs| ==> Equal(values[i], vs[i])
  }

  predicate AllKept(declared: Kind, vs: seq<Value>) {
    forall i :: 0 <= i < |vs| ==> Undistorted(KindUpTo(declared, vs[..i + 1]), vs[i])
  }

  lemma ConvertKeeps(kind: Kind, v: Value)
    requires Accepts(kind, v)
    ensures Equal(Convert(KindAfter(kind, v), v), v) <==> Undistorted(KindAfter(kind, v), v)
  {
  }

  lemma WidenKeeps(a: Value, v: Value)
    ensures Equal(Widen(a), v) <==> Equal(a, v)
  {
  }

  /** Whatever is appended, every value reads back as one equal to it exactly when each was
      kept by the type the vector had by then. Widening integers to reals distorts nothing. */
  lemma {:induction false} ComesBackIff(declared: Kind, vs: seq<Value>)
    requires AppendAll(declared, vs).Ok?
    ensures AppendAll(declared, vs).value.kind == KindUpTo(declared, vs) && |AppendAll(declared, vs).value.values| == |vs|
    ensures Faithful(AppendAll(declared, vs).value.values, vs) <==> AllKept(declared, vs)
  {
    if vs != [] {
      var n := |vs| - 1;
      AppendAllNext(declared, vs, n);
      ComesBackIff(declared, vs[..n]);
      var c := AppendAll(declared, vs[..n]).value;
      ConvertKeeps(c.kind, vs[n]);
      AppendedFaithful(c, vs[..n], vs[n]);
      AllKeptNext(declared, vs, n);
    } else {
      assert AppendAll(declared, vs) == Ok(Seen(declared, []));
    }
  }

  lemma AppendAllNext(declared: Kind, vs: seq<Value>, n: nat)
    requires |vs| == n + 1 && AppendAll(declared, vs).Ok?
    ensures vs == vs[..n] + [vs[n]] && KindUpTo(declared, vs) == KindAfter(KindUpTo(declared, vs[..n]), vs[n])
    ensures AppendAll(declared, vs[..n]).Ok? && Accepts(AppendAll(declared, vs[..n]).value.kind, vs[n])
    ensures AppendAll(declared, vs) == Ok(Appended(AppendAll(declared, vs[..n]).value, vs[n]))
  {
  }

  lemma AppendedFaithful(c: Seen, vs: seq<Value>, v: Value)
    requires Accepts(c.kind, v) && |c.values| == |vs|
    ensures Faithful(Appended(c, v).values, vs + [v])
       <==> Faithful(c.values, vs) && Equal(Convert(KindAfter(c.kind, v), v), v)
  {
    var after := Appended(c, v).values;
    forall i | 0 <= i < |vs| ensures Equal(after[i], (vs + [v])[i]) <==> Equal(c.values[i], vs[i]) {
      WidenKeeps(c.values[i], vs[i]);
    }
    assert after[|vs|] == Convert(KindAfter(c.kind, v), v) && (vs + [v])[|vs|] == v;
    if Faithful(after, vs + [v]) {
      forall i | 0 <= i < |vs| ensures Equal(c.values[i], vs[i]) {
        assert Equal(after[i], (vs + [v])[i]);
      }
    }
  }

  lemma AllKeptNext(declared: Kind, vs: seq<Value>, n: nat)
    requires |vs| == n + 1
    ensures AllKept(declared, vs) <==> AllKept(declared, vs[..n]) && Undistorted(KindUpTo(declared, vs), vs[n])
  {
    assert vs[..n + 1] == vs;
    forall i | 0 <= i < n ensures vs[..n][..i + 1] == vs[..i + 1] && vs[..n][i] == vs[i] {
    }
    if AllKept(declared, vs) {
      forall i | 0 <= i < n ensures Undistorted(KindUpTo(declared, vs[..n][..i + 1]), vs[..n][i]) {
        assert Undistorted(KindUpTo(declared, vs[..i + 1]), vs[i]);
      }
    }
    if AllKept(declared, vs[..n]) && Undistorted(KindUpTo(declared, vs), vs[n]) {
      forall i | 0 <= i <= n ensures Undistorted(KindUpTo(declared, vs[..i + 1]), vs[i]) {
        if i < n { assert Undistorted(KindUpTo(declared, vs[..n][..i + 1]), vs[..n][i]); }
      }
    }
  }

  /** Not every mix survives: a text vector prints numbers, a boolean one flattens them. */
  lemma MixesDistort(s: seq<byte>)
    ensures var r := AppendAll(NullKind, [Text(s), Integer(5)]); r.Ok? && !Faithful(r.value.values, [Text(s), Integer(5)])
    ensures var r := AppendAll(NullKind, [Boolean(true), Integer(5)]);
      r.Ok? && !Faithful(r.value.values, [Boolean(true), Integer(5)])
  {
    MixOfTwo(Text(s), Integer(5));
    MixOfTwo(Boolean(true), Integer(5));
  }

  lemma MixOfTwo(a: Value, b: Value)
    requires !a.Null? && !a.Integer? && !b.Null? && Convertible(KindOf(a), b) && !Undistorted(KindOf(a), b)
    ensures AppendAll(NullKind, [a, b]).Ok? && !Faithful(AppendAll(NullKind, [a, b]).value.values, [a, b])
  {
    assert [a, b][..1] == [a] && [a][..0] == [] && [a, b][..2] == [a, b];
    assert AppendAll(NullKind, [a]) == Ok(Appended(Seen(NullKind, []), a));
    ComesBackIff(NullKind, [a, b]);
    assert KindUpTo(NullKind, [a]) == KindOf(a);
    assert !Undistorted(KindUpTo(NullKind, [a, b][..1 + 1]), [a, b][1]);
  }
}
