/** The loops that decode tuples: all of the engine's partial decoders read the same fields.
    src/native_storage.cpp:1035-1133 and src/native_raw.cpp:87-247. */
module TupleDecoders {
  import opened Wrappers
  import opened Bytes
  import opened TupleCodec

  /** One step of each decoder: text and blobs are copied only when asked for. */
  method ReadField(b: seq<byte>, at: nat, materialize: bool)
    returns (r: Result<Parsed, DecodeError>, ghost p: Parsed)
    ensures r.Err? ==> ParseField(b, at) == Err(r.error)
    ensures r.Ok? ==> ParseField(b, at) == Ok(p) && r.value.next == p.next && (materialize ==> r.value == p)
  {
    p := if ParseField(b, at).Ok? then ParseField(b, at).value else Parsed(Null, 0);
    if at >= |b| { return Err(CorruptTypeTag), p; }
    var tag := b[at];
    if materialize || (tag != 3 && tag != 5) { return ParseField(b, at), p; }
    var length := ReadNat(b, at + 1, 4);
    if length.Err? { return Err(CorruptPayload), p; }
    var next := at + 5 + length.value;
    if next > |b| { return Err(if tag == 3 then CorruptText else CorruptBlob), p; }
    return Ok(Parsed(if tag == 3 then Text([]) else Blob([]), next)), p;
  }

  lemma {:induction false} FieldsFail(b: seq<byte>, n: nat, m: nat)
    requires n <= m && ParseFields(b, n).Err?
    ensures ParseFields(b, m) == ParseFields(b, n)
  {
    if n < m { FieldsFail(b, n, m - 1); }
  }

  /** The decoder has read `index` fields and kept those of the first `projected` columns. */
  ghost predicate Reading(b: seq<byte>, columns: seq<nat>, index: nat, offset: nat, projected: nat, tuple: Tuple) {
    && ParseFields(b, index).Ok? && ParseFields(b, index).value.next == offset
    && projected <= |columns| && |tuple| == projected
    && (forall i :: 0 <= i < projected ==>
          columns[i] < index && tuple[i] == ParseFields(b, index).value.fields[columns[i]])
    && (projected < |columns| ==> columns[projected] >= index)
  }

  lemma ReadOneMore(b: seq<byte>, columns: seq<nat>, index: nat, offset: nat, projected: nat, tuple: Tuple,
                    tuple': Tuple, p: Parsed)
    requires SortedUnique(columns) && Reading(b, columns, index, offset, projected, tuple)
    requires projected < |columns| && ParseField(b, offset) == Ok(p)
    requires tuple' == if columns[projected] == index then tuple + [p.field] else tuple
    ensures Reading(b, columns, index + 1, p.next, if columns[projected] == index then projected + 1 else projected, tuple')
  {
    assert ParseFields(b, index + 1) == Ok(Fields(ParseFields(b, index).value.fields + [p.field], p.next));
    if columns[projected] == index && projected + 1 < |columns| {
      assert columns[projected] < columns[projected + 1];
    }
  }

  lemma ReadFails(b: seq<byte>, columns: seq<nat>, index: nat, offset: nat, projected: nat, tuple: Tuple,
                  count: nat, e: DecodeError)
    requires SortedUnique(columns) && Reading(b, columns, index, offset, projected, tuple)
    requires projected < |columns| && ParseField(b, offset) == Err(e)
    requires ReadNat(b, 0, 2) == Ok(count) && columns[|columns| - 1] < count
    ensures DecodeColumns(b, columns) == Err(e)
  {
    var last := columns[|columns| - 1];
    assert last >= index by { if projected < |columns| - 1 { assert columns[projected] < last; } }
    assert ParseFields(b, index + 1) == Err(e);
    FieldsFail(b, index + 1, last + 1);
  }

  lemma ReadComplete(b: seq<byte>, columns: seq<nat>, index: nat, offset: nat, tuple: Tuple, count: nat)
    requires columns != [] && SortedUnique(columns) && Reading(b, columns, index, offset, |columns|, tuple)
    requires columns[|columns| - 1] == index - 1
    requires ReadNat(b, 0, 2) == Ok(count) && columns[|columns| - 1] < count
    ensures DecodeColumns(b, columns) == Ok(tuple)
  {
    assert tuple == Project(ParseFields(b, index).value.fields, columns);
  }

  lemma LastIsLargest(columns: seq<nat>, i: nat)
    requires SortedUnique(columns) && i < |columns|
    ensures columns[i] <= columns[|columns| - 1]
  {
  }

  method DecodeTupleProjected(b: seq<byte>, columns: seq<nat>) returns (r: Result<Tuple, DecodeError>)
    ensures r == DecodeColumns(b, columns)
  {
    if columns == [] { return Ok([]); }
    var header := ReadNat(b, 0, 2);
    if header.Err? { return Err(CorruptPayload); }
    if columns[|columns| - 1] >= header.value || !SortedUnique(columns) { return Err(InvalidColumns); }
    var tuple, projected, index, offset: nat := [], 0, 0, 2;
    while index < header.value
      invariant index <= header.value && projected < |columns|
      invariant Reading(b, columns, index, offset, projected, tuple)
      decreases header.value - index
    {
      var materialize := columns[projected] == index;
      var step, p := ReadField(b, offset, materialize);
      if step.Err? {
        ReadFails(b, columns, index, offset, projected, tuple, header.value, step.error);
        return Err(step.error);
      }
      ghost var before := tuple;
      if materialize { tuple := tuple + [step.value.field]; }
      ReadOneMore(b, columns, index, offset, projected, before, tuple, p);
      index, offset := index + 1, step.value.next;
      if materialize {
        projected := projected + 1;
        if projected == |columns| {
          ReadComplete(b, columns, index, offset, tuple, header.value);
          return Ok(tuple);
        }
      }
    }
    LastIsLargest(columns, projected);
    return Ok(tuple);
  }

  lemma FilledUpTo<X>(s: seq<X>, n: nat, x: X)
    requires n < |s|
    ensures s[n := x][..n + 1] == s[..n] + [x]
  {
  }

  lemma AllFilled<X>(s: seq<X>)
    ensures s[..|s|] == s
  {
  }

  /** Fills a vector sized in advance, as the raw scans do. */
  method DecodeRawProjected(b: seq<byte>, columns: seq<nat>) returns (r: Result<Tuple, DecodeError>)
    ensures r == DecodeColumns(b, columns)
  {
    if columns == [] { return Ok([]); }
    var header := ReadNat(b, 0, 2);
    if header.Err? { return Err(CorruptPayload); }
    if columns[|columns| - 1] >= header.value || !SortedUnique(columns) { return Err(InvalidColumns); }
    var fields: Tuple := seq(|columns|, _ => Null);
    var projected, index, offset: nat := 0, 0, 2;
    ghost var kept: Tuple := [];
    while index < header.value
      invariant index <= header.value && projected < |columns| == |fields|
      invariant kept == fields[..projected] && Reading(b, columns, index, offset, projected, kept)
      decreases header.value - index
    {
      var materialize := columns[projected] == index;
      var step, p := ReadField(b, offset, materialize);
      if step.Err? {
        ReadFails(b, columns, index, offset, projected, kept, header.value, step.error);
        return Err(step.error);
      }
      ghost var before := kept;
      if materialize {
        kept := kept + [step.value.field];
        FilledUpTo(fields, projected, step.value.field);
        fields := fields[projected := step.value.field];
      }
      ReadOneMore(b, columns, index, offset, projected, before, kept, p);
      index, offset := index + 1, step.value.next;
      if materialize {
        projected := projected + 1;
        if projected == |columns| {
          AllFilled(fields);
          ReadComplete(b, columns, index, offset, kept, header.value);
          return Ok(fields);
        }
      }
    }
    LastIsLargest(columns, projected);
    return Ok(fields);
  }

  method DecodeRawColumn(b: seq<byte>, column: nat) returns (r: Result<Field, DecodeError>)
    ensures match DecodeColumns(b, [column])
      case Err(e) => r == Err(e)
      case Ok(t) => r == Ok(t[0])
  {
    var header := ReadNat(b, 0, 2);
    if header.Err? { return Err(CorruptPayload); }
    if column >= header.value { return Err(InvalidColumns); }
    var index, offset: nat := 0, 2;
    while index < header.value
      invariant index <= column && Reading(b, [column], index, offset, 0, [])
      decreases header.value - index
    {
      var materialize := index == column;
      var step, p := ReadField(b, offset, materialize);
      if step.Err? {
        ReadFails(b, [column], index, offset, 0, [], header.value, step.error);
        return Err(step.error);
      }
      ReadOneMore(b, [column], index, offset, 0, [], if materialize then [step.value.field] else [],
                  p);
      index, offset := index + 1, step.value.next;
      if materialize {
        ReadComplete(b, [column], index, offset, [step.value.field], header.value);
        return Ok(step.value.field);
      }
    }
    return Err(InvalidColumns);
  }

  /** decodeTuple asks for every column. */
  method DecodeWhole(b: seq<byte>) returns (r: Result<Tuple, DecodeError>)
    ensures r == DecodeTuple(b)
  {
    var header := ReadNat(b, 0, 2);
    if header.Err? { return Err(CorruptPayload); }
    var columns: seq<nat> := seq(header.value, i => i);
    r := DecodeTupleProjected(b, columns);
    if columns != [] {
      assert columns[|columns| - 1] == header.value - 1;
      match ParseFields(b, header.value)
      case Err(_) =>
      case Ok(fields) => assert Project(fields.fields, columns) == fields.fields;
    }
  }
}
