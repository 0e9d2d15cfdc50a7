/** Tuples as bytes (src/native_storage.cpp:995-1133) and the decoders that read only some
    of the columns (src/native_raw.cpp:87-247). A double is its 64 bits here. */
module TupleCodec {
  import opened Wrappers
  import opened Bytes

  const TwoTo64: nat := 0x1_0000_0000_0000_0000
  const TwoTo32: nat := 0x1_0000_0000

  datatype Field =
    | Null
    | Integer(value: int)
    | Real(bits: nat)
    | Text(text: seq<byte>)
    | Boolean(flag: bool)
    | Blob(blob: seq<byte>)

  type Tuple = seq<Field>

  datatype DecodeError =
    | CorruptPayload | CorruptTypeTag | CorruptBoolean | CorruptText | CorruptBlob
    | UnknownFieldType | InvalidColumns

  /** The values the engine's own types can hold. */
  predicate Representable(f: Field) {
    match f
    case Integer(i) => -0x8000_0000_0000_0000 <= i < 0x8000_0000_0000_0000
    case Real(bits) => bits < TwoTo64
    case Text(s) => |s| < TwoTo32
    case Blob(s) => |s| < TwoTo32
    case _ => true
  }

  predicate RepresentableTuple(t: Tuple) {
    |t| <= 65535 && forall i :: 0 <= i < |t| ==> Representable(t[i])
  }

  // ---------------------------------------------------------------- encoding

  function ToBits(i: int): nat {
    i % TwoTo64
  }

  function FromBits(bits: nat): int {
    if bits < 0x8000_0000_0000_0000 then bits else bits - TwoTo64
  }

  function EncodeField(f: Field): seq<byte> {
    match f
    case Null => [0]
    case Integer(i) => [1] + Encode(ToBits(i), 8)
    case Real(bits) => [2] + Encode(bits, 8)
    case Text(s) => [3] + Encode(|s|, 4) + s
    case Boolean(b) => [4, if b then 1 else 0]
    case Blob(s) => [5] + Encode(|s|, 4) + s
  }

  function Flatten(chunks: seq<seq<byte>>): seq<byte> {
    if chunks == [] then [] else Flatten(chunks[..|chunks| - 1]) + chunks[|chunks| - 1]
  }

  function Chunks(t: Tuple): (chunks: seq<seq<byte>>)
    ensures |chunks| == |t|
  {
    seq(|t|, i requires 0 <= i < |t| => EncodeField(t[i]))
  }

  function EncodeTuple(t: Tuple): seq<byte> {
    Encode(|t|, 2) + Flatten(Chunks(t))
  }

  method EncodeToBytes(t: Tuple) returns (out: Option<seq<byte>>)
    ensures out == if |t| > 65535 then None else Some(EncodeTuple(t))
  {
    if |t| > 65535 { return None; }
    var header := Encode(|t|, 2);
    ghost var chunks := Chunks(t);
    var bytes := header;
    for i := 0 to |t|
      invariant bytes == header + Flatten(chunks[..i])
    {
      var chunk := EncodeField(t[i]);
      bytes := bytes + chunk;
      assert chunks[i] == chunk;
      FlattenOneMore(header, chunks, i, chunk);
    }
    assert chunks[..|t|] == chunks;
    return Some(bytes);
  }

  lemma FlattenOneMore(header: seq<byte>, chunks: seq<seq<byte>>, i: nat, chunk: seq<byte>)
    requires i < |chunks| && chunks[i] == chunk
    ensures header + Flatten(chunks[..i]) + chunk == header + Flatten(chunks[..i + 1])
  {
    assert chunks[..i + 1][..i] == chunks[..i];
  }

  // ---------------------------------------------------------------- decoding

  datatype Parsed = Parsed(field: Field, next: nat)

  function ReadNat(b: seq<byte>, at: nat, k: nat): (r: Result<nat, DecodeError>)
    ensures r.Ok? <==> at + k <= |b|
  {
    if at + k > |b| then Err(CorruptPayload) else Ok(Decode(b[at..at + k]))
  }

  function ReadBytes(b: seq<byte>, at: nat, error: DecodeError): Result<(seq<byte>, nat), DecodeError> {
    match ReadNat(b, at, 4)
    case Err(e) => Err(e)
    case Ok(n) => if at + 4 + n > |b| then Err(error) else Ok((b[at + 4..at + 4 + n], at + 4 + n))
  }

  /** The field at an offset and where the next one starts. */
  function ParseField(b: seq<byte>, at: nat): (r: Result<Parsed, DecodeError>)
    ensures r.Ok? ==> at < r.value.next <= |b|
  {
    if at >= |b| then Err(CorruptTypeTag)
    else match b[at]
      case 0 => Ok(Parsed(Null, at + 1))
      case 1 =>
        (match ReadNat(b, at + 1, 8)
         case Err(e) => Err(e)
         case Ok(n) => Ok(Parsed(Integer(FromBits(n)), at + 9)))
      case 2 =>
        (match ReadNat(b, at + 1, 8)
         case Err(e) => Err(e)
         case Ok(n) => Ok(Parsed(Real(n), at + 9)))
      case 3 =>
        (match ReadBytes(b, at + 1, CorruptText)
         case Err(e) => Err(e)
         case Ok((s, next)) => Ok(Parsed(Text(s), next)))
      case 4 => if at + 1 >= |b| then Err(CorruptBoolean) else Ok(Parsed(Boolean(b[at + 1] != 0), at + 2))
      case 5 =>
        (match ReadBytes(b, at + 1, CorruptBlob)
         case Err(e) => Err(e)
         case Ok((s, next)) => Ok(Parsed(Blob(s), next)))
      case _ => Err(UnknownFieldType)
  }

  datatype Fields = Fields(fields: Tuple, next: nat)

  /** The first n fields of a tuple. */
  function ParseFields(b: seq<byte>, n: nat): (r: Result<Fields, DecodeError>)
    ensures r.Ok? ==> |r.value.fields| == n
  {
    if n == 0 then Ok(Fields([], 2))
    else match ParseFields(b, n - 1)
      case Err(e) => Err(e)
      case Ok(before) =>
        match ParseField(b, before.next)
        case Err(e) => Err(e)
        case Ok(p) => Ok(Fields(before.fields + [p.field], p.next))
  }

  function DecodeTuple(b: seq<byte>): Result<Tuple, DecodeError> {
    match ReadNat(b, 0, 2)
    case Err(e) => Err(e)
    case Ok(count) =>
      match ParseFields(b, count)
      case Err(e) => Err(e)
      case Ok(fields) => Ok(fields.fields)
  }

  predicate SortedUnique(columns: seq<nat>) {
    forall i, j :: 0 <= i < j < |columns| ==> columns[i] < columns[j]
  }

  function Project(t: Tuple, columns: seq<nat>): Tuple
    requires forall i :: 0 <= i < |columns| ==> columns[i] < |t|
  {
    seq(|columns|, i requires 0 <= i < |columns| => t[columns[i]])
  }

  /** What reading these columns gives: fields up to the last one are read, and no further. */
  function DecodeColumns(b: seq<byte>, columns: seq<nat>): Result<Tuple, DecodeError> {
    if columns == [] then Ok([])
    else match ReadNat(b, 0, 2)
      case Err(e) => Err(e)
      case Ok(count) =>
        if columns[|columns| - 1] >= count || !SortedUnique(columns) then Err(InvalidColumns)
        else match ParseFields(b, columns[|columns| - 1] + 1)
          case Err(e) => Err(e)
          case Ok(fields) => Ok(Project(fields.fields, columns))
  }

  // ------------------------------------------------------------ main results

  /** A field read back from where it was written. */
  lemma ParseEncoded(before: seq<byte>, f: Field, after: seq<byte>)
    requires Representable(f)
    ensures ParseField(before + EncodeField(f) + after, |before|)
         == Ok(Parsed(f, |before| + |EncodeField(f)|))
  {
    match f
    case Null =>
    case Boolean(_) =>
    case Integer(i) => ReadEncodedNat(before, 1, ToBits(i), after);
    case Real(bits) => ReadEncodedNat(before, 2, bits, after);
    case Text(s) => ReadEncodedBytes(before, 3, s, after, CorruptText);
    case Blob(s) => ReadEncodedBytes(before, 5, s, after, CorruptBlob);
  }

  lemma ReadEncodedNat(before: seq<byte>, tag: byte, n: nat, after: seq<byte>)
    requires n < TwoTo64
    ensures var b := before + ([tag] + Encode(n, 8)) + after;
      b[|before|] == tag && ReadNat(b, |before| + 1, 8) == Ok(n)
  {
    var b, at := before + ([tag] + Encode(n, 8)) + after, |before| + 1;
    assert b[at..at + 8] == Encode(n, 8);
    assert Pow256(8) == TwoTo64;
    DecodeEncode(n, 8);
  }

  lemma ReadEncodedBytes(before: seq<byte>, tag: byte, s: seq<byte>, after: seq<byte>, error: DecodeError)
    requires |s| < TwoTo32
    ensures var b := before + ([tag] + Encode(|s|, 4) + s) + after;
      b[|before|] == tag && ReadBytes(b, |before| + 1, error) == Ok((s, |before| + 5 + |s|))
  {
    var b, at := before + ([tag] + Encode(|s|, 4) + s) + after, |before| + 1;
    assert b[at..at + 4] == Encode(|s|, 4);
    assert Pow256(4) == TwoTo32;
    DecodeEncode(|s|, 4);
    assert b[at + 4..at + 4 + |s|] == s;
  }

  /** Wherever this chunk stands, the field is read from it and nothing else. */
  ghost predicate Reads(chunk: seq<byte>, f: Field) {
    forall before: seq<byte>, after: seq<byte> ::
      ParseField(before + chunk + after, |before|) == Ok(Parsed(f, |before| + |chunk|))
  }

  lemma EncodedReads(t: Tuple, i: nat)
    requires RepresentableTuple(t) && i < |t|
    ensures Reads(Chunks(t)[i], t[i])
  {
    forall before: seq<byte>, after: seq<byte>
      ensures ParseField(before + EncodeField(t[i]) + after, |before|)
           == Ok(Parsed(t[i], |before| + |EncodeField(t[i])|))
    {
      ParseEncoded(before, t[i], after);
    }
  }

  /** Where chunk i starts, after the two bytes of the field count. */
  function Position(chunks: seq<seq<byte>>, i: nat): nat
    requires i <= |chunks|
  {
    2 + |Flatten(chunks[..i])|
  }

  lemma {:induction false} Pieces(chunks: seq<seq<byte>>, i: nat) returns (after: seq<byte>)
    requires i < |chunks|
    ensures Flatten(chunks) == Flatten(chunks[..i]) + chunks[i] + after
  {
    if i == |chunks| - 1 {
      after := [];
    } else {
      var start := chunks[..|chunks| - 1];
      var rest := Pieces(start, i);
      assert start[..i] == chunks[..i];
      after := rest + chunks[|chunks| - 1];
    }
  }

  lemma NextPosition(chunks: seq<seq<byte>>, i: nat)
    requires i < |chunks|
    ensures Position(chunks, i + 1) == Position(chunks, i) + |chunks[i]|
  {
    FlattenOneMore([], chunks, i, chunks[i]);
  }

  lemma Regroup(header: seq<byte>, before: seq<byte>, chunk: seq<byte>, after: seq<byte>)
    ensures header + (before + chunk + after) == (header + before) + chunk + after
  {
  }

  lemma ReadsAt(b: seq<byte>, at: nat, before: seq<byte>, chunk: seq<byte>, after: seq<byte>, f: Field)
    requires Reads(chunk, f) && b == before + chunk + after && at == |before|
    ensures ParseField(b, at) == Ok(Parsed(f, at + |chunk|))
  {
  }

  lemma ReadsBehind(b: seq<byte>, header: seq<byte>, flat: seq<byte>, before: seq<byte>, chunk: seq<byte>,
                    after: seq<byte>, f: Field, at: nat, next: nat)
    requires Reads(chunk, f) && b == header + flat && flat == before + chunk + after
    requires at == |header| + |before| && next == at + |chunk|
    ensures ParseField(b, at) == Ok(Parsed(f, next))
  {
    Regroup(header, before, chunk, after);
    ReadsAt(b, at, header + before, chunk, after, f);
  }

  lemma FieldAt(b: seq<byte>, header: seq<byte>, chunks: seq<seq<byte>>, i: nat, f: Field, at: nat, next: nat)
    requires |header| == 2 && b == header + Flatten(chunks) && i < |chunks| && Reads(chunks[i], f)
    requires at == Position(chunks, i) && next == Position(chunks, i + 1)
    ensures ParseField(b, at) == Ok(Parsed(f, next))
  {
    var after := Pieces(chunks, i);
    NextPosition(chunks, i);
    ReadsBehind(b, header, Flatten(chunks), Flatten(chunks[..i]), chunks[i], after, f, at, next);
  }

  lemma {:induction false} ParseEncodedFields(header: seq<byte>, chunks: seq<seq<byte>>, t: Tuple, n: nat)
    requires |header| == 2 && n <= |t| == |chunks|
    requires forall i :: 0 <= i < |t| ==> Reads(chunks[i], t[i])
    ensures ParseFields(header + Flatten(chunks), n) == Ok(Fields(t[..n], Position(chunks, n)))
  {
    if n > 0 {
      ParseEncodedFields(header, chunks, t, n - 1);
      FieldAt(header + Flatten(chunks), header, chunks, n - 1, t[n - 1],
              Position(chunks, n - 1), Position(chunks, n));
      assert t[..n] == t[..n - 1] + [t[n - 1]];
    }
  }

  /** Decoding an encoded tuple gives it back. */
  lemma RoundTrip(t: Tuple)
    requires RepresentableTuple(t)
    ensures DecodeTuple(EncodeTuple(t)) == Ok(t)
  {
    var header := Encode(|t|, 2);
    assert Pow256(2) == 65536;
    DecodeEncode(|t|, 2);
    assert EncodeTuple(t)[0..2] == header;
    forall i | 0 <= i < |t| ensures Reads(Chunks(t)[i], t[i]) {
      EncodedReads(t, i);
    }
    ParseEncodedFields(header, Chunks(t), t, |t|);
    assert t[..|t|] == t;
  }

  lemma {:induction false} ParsePrefix(b: seq<byte>, n: nat, m: nat)
    requires n <= m && ParseFields(b, m).Ok?
    ensures ParseFields(b, n).Ok? && ParseFields(b, n).value.fields == ParseFields(b, m).value.fields[..n]
  {
    if n < m { ParsePrefix(b, n, m - 1); }
  }

  /** Reading columns of any well-formed tuple projects the whole tuple. */
  lemma ColumnsProject(b: seq<byte>, columns: seq<nat>)
    requires DecodeTuple(b).Ok? && SortedUnique(columns)
    requires forall i :: 0 <= i < |columns| ==> columns[i] < |DecodeTuple(b).value|
    ensures DecodeColumns(b, columns) == Ok(Project(DecodeTuple(b).value, columns))
  {
    if columns == [] {
      assert Project(DecodeTuple(b).value, []) == [];
    } else {
      var whole, last := DecodeTuple(b).value, columns[|columns| - 1];
      ParsePrefix(b, last + 1, |whole|);
      ProjectPrefix(whole, last + 1, columns);
    }
  }

  lemma ProjectPrefix(t: Tuple, n: nat, columns: seq<nat>)
    requires n <= |t| && forall i :: 0 <= i < |columns| ==> columns[i] < n
    ensures Project(t[..n], columns) == Project(t, columns)
  {
  }
}
