/** The bytes of a heap page (src/native_storage.cpp:228-385): a 16-byte header, a slot
    directory growing up from it and row data growing down from the end of the page. */
module PageFormat {
  import opened Wrappers
  import opened Bytes

  type PageSize = p: nat | 22 < p < 65536 witness 4096
  type MagicNumber = m: nat | 0 < m < 0x1_0000_0000 witness 1

  /** Configured values; nothing below depends on which they are. */
  const P: PageSize
  const Magic: MagicNumber

  /** What a page stores: the bytes in each slot, None for a dead slot. */
  type Content = seq<Option<seq<byte>>>

  // ------------------------------------------------------------- raw access

  function Read16(b: seq<byte>, at: nat): nat
    requires at + 2 <= |b|
  {
    var low: nat, high: nat := b[at], b[at + 1];
    low + 256 * high
  }

  function Read32(b: seq<byte>, at: nat): nat
    requires at + 4 <= |b|
  {
    Read16(b, at) + 0x1_0000 * Read16(b, at + 2)
  }

  datatype Slot = Slot(offset: nat, length: nat, flag: nat)

  predicate IsPage(b: seq<byte>) {
    |b| == P && Read32(b, 0) == Magic
  }

  function Count(b: seq<byte>): nat
    requires |b| == P
  {
    Read16(b, 4)
  }

  function Start(b: seq<byte>): nat
    requires |b| == P
  {
    Read16(b, 6)
  }

  function End(b: seq<byte>): nat
    requires |b| == P
  {
    Read16(b, 8)
  }

  function SlotOffset(slot: nat): nat {
    16 + 6 * slot
  }

  function Entry(b: seq<byte>, i: nat): Slot
    requires SlotOffset(i + 1) <= |b|
  {
    Slot(Read16(b, SlotOffset(i)), Read16(b, SlotOffset(i) + 2), Read16(b, SlotOffset(i) + 4))
  }

  function Slots(b: seq<byte>): (slots: seq<Slot>)
    requires |b| == P && SlotOffset(Count(b)) <= P
    ensures |slots| == Count(b)
  {
    seq(Count(b), i requires 0 <= i < Count(b) => Entry(b, i))
  }

  function SlotBytes(b: seq<byte>, s: Slot): Option<seq<byte>> {
    if s.flag == 0 || s.offset + s.length > |b| then None
    else Some(b[s.offset..s.offset + s.length])
  }

  /** The slots of a page; a page without the magic number counts as empty. */
  ghost function ContentOf(b: seq<byte>): Content {
    if !IsPage(b) || SlotOffset(Count(b)) > P then []
    else
      var slots := Slots(b);
      seq(|slots|, i requires 0 <= i < |slots| => SlotBytes(b, slots[i]))
  }

  // -------------------------------------------------------------- invariant

  ghost predicate Header(b: seq<byte>, count: nat, end: nat) {
    && IsPage(b) && Count(b) == count && Start(b) == SlotOffset(count) && End(b) == end
    && SlotOffset(count) <= end <= P
  }

  /** A slot holds exactly this, in the data area that begins at `end`. */
  ghost predicate Holds(b: seq<byte>, end: nat, s: Slot, row: Option<seq<byte>>) {
    match row
    case None => s.flag == 0
    case Some(bytes) =>
      && s.flag != 0 && end <= s.offset && s.offset + s.length <= |b|
      && b[s.offset..s.offset + s.length] == bytes
  }

  ghost predicate Apart(a: Slot, b: Slot) {
    a.flag != 0 && b.flag != 0 ==> a.offset + a.length <= b.offset || b.offset + b.length <= a.offset
  }

  /** The slots hold these rows, apart from each other, and the data area has room for them. */
  ghost predicate Sound(b: seq<byte>, slots: seq<Slot>, end: nat, c: Content) {
    && |slots| == |c| && LiveBytes(c) + end <= |b|
    && (forall i :: 0 <= i < |c| ==> Holds(b, end, slots[i], c[i]))
    && (forall i, j :: 0 <= i < j < |c| ==> Apart(slots[i], slots[j]))
  }

  ghost predicate ValidPage(b: seq<byte>) {
    && |b| == P
    && (IsPage(b) ==> Header(b, Count(b), End(b)) && Sound(b, Slots(b), End(b), ContentOf(b)))
  }

  lemma SoundContent(b: seq<byte>, c: Content)
    requires |b| == P && Header(b, |c|, End(b)) && Sound(b, Slots(b), End(b), c)
    ensures ContentOf(b) == c
  {
    var slots := Slots(b);
    forall i | 0 <= i < |c| ensures SlotBytes(b, slots[i]) == c[i] {
      assert Holds(b, End(b), slots[i], c[i]);
    }
  }

  lemma BecomesValid(b: seq<byte>, slots: seq<Slot>, end: nat, c: Content)
    requires |b| == P && Header(b, |c|, end) && Sound(b, slots, end, c) && slots == Slots(b)
    ensures ValidPage(b) && ContentOf(b) == c
  {
    SoundContent(b, c);
  }

  /** A stored row leaves room for the header and a slot entry. */
  lemma RowFits(b: seq<byte>, i: nat)
    requires ValidPage(b) && i < |ContentOf(b)| && ContentOf(b)[i].Some?
    ensures |ContentOf(b)[i].value| + 22 <= P
  {
    assert Holds(b, End(b), Slots(b)[i], ContentOf(b)[i]);
  }

  function Size(row: Option<seq<byte>>): nat {
    match row
    case None => 0
    case Some(bytes) => |bytes|
  }

  /** Bytes in the first n slots. */
  function BytesTo(c: Content, n: nat): (total: nat)
    requires n <= |c|
  {
    if n == 0 then 0 else BytesTo(c, n - 1) + Size(c[n - 1])
  }

  function LiveBytes(c: Content): nat {
    BytesTo(c, |c|)
  }

  // ------------------------------------------------- what a change can affect

  /** Only bytes in [lo, hi) differ. */
  ghost predicate SameOutside(b: seq<byte>, b': seq<byte>, lo: nat, hi: nat) {
    |b| == |b'| && forall k :: 0 <= k < |b| && !(lo <= k < hi) ==> b[k] == b'[k]
  }

  lemma EntryOutside(b: seq<byte>, b': seq<byte>, lo: nat, hi: nat, i: nat)
    requires SameOutside(b, b', lo, hi) && SlotOffset(i + 1) <= |b|
    requires SlotOffset(i + 1) <= lo || hi <= SlotOffset(i)
    ensures Entry(b', i) == Entry(b, i)
  {
  }

  lemma HeaderOutside(b: seq<byte>, b': seq<byte>, lo: nat, hi: nat)
    requires SameOutside(b, b', lo, hi) && 16 <= lo && |b| == P
    ensures IsPage(b') == IsPage(b)
    ensures Count(b') == Count(b) && Start(b') == Start(b) && End(b') == End(b)
  {
  }

  lemma SliceOutside(b: seq<byte>, b': seq<byte>, lo: nat, hi: nat, from: nat, to: nat)
    requires SameOutside(b, b', lo, hi) && from <= to <= |b|
    requires to <= lo || hi <= from
    ensures b'[from..to] == b[from..to]
  {
  }

  lemma {:induction false} BytesToPrefix(c: Content, c': Content, n: nat)
    requires n <= |c| && n <= |c'| && c[..n] == c'[..n]
    ensures BytesTo(c, n) == BytesTo(c', n)
  {
    if n > 0 {
      assert c[n - 1] == c[..n][n - 1] == c'[..n][n - 1];
      assert c[..n - 1] == c[..n][..n - 1] == c'[..n - 1];
      BytesToPrefix(c, c', n - 1);
    }
  }

  lemma {:induction false} BytesToUpdate(c: Content, i: nat, row: Option<seq<byte>>, n: nat)
    requires i < |c| && n <= |c|
    ensures BytesTo(c[i := row], n) == if i < n then BytesTo(c, n) - Size(c[i]) + Size(row) else BytesTo(c, n)
  {
    if n > 0 { BytesToUpdate(c, i, row, n - 1); }
  }

  lemma {:induction false} BytesToMonotone(c: Content, m: nat, n: nat)
    requires m <= n <= |c|
    ensures BytesTo(c, m) <= BytesTo(c, n)
  {
    if m < n { BytesToMonotone(c, m, n - 1); }
  }

  /** Storing a row in a slot, which is a dead one or the first unused one. */
  function Store(c: Content, slot: nat, row: seq<byte>): Content
    requires slot <= |c|
  {
    if slot == |c| then c + [Some(row)] else c[slot := Some(row)]
  }

  lemma StoreBytes(c: Content, slot: nat, row: seq<byte>)
    requires slot <= |c| && (slot < |c| ==> c[slot].None?)
    ensures LiveBytes(Store(c, slot, row)) == LiveBytes(c) + |row|
  {
    if slot == |c| {
      BytesToPrefix(c, Store(c, slot, row), |c|);
    } else {
      BytesToUpdate(c, slot, Some(row), |c|);
    }
  }

  function FirstDead(c: Content): (n: nat)
    ensures n <= |c| && (n < |c| ==> c[n].None?)
    ensures forall i :: 0 <= i < n ==> c[i].Some?
  {
    FirstDeadFrom(c, 0)
  }

  function FirstDeadFrom(c: Content, k: nat): (n: nat)
    requires k <= |c|
    ensures k <= n <= |c| && (n < |c| ==> c[n].None?)
    ensures forall i :: k <= i < n ==> c[i].Some?
    decreases |c| - k
  {
    if k == |c| || c[k].None? then k else FirstDeadFrom(c, k + 1)
  }

  lemma HoldsOutside(b: seq<byte>, b': seq<byte>, lo: nat, hi: nat, end: nat, end': nat, s: Slot,
                     row: Option<seq<byte>>)
    requires Holds(b, end, s, row) && SameOutside(b, b', lo, hi) && end' <= end
    requires s.flag != 0 ==> s.offset + s.length <= lo || hi <= s.offset
    ensures Holds(b', end', s, row)
  {
    if s.flag != 0 { SliceOutside(b, b', lo, hi, s.offset, s.offset + s.length); }
  }

  /** A change below the data area. */
  lemma SoundOutside(b: seq<byte>, b': seq<byte>, lo: nat, hi: nat, slots: seq<Slot>, end: nat, c: Content)
    requires Sound(b, slots, end, c) && SameOutside(b, b', lo, hi) && hi <= end
    ensures Sound(b', slots, end, c)
  {
    forall i | 0 <= i < |c| ensures Holds(b', end, slots[i], c[i]) {
      assert Holds(b, end, slots[i], c[i]);
      HoldsOutside(b, b', lo, hi, end, end, slots[i], c[i]);
    }
  }

  /** Writing one slot's entry. */
  lemma SlotsUpdated(b: seq<byte>, b': seq<byte>, slot: nat)
    requires |b| == P && IsPage(b) && SlotOffset(Count(b)) <= P && slot < Count(b)
    requires SameOutside(b, b', SlotOffset(slot), SlotOffset(slot + 1))
    ensures IsPage(b') && Count(b') == Count(b) && Start(b') == Start(b) && End(b') == End(b)
    ensures Slots(b') == Slots(b)[slot := Entry(b', slot)]
  {
    HeaderOutside(b, b', SlotOffset(slot), SlotOffset(slot + 1));
    forall i | 0 <= i < Count(b) && i != slot ensures Entry(b', i) == Entry(b, i) {
      EntryOutside(b, b', SlotOffset(slot), SlotOffset(slot + 1), i);
    }
  }

  lemma SlotsKept(b: seq<byte>, b': seq<byte>, lo: nat, hi: nat)
    requires |b| == P && IsPage(b) && SlotOffset(Count(b)) <= P
    requires SameOutside(b, b', lo, hi) && SlotOffset(Count(b)) <= lo
    ensures IsPage(b') && Count(b') == Count(b) && Start(b') == Start(b) && End(b') == End(b)
    ensures Slots(b') == Slots(b)
  {
    HeaderOutside(b, b', lo, hi);
    forall i | 0 <= i < Count(b) ensures Entry(b', i) == Entry(b, i) {
      EntryOutside(b, b', lo, hi, i);
    }
  }

  /** The page size an insertion needs: header, directory, live rows, the row, a new entry. */
  function SpaceNeeded(c: Content, row: seq<byte>): nat {
    SlotOffset(|c|) + LiveBytes(c) + |row| + if FirstDead(c) == |c| then 6 else 0
  }
}
