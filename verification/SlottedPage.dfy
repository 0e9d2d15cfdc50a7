/** The SlottedPage object of src/native_storage.cpp: a byte array that refines the list of
    its slots' contents, with slot reuse, shrinking in place and compaction. */
module SlottedPage {
  import opened Wrappers
  import opened Bytes
  import opened PageFormat

  datatype Insertion = TupleTooLarge | NoRoom | Stored(slot: nat)

  class Page {
    const bytes: array<byte>

    ghost predicate Valid()
      reads this, bytes
    {
      ValidPage(bytes[..])
    }

    ghost function Content(): Content
      reads this, bytes
      requires Valid()
    {
      ContentOf(bytes[..])
    }

    constructor (bytes: array<byte>)
      requires bytes.Length == P
      ensures this.bytes == bytes
    {
      this.bytes := bytes;
    }

    // ------------------------------------------------------------ raw access

    method Write16(at: nat, value: nat)
      requires at + 2 <= bytes.Length && value < 65536
      modifies bytes
      ensures SameOutside(old(bytes[..]), bytes[..], at, at + 2)
      ensures Read16(bytes[..], at) == value
    {
      bytes[at] := value % 256;
      bytes[at + 1] := value / 256;
    }

    method Write32(at: nat, value: nat)
      requires at + 4 <= bytes.Length && value < 0x1_0000_0000
      modifies bytes
      ensures SameOutside(old(bytes[..]), bytes[..], at, at + 4)
      ensures Read32(bytes[..], at) == value
    {
      Write16(at, value % 0x1_0000);
      Write16(at + 2, value / 0x1_0000);
    }

    method Copy(at: nat, row: seq<byte>)
      requires at + |row| <= bytes.Length
      modifies bytes
      ensures SameOutside(old(bytes[..]), bytes[..], at, at + |row|)
      ensures bytes[..][at..at + |row|] == row
    {
      forall i | 0 <= i < |row| { bytes[at + i] := row[i]; }
    }

    method WriteSlot(slot: nat, offset: nat, length: nat, flag: nat)
      requires SlotOffset(slot + 1) <= bytes.Length
      requires offset < 65536 && length < 65536 && flag < 65536
      modifies bytes
      ensures SameOutside(old(bytes[..]), bytes[..], SlotOffset(slot), SlotOffset(slot + 1))
      ensures Entry(bytes[..], slot) == Slot(offset, length, flag)
    {
      Write16(SlotOffset(slot), offset);
      Write16(SlotOffset(slot) + 2, length);
      Write16(SlotOffset(slot) + 4, flag);
    }

    method WriteHeader(slot: nat, end: nat)
      requires bytes.Length == P && SlotOffset(slot + 1) <= end <= P
      requires Header(bytes[..], Count(bytes[..]), End(bytes[..])) && SlotOffset(Count(bytes[..])) <= end
      modifies bytes
      ensures SameOutside(old(bytes[..]), bytes[..], 4, 10)
      ensures Header(bytes[..], if slot == Count(old(bytes[..])) then slot + 1 else Count(old(bytes[..])), end)
    {
      Write16(8, end);
      if slot == Count(bytes[..]) {
        Write16(4, slot + 1);
        Write16(6, SlotOffset(slot + 1));
      }
    }

    method ClearSlot(slot: nat)
      requires SlotOffset(slot + 1) <= bytes.Length
      modifies bytes
      ensures SameOutside(old(bytes[..]), bytes[..], SlotOffset(slot), SlotOffset(slot + 1))
      ensures Entry(bytes[..], slot) == Entry(old(bytes[..]), slot).(flag := 0, length := 0)
    {
      Write16(SlotOffset(slot) + 4, 0);
      Write16(SlotOffset(slot) + 2, 0);
    }

    // -------------------------------------------------------------- operations

    method Initialize()
      requires bytes.Length == P
      modifies bytes
      ensures Valid() && IsPage(bytes[..]) && Content() == []
    {
      forall i | 0 <= i < bytes.Length { bytes[i] := 0; }
      Write32(0, Magic);
      Write16(4, 0);
      Write16(6, 16);
      Write16(8, P);
    }

    method FreeSpace() returns (n: nat)
      requires Valid()
      ensures n == if IsPage(bytes[..]) then End(bytes[..]) - SlotOffset(|Content()|) else 0
    {
      if !IsPage(bytes[..]) { return 0; }
      var start, end := Start(bytes[..]), End(bytes[..]);
      n := if end >= start then end - start else 0;
    }

    method Read(slot: nat) returns (row: Option<seq<byte>>)
      requires Valid()
      ensures row == if slot < |Content()| then Content()[slot] else None
    {
      var b := bytes[..];
      if !IsPage(b) || slot >= Count(b) { return None; }
      var s := Entry(b, slot);
      row := SlotBytes(b, s);
    }

    method Erase(slot: nat) returns (ok: bool)
      requires Valid()
      modifies bytes
      ensures Valid()
      ensures ok == (slot < |old(Content())| && old(Content())[slot].Some?)
      ensures Content() == if ok then old(Content())[slot := None] else old(Content())
      ensures !ok ==> bytes[..] == old(bytes[..])
    {
      ghost var b := bytes[..];
      if !IsPage(bytes[..]) || slot >= Count(bytes[..]) { return false; }
      if Entry(bytes[..], slot).flag == 0 { return false; }
      ClearSlot(slot);
      Erased(b, bytes[..], slot);
      return true;
    }

    method Update(slot: nat, row: seq<byte>) returns (ok: bool)
      requires Valid()
      modifies bytes
      ensures Valid()
      ensures ok == (slot < |old(Content())| && old(Content())[slot].Some?
                     && |row| <= |old(Content())[slot].value|)
      ensures Content() == if ok then old(Content())[slot := Some(row)] else old(Content())
      ensures !ok ==> bytes[..] == old(bytes[..])
    {
      ghost var b := bytes[..];
      if !IsPage(bytes[..]) || slot >= Count(bytes[..]) { return false; }
      var s := Entry(bytes[..], slot);
      if s.flag == 0 { return false; }
      SlotInside(b, slot);
      if |row| > s.length { return false; }
      Copy(s.offset, row);
      ghost var b1 := bytes[..];
      Write16(SlotOffset(slot) + 2, |row|);
      Shrunk(b, b1, bytes[..], slot, row);
      return true;
    }

    /** Packs the live rows against the end of the page. */
    method Compact()
      requires Valid() && IsPage(bytes[..])
      modifies bytes
      ensures Valid() && IsPage(bytes[..])
      ensures Content() == old(Content())
      ensures End(bytes[..]) == P - LiveBytes(Content())
    {
      ghost var b, c := bytes[..], Content();
      SoundContent(b, c);
      var rows := CollectLive();
      var end := P;
      ghost var was := Slots(b);
      NextSlotGap(c, 0);
      PackDead(b, End(b), b, was, was, c, 0, NextSlot(c, 0));
      for k := 0 to |rows|
        invariant bytes.Length == P && Header(bytes[..], |c|, End(b))
        invariant Packing(bytes[..], was, Slots(bytes[..]), c, NextSlot(c, k))
        invariant end == P - BytesTo(c, NextSlot(c, k))
      {
        NextSlotGap(c, k + 1);
        end := PackRow(b, was, c, end, rows[k]);
        PackDead(b, End(b), bytes[..], was, Slots(bytes[..]), c, rows[k].slot + 1, NextSlot(c, k + 1));
      }
      ghost var b' := bytes[..];
      Write16(8, end);
      Packed(b', bytes[..], was, c);
    }

    method CollectLive() returns (rows: seq<LiveRow>)
      requires Valid() && IsPage(bytes[..])
      ensures rows == LiveRows(Content(), |Content()|)
    {
      rows := [];
      var count := Count(bytes[..]);
      for slot := 0 to count
        invariant rows == LiveRows(Content(), slot)
      {
        var row := Read(slot);
        if row.Some? { rows := rows + [LiveRow(slot, row.value)]; }
      }
    }

    method PackRow(ghost b: seq<byte>, ghost was: seq<Slot>, ghost c: Content, above: nat, row: LiveRow)
      returns (end: nat)
      requires bytes.Length == P == |b| && SlotOffset(|c|) <= End(b) && Header(bytes[..], |c|, End(b))
      requires Packing(bytes[..], was, Slots(bytes[..]), c, row.slot)
      requires row.slot < |c| && c[row.slot] == Some(row.bytes) && LiveBytes(c) <= P - End(b)
      requires above == P - BytesTo(c, row.slot)
      modifies bytes
      ensures end == P - BytesTo(c, row.slot + 1)
      ensures Header(bytes[..], |c|, End(b))
      ensures Packing(bytes[..], was, Slots(bytes[..]), c, row.slot + 1)
    {
      ghost var b0 := bytes[..];
      BytesToMonotone(c, row.slot + 1, |c|);
      end := above - |row.bytes|;
      Copy(end, row.bytes);
      ghost var b1 := bytes[..];
      WriteSlot(row.slot, end, |row.bytes|, 1);
      SlotsKept(b0, b1, end, end + |row.bytes|);
      SlotsUpdated(b1, bytes[..], row.slot);
      PackOne(b0, b1, bytes[..], was, Slots(b0), c, row.slot, end);
    }

    method Insert(row: seq<byte>) returns (r: Insertion)
      requires Valid()
      modifies bytes
      ensures Valid() && IsPage(bytes[..])
      ensures r.TupleTooLarge? <==> |row| > 65535
      ensures |row| <= 65535 ==> (r.NoRoom? <==> SpaceNeeded(old(Content()), row) > P)
      ensures r.Stored? ==> r.slot == FirstDead(old(Content())) && Content() == Store(old(Content()), r.slot, row)
      ensures !r.Stored? ==> Content() == old(Content())
    {
      if !IsPage(bytes[..]) { Initialize(); }
      if |row| > 65535 { return TupleTooLarge; }
      ghost var c := Content();
      var count := Count(bytes[..]);
      var slot := 0;
      while slot < count && Entry(bytes[..], slot).flag != 0
        invariant slot <= count && FirstDeadFrom(c, slot) == FirstDead(c)
      {
        slot := slot + 1;
      }
      var slotBytes := if slot < count then 0 else 6;
      var free := FreeSpace();
      if free < |row| + slotBytes {
        Compact();
        free := FreeSpace();
        if free < |row| + slotBytes { return NoRoom; }
      }
      Place(slot, row);
      return Stored(slot);
    }

    /** The last part of an insertion, once there is room. */
    method Place(slot: nat, row: seq<byte>)
      requires Valid() && IsPage(bytes[..]) && slot == FirstDead(Content())
      requires End(bytes[..]) - SlotOffset(|Content()|) >= |row| + (if slot < |Content()| then 0 else 6)
      modifies bytes
      ensures Valid() && IsPage(bytes[..])
      ensures Content() == Store(old(Content()), slot, row)
    {
      ghost var b, c := bytes[..], Content();
      var newEnd := End(bytes[..]) - |row|;
      Copy(newEnd, row);
      ghost var b1 := bytes[..];
      WriteHeader(slot, newEnd);
      ghost var b2 := bytes[..];
      WriteSlot(slot, newEnd, |row|, 1);
      PlacedSlots(b, b1, b2, bytes[..], newEnd, End(b), slot);
      PlacedRow(b, b1, b2, bytes[..], Slots(b), c, slot, row, newEnd);
    }
  }

  // ------------------------------------------------- one slot at a time

  lemma Erased(b: seq<byte>, b': seq<byte>, slot: nat)
    requires ValidPage(b) && IsPage(b) && slot < Count(b)
    requires SameOutside(b, b', SlotOffset(slot), SlotOffset(slot + 1)) && Entry(b', slot).flag == 0
    ensures ValidPage(b') && IsPage(b') && ContentOf(b') == ContentOf(b)[slot := None]
  {
    var c := ContentOf(b);
    SoundContent(b, c);
    SlotsUpdated(b, b', slot);
    SoundOutside(b, b', SlotOffset(slot), SlotOffset(slot + 1), Slots(b), End(b), c);
    ErasedSound(b', Slots(b), End(b), c, slot, Entry(b', slot));
    SoundContent(b', c[slot := None]);
  }

  lemma ErasedSound(b: seq<byte>, slots: seq<Slot>, end: nat, c: Content, slot: nat, s: Slot)
    requires Sound(b, slots, end, c) && slot < |c| && s.flag == 0
    ensures Sound(b, slots[slot := s], end, c[slot := None])
  {
    BytesToUpdate(c, slot, None, |c|);
  }

  lemma SoundSlot(b: seq<byte>, slots: seq<Slot>, end: nat, c: Content, slot: nat)
    requires Sound(b, slots, end, c) && slot < |c|
    ensures Holds(b, end, slots[slot], c[slot])
  {
  }

  lemma SlotInside(b: seq<byte>, slot: nat)
    requires ValidPage(b) && IsPage(b) && slot < Count(b) && Entry(b, slot).flag != 0
    ensures var s := Entry(b, slot);
      && End(b) <= s.offset && s.offset + s.length <= P
      && ContentOf(b)[slot] == Some(b[s.offset..s.offset + s.length])
  {
    SoundSlot(b, Slots(b), End(b), ContentOf(b), slot);
  }

  lemma Shrunk(b: seq<byte>, b1: seq<byte>, b': seq<byte>, slot: nat, row: seq<byte>)
    requires ValidPage(b) && IsPage(b) && slot < Count(b)
    requires SameOutside(b1, b', SlotOffset(slot), SlotOffset(slot + 1)) && |b1| == P
    requires var s := Entry(b, slot);
      && s.flag != 0 && |row| <= s.length && s.offset + s.length <= P
      && SameOutside(b, b1, s.offset, s.offset + |row|) && b1[s.offset..s.offset + |row|] == row
      && Entry(b', slot) == s.(length := |row|)
    ensures ValidPage(b') && IsPage(b') && ContentOf(b') == ContentOf(b)[slot := Some(row)]
  {
    var c, s := ContentOf(b), Entry(b, slot);
    var c' := c[slot := Some(row)];
    SlotInside(b, slot);
    SlotsKept(b, b1, s.offset, s.offset + |row|);
    SlotsUpdated(b1, b', slot);
    ShrunkSound(b, b1, Slots(b), End(b), c, slot, row);
    SoundOutside(b1, b', SlotOffset(slot), SlotOffset(slot + 1), Slots(b'), End(b), c');
    SoundContent(b', c');
  }

  lemma ShrunkSound(b: seq<byte>, b': seq<byte>, slots: seq<Slot>, end: nat, c: Content, slot: nat, row: seq<byte>)
    requires Sound(b, slots, end, c) && slot < |c|
    requires var s := slots[slot];
      && s.flag != 0 && |row| <= s.length && s.offset + s.length <= |b|
      && SameOutside(b, b', s.offset, s.offset + |row|) && b'[s.offset..s.offset + |row|] == row
    ensures Sound(b', slots[slot := slots[slot].(length := |row|)], end, c[slot := Some(row)])
  {
    var s := slots[slot];
    forall i | 0 <= i < |c| && i != slot ensures Holds(b', end, slots[i], c[i]) {
      assert Holds(b, end, slots[i], c[i]);
      assert Apart(slots[i], s) by { if i < slot { assert Apart(slots[i], slots[slot]); } else { assert Apart(slots[slot], slots[i]); } }
      HoldsOutside(b, b', s.offset, s.offset + |row|, end, end, slots[i], c[i]);
    }
    assert Holds(b, end, slots[slot], c[slot]);
    BytesToUpdate(c, slot, Some(row), |c|);
  }

  /** From b to b1 the row is copied below the data, from b1 to b2 the header is updated and
      from b2 to b' the slot's entry is written. */
  lemma PlacedRow(b: seq<byte>, b1: seq<byte>, b2: seq<byte>, b': seq<byte>, slots: seq<Slot>, c: Content,
                  slot: nat, row: seq<byte>, at: nat)
    requires Sound(b, slots, at + |row|, c)
    requires slot <= |c| && (slot < |c| ==> c[slot].None?)
    requires SameOutside(b, b1, at, at + |row|) && b1[at..at + |row|] == row
    requires SameOutside(b1, b2, 4, 10) && SameOutside(b2, b', SlotOffset(slot), SlotOffset(slot + 1))
    requires SlotOffset(slot + 1) <= at && Header(b', |Store(c, slot, row)|, at)
    requires Slots(b') == StoreSlot(slots, slot, Slot(at, |row|, 1))
    ensures ValidPage(b') && ContentOf(b') == Store(c, slot, row)
  {
    PlacedData(b, b1, b2, b', slots, Slots(b'), c, Store(c, slot, row), slot, row, at);
    BecomesValid(b', Slots(b'), at, Store(c, slot, row));
  }

  lemma PlacedData(b: seq<byte>, b1: seq<byte>, b2: seq<byte>, b': seq<byte>, slots: seq<Slot>, slots': seq<Slot>,
                   c: Content, c': Content, slot: nat, row: seq<byte>, at: nat)
    requires Sound(b, slots, at + |row|, c) && slot <= |c| && (slot < |c| ==> c[slot].None?)
    requires SameOutside(b, b1, at, at + |row|) && b1[at..at + |row|] == row
    requires SameOutside(b1, b2, 4, 10) && SameOutside(b2, b', SlotOffset(slot), SlotOffset(slot + 1))
    requires SlotOffset(slot + 1) <= at
    requires slots' == StoreSlot(slots, slot, Slot(at, |row|, 1)) && c' == Store(c, slot, row)
    ensures Sound(b', slots', at, c')
  {
    PlacedSound(b, b1, slots, c, slot, row, at);
    SoundOutside(b1, b2, 4, 10, slots', at, c');
    SoundOutside(b2, b', SlotOffset(slot), SlotOffset(slot + 1), slots', at, c');
  }

  lemma PlacedSlots(b: seq<byte>, b1: seq<byte>, b2: seq<byte>, b': seq<byte>, lo: nat, hi: nat, slot: nat)
    requires IsPage(b) && SlotOffset(Count(b)) <= lo && SlotOffset(Count(b)) <= P && slot <= Count(b)
    requires SameOutside(b, b1, lo, hi) && SameOutside(b1, b2, 4, 10) && IsPage(b2)
    requires SlotOffset(Count(b2)) <= P && Count(b2) == if slot == Count(b) then slot + 1 else Count(b)
    requires SameOutside(b2, b', SlotOffset(slot), SlotOffset(slot + 1))
    ensures IsPage(b') && Count(b') == Count(b2) && Start(b') == Start(b2) && End(b') == End(b2)
    ensures Slots(b') == StoreSlot(Slots(b), slot, Entry(b', slot))
  {
    SlotsKept(b, b1, lo, hi);
    SlotsUpdated(b2, b', slot);
    SlotsStored(b1, b2, b', slot);
  }

  lemma SlotsStored(b1: seq<byte>, b2: seq<byte>, b': seq<byte>, slot: nat)
    requires IsPage(b1) && SlotOffset(Count(b1)) <= P && slot <= Count(b1)
    requires SameOutside(b1, b2, 4, 10) && SlotOffset(Count(b2)) <= P
    requires Count(b2) == if slot == Count(b1) then slot + 1 else Count(b1)
    requires |b'| == P && Count(b') == Count(b2) && Slots(b') == Slots(b2)[slot := Entry(b', slot)]
    ensures Slots(b') == StoreSlot(Slots(b1), slot, Entry(b', slot))
  {
    forall i | 0 <= i < Count(b1) ensures Slots(b2)[i] == Slots(b1)[i] {
      EntryOutside(b1, b2, 4, 10, i);
    }
  }

  function StoreSlot(slots: seq<Slot>, slot: nat, s: Slot): seq<Slot>
    requires slot <= |slots|
  {
    if slot == |slots| then slots + [s] else slots[slot := s]
  }

  lemma StoredApart(slots: seq<Slot>, slot: nat, s: Slot)
    requires slot <= |slots| && forall i, j :: 0 <= i < j < |slots| ==> Apart(slots[i], slots[j])
    requires forall i :: 0 <= i < |slots| && i != slot ==> Apart(slots[i], s)
    ensures var slots' := StoreSlot(slots, slot, s);
      forall i, j :: 0 <= i < j < |slots'| ==> Apart(slots'[i], slots'[j])
  {
  }

  lemma PlacedSound(b: seq<byte>, b': seq<byte>, slots: seq<Slot>, c: Content, slot: nat, row: seq<byte>, at: nat)
    requires Sound(b, slots, at + |row|, c) && slot <= |c| && (slot < |c| ==> c[slot].None?)
    requires SameOutside(b, b', at, at + |row|) && b'[at..at + |row|] == row
    ensures Sound(b', StoreSlot(slots, slot, Slot(at, |row|, 1)), at, Store(c, slot, row))
  {
    forall i | 0 <= i < |c| && i != slot
      ensures Holds(b', at, slots[i], c[i]) && Apart(slots[i], Slot(at, |row|, 1))
    {
      assert Holds(b, at + |row|, slots[i], c[i]);
      HoldsOutside(b, b', at, at + |row|, at + |row|, at, slots[i], c[i]);
    }
    StoreBytes(c, slot, row);
    StoredApart(slots, slot, Slot(at, |row|, 1));
  }

  // ---------------------------------------------------------------- compaction

  datatype LiveRow = LiveRow(slot: nat, bytes: seq<byte>)

  function LiveRows(c: Content, n: nat): (rows: seq<LiveRow>)
    requires n <= |c|
    ensures forall k :: 0 <= k < |rows| ==> rows[k].slot < n && c[rows[k].slot] == Some(rows[k].bytes)
  {
    if n == 0 then []
    else LiveRows(c, n - 1) + if c[n - 1].Some? then [LiveRow(n - 1, c[n - 1].value)] else []
  }

  /** The slot of the k-th live row: compaction has dealt with every slot before it. */
  function NextSlot(c: Content, k: nat): (n: nat)
    requires k <= |LiveRows(c, |c|)|
    ensures n <= |c|
  {
    if k < |LiveRows(c, |c|)| then LiveRows(c, |c|)[k].slot else |c|
  }

  lemma {:induction false} DeadFrom(c: Content, n: nat, k: nat, i: nat)
    requires n <= |c| && k <= |LiveRows(c, n)|
    requires (if k == 0 then 0 else LiveRows(c, n)[k - 1].slot + 1) <= i
    requires i < if k < |LiveRows(c, n)| then LiveRows(c, n)[k].slot else n
    ensures i < |c| && c[i].None?
  {
    if n > 0 && (i < n - 1 || k > |LiveRows(c, n - 1)|) {
      if i < n - 1 && k <= |LiveRows(c, n - 1)| { DeadFrom(c, n - 1, k, i); }
    }
  }

  /** Between two consecutive live rows all slots are dead. */
  lemma NextSlotGap(c: Content, k: nat)
    requires k <= |LiveRows(c, |c|)|
    ensures var from := if k == 0 then 0 else LiveRows(c, |c|)[k - 1].slot + 1;
      from <= NextSlot(c, k) && forall i :: from <= i < NextSlot(c, k) ==> c[i].None?
  {
    LiveRowsAscend(c, |c|);
    var from := if k == 0 then 0 else LiveRows(c, |c|)[k - 1].slot + 1;
    forall i | from <= i < NextSlot(c, k) ensures c[i].None? {
      DeadFrom(c, |c|, k, i);
    }
  }

  lemma {:induction false} LiveRowsAscend(c: Content, n: nat)
    requires n <= |c|
    ensures var rows := LiveRows(c, n); forall k, l :: 0 <= k < l < |rows| ==> rows[k].slot < rows[l].slot
  {
    if n > 0 {
      LiveRowsAscend(c, n - 1);
      assert forall k :: 0 <= k < |LiveRows(c, n - 1)| ==> LiveRows(c, n)[k] == LiveRows(c, n - 1)[k];
    }
  }

  lemma {:induction false} DeadBytes(c: Content, m: nat, n: nat)
    requires m <= n <= |c| && forall i :: m <= i < n ==> c[i].None?
    ensures BytesTo(c, n) == BytesTo(c, m)
  {
    if m < n { DeadBytes(c, m, n - 1); }
  }

  /** Slots below n have been packed against the end of the page; `was` are the slots before. */
  ghost predicate Packing(b: seq<byte>, was: seq<Slot>, slots: seq<Slot>, c: Content, n: nat) {
    && n <= |c| == |slots| == |was|
    && (forall i :: 0 <= i < n ==> PackedSlot(b, slots[i], c, i))
    && (forall i :: n <= i < |c| ==> slots[i] == was[i])
  }

  ghost predicate PackedSlot(b: seq<byte>, s: Slot, c: Content, i: nat)
    requires i < |c|
  {
    var at := |b| - BytesTo(c, i + 1);
    0 <= at && Holds(b, at, s, c[i]) && (c[i].Some? ==> s == Slot(at, |c[i].value|, 1))
  }

  lemma KeepsPacked(b: seq<byte>, b': seq<byte>, lo: nat, hi: nat, s: Slot, c: Content, i: nat)
    requires i < |c| && PackedSlot(b, s, c, i)
    requires SameOutside(b, b', lo, hi) && hi <= |b| - BytesTo(c, i + 1)
    ensures PackedSlot(b', s, c, i)
  {
    var at := |b| - BytesTo(c, i + 1);
    HoldsOutside(b, b', lo, hi, at, at, s, c[i]);
  }

  lemma PackOne(b: seq<byte>, b1: seq<byte>, b': seq<byte>, was: seq<Slot>, slots: seq<Slot>, c: Content, n: nat, at: nat)
    requires Packing(b, was, slots, c, n) && n < |c| && c[n].Some?
    requires at == |b| - BytesTo(c, n + 1) && SlotOffset(n + 1) <= at
    requires SameOutside(b, b1, at, at + |c[n].value|)
    requires SameOutside(b1, b', SlotOffset(n), SlotOffset(n + 1)) && at + |c[n].value| <= |b|
    requires b1[at..at + |c[n].value|] == c[n].value
    ensures Packing(b', was, slots[n := Slot(at, |c[n].value|, 1)], c, n + 1)
  {
    forall i | 0 <= i < n ensures PackedSlot(b', slots[i], c, i) {
      assert PackedSlot(b, slots[i], c, i);
      BytesToMonotone(c, i + 1, n);
      KeepsPacked(b, b1, at, at + |c[n].value|, slots[i], c, i);
      KeepsPacked(b1, b', SlotOffset(n), SlotOffset(n + 1), slots[i], c, i);
    }
    SliceOutside(b1, b', SlotOffset(n), SlotOffset(n + 1), at, at + |c[n].value|);
  }

  /** Dead slots count as packed. */
  lemma PackDead(b0: seq<byte>, end: nat, b: seq<byte>, was: seq<Slot>, slots: seq<Slot>, c: Content, m: nat, n: nat)
    requires Sound(b0, was, end, c) && m <= n <= |c| && Packing(b, was, slots, c, m)
    requires LiveBytes(c) <= |b|
    requires forall i :: m <= i < n ==> c[i].None?
    ensures Packing(b, was, slots, c, n) && BytesTo(c, n) == BytesTo(c, m)
  {
    forall i | m <= i < n ensures PackedSlot(b, slots[i], c, i) {
      assert Holds(b0, end, was[i], c[i]);
      BytesToMonotone(c, i + 1, |c|);
    }
    DeadBytes(c, m, n);
  }

  lemma PackedApart(b: seq<byte>, s: Slot, t: Slot, c: Content, i: nat, j: nat)
    requires i < j < |c| && PackedSlot(b, s, c, i) && PackedSlot(b, t, c, j)
    ensures Apart(s, t)
  {
    BytesToMonotone(c, i + 1, j);
  }

  lemma PackedSound(b: seq<byte>, was: seq<Slot>, slots: seq<Slot>, c: Content)
    requires Packing(b, was, slots, c, |c|) && LiveBytes(c) <= |b|
    ensures Sound(b, slots, |b| - LiveBytes(c), c)
  {
    var end := |b| - LiveBytes(c);
    forall i | 0 <= i < |c| ensures Holds(b, end, slots[i], c[i]) {
      assert PackedSlot(b, slots[i], c, i);
      BytesToMonotone(c, i + 1, |c|);
    }
    forall i, j | 0 <= i < j < |c| ensures Apart(slots[i], slots[j]) {
      PackedApart(b, slots[i], slots[j], c, i, j);
    }
  }

  lemma Packed(b: seq<byte>, b': seq<byte>, was: seq<Slot>, c: Content)
    requires |b| == P && Header(b, |c|, End(b)) && Packing(b, was, Slots(b), c, |c|)
    requires SameOutside(b, b', 8, 10) && End(b') == P - LiveBytes(c) >= SlotOffset(|c|)
    ensures ValidPage(b') && IsPage(b') && ContentOf(b') == c
  {
    PackedSound(b, was, Slots(b), c);
    forall i | 0 <= i < |c| ensures Entry(b', i) == Entry(b, i) {
      EntryOutside(b, b', 8, 10, i);
    }
    assert Slots(b') == Slots(b);
    SoundOutside(b, b', 8, 10, Slots(b), P - LiveBytes(c), c);
    SoundContent(b', c);
  }
}
