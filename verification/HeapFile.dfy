/** The HeapFile object of src/native_storage.cpp:785-993: a map from row ids to tuples, kept
    in slotted pages that are reached through the buffer pool. */
module HeapFile {
  import opened Wrappers
  import opened RowIds
  import opened Bytes
  import opened PageFormat
  import opened SlottedPage
  import opened BufferPool
  import opened HeapPages
  import opened TupleCodec
  import opened TupleDecoders
  import opened HeapScan

  datatype HeapError =
    | TooManyFields | TupleExceedsPage | RowGone | NoHeapFile | Corrupt(error: DecodeError)

  // ------------------------------------------------------- rows in the pages

  ghost function SlotAt(s: State, file: File, id: RowId): Option<seq<byte>> {
    var c := ContentAt(s, PageKey(file, id.page));
    if id.slot < |c| then c[id.slot] else None
  }

  ghost predicate StoresRow(s: State, file: File, rows: map<RowId, Tuple>, id: RowId) {
    && SlotAt(s, file, id) == (if id in rows then Some(EncodeTuple(rows[id])) else None)
    && (id in rows ==> RepresentableTuple(rows[id]))
  }

  /** The live slots of the file's pages hold exactly these rows. */
  ghost predicate StoresRows(s: State, file: File, rows: map<RowId, Tuple>) {
    forall id :: StoresRow(s, file, rows, id)
  }

  ghost predicate Ready(s: State) {
    SoundPages(s) && DirtyInside(s, None) && Unpinned(s)
  }

  /** The contents of one slot are replaced and nothing else changes. */
  ghost predicate ChangesSlot(s: State, s': State, file: File, id: RowId, row: Option<seq<byte>>) {
    && SlotAt(s', file, id) == row
    && (forall x :: x != id ==> SlotAt(s', file, x) == SlotAt(s, file, x))
    && (forall k: PageKey :: k.file != file ==> ContentAt(s', k) == ContentAt(s, k))
  }

  lemma SameContentsHold(s: State, s': State, file: File, rows: map<RowId, Tuple>)
    requires StoresRows(s, file, rows) && SameContents(s, s')
    ensures StoresRows(s', file, rows)
  {
    forall id ensures StoresRow(s', file, rows, id) {
      assert StoresRow(s, file, rows, id);
      assert ContentAt(s', PageKey(file, id.page)) == ContentAt(s, PageKey(file, id.page));
    }
  }

  lemma PageChangesSlot(s: State, s': State, file: File, id: RowId, c: Content, c': Content, row: Option<seq<byte>>)
    requires c == ContentAt(s, PageKey(file, id.page)) && c' == ContentAt(s', PageKey(file, id.page))
    requires forall k :: k != PageKey(file, id.page) ==> ContentAt(s', k) == ContentAt(s, k)
    requires id.slot < |c'| && c'[id.slot] == row && |c| <= |c'| <= (if id.slot == |c| then |c| + 1 else |c|)
    requires forall i :: 0 <= i < |c| && i != id.slot ==> c'[i] == c[i]
    ensures ChangesSlot(s, s', file, id, row)
  {
    forall x | x != id ensures SlotAt(s', file, x) == SlotAt(s, file, x) {
      if x.page == id.page {
        assert x.slot != id.slot;
      } else {
        assert ContentAt(s', PageKey(file, x.page)) == ContentAt(s, PageKey(file, x.page));
      }
    }
  }

  lemma StoredHolds(s: State, s': State, file: File, rows: map<RowId, Tuple>, id: RowId, t: Tuple)
    requires StoresRows(s, file, rows) && RepresentableTuple(t) && ChangesSlot(s, s', file, id, Some(EncodeTuple(t)))
    ensures StoresRows(s', file, rows[id := t])
  {
    var rows' := rows[id := t];
    forall x ensures StoresRow(s', file, rows', x) {
      assert StoresRow(s, file, rows, x);
    }
  }

  lemma ErasedHolds(s: State, s': State, file: File, rows: map<RowId, Tuple>, id: RowId)
    requires StoresRows(s, file, rows) && ChangesSlot(s, s', file, id, None)
    ensures StoresRows(s', file, rows - {id})
  {
    forall x ensures StoresRow(s', file, rows - {id}, x) {
      assert StoresRow(s, file, rows, x);
    }
  }

  // -------------------------------------------------- pages as plain bytes

  method InsertInPage(b: seq<byte>, row: seq<byte>) returns (b': seq<byte>, r: Insertion)
    requires ValidPage(b)
    ensures ValidPage(b')
    ensures r.TupleTooLarge? <==> |row| > 65535
    ensures |row| <= 65535 ==> (r.NoRoom? <==> SpaceNeeded(ContentOf(b), row) > P)
    ensures r.Stored? ==> r.slot == FirstDead(ContentOf(b)) && ContentOf(b') == Store(ContentOf(b), r.slot, row)
    ensures !r.Stored? ==> ContentOf(b') == ContentOf(b)
  {
    var bytes := new byte[|b|](i requires 0 <= i < |b| => b[i]);
    assert bytes[..] == b;
    var page := new Page(bytes);
    r := page.Insert(row);
    b' := bytes[..];
  }

  method EraseInPage(b: seq<byte>, slot: nat) returns (b': seq<byte>, ok: bool)
    requires ValidPage(b)
    ensures ValidPage(b') && ok == (slot < |ContentOf(b)| && ContentOf(b)[slot].Some?)
    ensures ContentOf(b') == if ok then ContentOf(b)[slot := None] else ContentOf(b)
    ensures !ok ==> b' == b
  {
    var bytes := new byte[|b|](i requires 0 <= i < |b| => b[i]);
    assert bytes[..] == b;
    var page := new Page(bytes);
    ok := page.Erase(slot);
    b' := bytes[..];
  }

  method UpdateInPage(b: seq<byte>, slot: nat, row: seq<byte>) returns (b': seq<byte>, ok: bool)
    requires ValidPage(b)
    ensures ValidPage(b')
    ensures ok == (slot < |ContentOf(b)| && ContentOf(b)[slot].Some? && |row| <= |ContentOf(b)[slot].value|)
    ensures ContentOf(b') == if ok then ContentOf(b)[slot := Some(row)] else ContentOf(b)
    ensures !ok ==> b' == b
  {
    var bytes := new byte[|b|](i requires 0 <= i < |b| => b[i]);
    assert bytes[..] == b;
    var page := new Page(bytes);
    ok := page.Update(slot, row);
    b' := bytes[..];
  }

  method ReadInPage(b: seq<byte>, slot: nat) returns (row: Option<seq<byte>>)
    requires ValidPage(b)
    ensures row == if slot < |ContentOf(b)| then ContentOf(b)[slot] else None
  {
    var bytes := new byte[|b|](i requires 0 <= i < |b| => b[i]);
    assert bytes[..] == b;
    var page := new Page(bytes);
    row := page.Read(slot);
  }

  // ------------------------------------------------------ one guarded access

  lemma SomeFrame(frames: map<PageKey, Frame>)
    requires |frames| >= 1
    ensures exists k :: k in frames
  {
    assert |frames.Keys| == |frames|;
    var k :| k in frames.Keys;
  }

  /** Between two accesses nothing is pinned, so there is always room for a page. */
  lemma NotAllPinned(s: State, capacity: nat, r: Result<(), PoolError>)
    requires capacity >= 1 && Unpinned(s)
    requires r == Err(AllPagesPinned) ==> |s.frames| >= capacity && forall k :: k in s.frames ==> Pinned(s, k)
    ensures r.Err? ==> r == Err(NoSuchFile)
  {
    match r
    case Err(AllPagesPinned) => SomeFrame(s.frames);
    case Err(NoSuchFile) =>
    case Ok(_) =>
  }

  /** A page is open: pinned once, everything else unpinned, and nothing reads differently. */
  ghost predicate Opened(s: State, s': State, key: PageKey) {
    OpenAlone(s', key) && SameContents(s, s') && SameSizes(s, s') && Leaves(s, s', key.file)
  }

  ghost predicate OpenAlone(s: State, key: PageKey) {
    && key in s.frames && s.frames[key].pins == 1
    && (forall k :: k in s.frames && k != key ==> s.frames[k].pins == 0)
    && SoundPages(s) && DirtyInside(s, None)
  }

  lemma FetchOpens(s: State, s': State, key: PageKey)
    requires Ready(s) && Fetches(s, s', key, true)
    ensures Opened(s, s', key)
  {
    FetchSound(s, s', key, true);
    FetchInside(s, s', key, true);
    FetchLeaves(s, s', key, true, key.file);
  }

  lemma OpenedPage(s: State, s': State, key: PageKey)
    requires Opened(s, s', key)
    ensures ValidPage(s'.frames[key].bytes) && ContentOf(s'.frames[key].bytes) == ContentAt(s, key)
  {
    assert SoundAt(s', key);
    assert ContentAt(s', key) == ContentAt(s, key);
  }

  method OpenPage(pool: BufferPool, key: PageKey, create: bool) returns (b: seq<byte>)
    requires pool.Valid() && Ready(pool.Now()) && (key.file in pool.disk || create || key in pool.frames)
    modifies pool
    ensures pool.Valid() && Opened(old(pool.Now()), pool.Now(), key) && pool.frames[key].bytes == b
    ensures ValidPage(b) && ContentOf(b) == ContentAt(old(pool.Now()), key)
  {
    ghost var s := pool.Now();
    var r := pool.Fetch(key, create);
    NotAllPinned(s, pool.capacity, r);
    FetchOpens(s, pool.Now(), key);
    OpenedPage(s, pool.Now(), key);
    b := pool.frames[key].bytes;
  }

  method ClosePage(pool: BufferPool, key: PageKey)
    requires pool.Valid() && OpenAlone(pool.Now(), key)
    modifies pool
    ensures pool.Valid() && Ready(pool.Now()) && pool.disk == old(pool.disk)
    ensures SameContents(old(pool.Now()), pool.Now()) && Leaves(old(pool.Now()), pool.Now(), key.file)
    ensures pool.frames == old(pool.frames)[key := old(pool.frames)[key].(pins := 0)]
  {
    ghost var s := pool.Now();
    var ok := pool.Unpin(key);
    UnpinSound(s, pool.Now(), key, 0);
    LeavesSame(s, pool.Now(), key.file);
  }

  /** Rewriting an open page. */
  lemma RewriteOpened(s: State, t: State, u: State, key: PageKey, bytes: seq<byte>, mark: bool)
    requires Opened(s, t, key) && Rewrites(t, u, key, bytes, mark) && ValidPage(bytes)
    requires if mark then key.page < PageCount(t.disk, key.file) else ContentOf(bytes) == ContentAt(s, key)
    ensures SoundPages(u) && DirtyInside(u, None) && SameSizes(s, u) && Leaves(s, u, key.file)
    ensures ContentAt(u, key) == ContentOf(bytes)
    ensures forall k :: k != key ==> ContentAt(u, k) == ContentAt(s, k)
  {
    assert ContentAt(t, key) == ContentAt(s, key);
    RewriteSound(t, u, key, bytes, mark);
    RewriteLeaves(t, u, key, bytes, mark);
    LeavesBoth(s, t, u, key.file);
    forall k | k != key ensures ContentAt(u, k) == ContentAt(s, k) {
      assert ContentAt(t, k) == ContentAt(s, k);
    }
  }

  ghost predicate ChangesPage(s: State, s': State, key: PageKey, c: Content) {
    ContentAt(s', key) == c && forall k :: k != key ==> ContentAt(s', k) == ContentAt(s, k)
  }

  /** An access to one page: open, perhaps rewrite, close. */
  ghost predicate Accesses(s: State, s': State, key: PageKey, c: Content) {
    Ready(s') && SameSizes(s, s') && ChangesPage(s, s', key, c) && Leaves(s, s', key.file)
  }

  method WriteAndClose(pool: BufferPool, key: PageKey, bytes: seq<byte>, mark: bool, ghost s: State)
    requires pool.Valid() && Opened(s, pool.Now(), key) && ValidPage(bytes)
    requires if mark then key.page < PageCount(pool.disk, key.file) else ContentOf(bytes) == ContentAt(s, key)
    modifies pool
    ensures pool.Valid() && Accesses(s, pool.Now(), key, ContentOf(bytes))
  {
    ghost var t := pool.Now();
    pool.Modify(key, bytes, mark);
    ghost var u := pool.Now();
    RewriteOpened(s, t, u, key, bytes, mark);
    ClosePage(pool, key);
    LeavesBoth(s, u, pool.Now(), key.file);
    AccessDone(s, u, pool.Now(), key, ContentOf(bytes));
  }

  method DirtyAndFlush(pool: BufferPool, key: PageKey, bytes: seq<byte>, ghost s: State)
    requires pool.Valid() && Opened(s, pool.Now(), key) && ValidPage(bytes)
    requires key.file in s.disk && key.page == PageCount(s.disk, key.file)
    modifies pool
    ensures pool.Valid() && PageAdded(s, pool.Now(), key, ContentOf(bytes))
  {
    ghost var t := pool.Now();
    pool.Modify(key, bytes, true);
    ghost var u := pool.Now();
    AddedDirty(s, t, u, key, bytes);
    pool.FlushFile(key.file);
    AddedFlushed(s, u, pool.Now(), key, ContentOf(bytes));
  }

  /** An insertion into the page after the last one of a file. */
  method InsertInNewPage(pool: BufferPool, key: PageKey, row: seq<byte>) returns (slot: nat)
    requires pool.Valid() && Ready(pool.Now())
    requires key.file in pool.disk && key.page == PageCount(pool.disk, key.file) && |row| + 22 <= P
    modifies pool
    ensures pool.Valid() && Ready(pool.Now())
    ensures slot == FirstDead(ContentAt(old(pool.Now()), key))
    ensures ChangesPage(old(pool.Now()), pool.Now(), key, Store(ContentAt(old(pool.Now()), key), slot, row))
    ensures key.file in pool.disk && PageCount(pool.disk, key.file) == key.page + 1
    ensures Leaves(old(pool.Now()), pool.Now(), key.file)
  {
    ghost var s := pool.Now();
    NewPageHasRoom(s, key, row);
    var b := OpenPage(pool, key, true);
    var b', r := InsertInPage(b, row);
    DirtyAndFlush(pool, key, b', s);
    ghost var v := pool.Now();
    ClosePage(pool, key);
    AddedChanges(s, v, pool.Now(), key, ContentOf(b'));
    LeavesBoth(s, v, pool.Now(), key.file);
    return r.slot;
  }

  method InsertInOldPage(pool: BufferPool, key: PageKey, row: seq<byte>) returns (slot: Option<nat>)
    requires pool.Valid() && Ready(pool.Now())
    requires key.file in pool.disk && key.page < PageCount(pool.disk, key.file) && |row| <= 65535
    modifies pool
    ensures pool.Valid() && Ready(pool.Now()) && SameSizes(old(pool.Now()), pool.Now())
    ensures Leaves(old(pool.Now()), pool.Now(), key.file)
    ensures slot.Some? ==> slot.value == FirstDead(ContentAt(old(pool.Now()), key))
    ensures slot.Some? ==>
              ChangesPage(old(pool.Now()), pool.Now(), key, Store(ContentAt(old(pool.Now()), key), slot.value, row))
    ensures slot.None? ==> SameContents(old(pool.Now()), pool.Now())
  {
    ghost var s := pool.Now();
    var b := OpenPage(pool, key, false);
    var b', r := InsertInPage(b, row);
    WriteAndClose(pool, key, b', r.Stored?, s);
    if !r.Stored? {
      AccessKeeps(s, pool.Now(), key);
      return None;
    }
    return Some(r.slot);
  }

  method FetchForRead(pool: BufferPool, key: PageKey) returns (r: Result<seq<byte>, PoolError>)
    requires pool.Valid() && Ready(pool.Now())
    modifies pool
    ensures pool.Valid() && Ready(pool.Now())
    ensures SameContents(old(pool.Now()), pool.Now()) && SameSizes(old(pool.Now()), pool.Now())
    ensures Leaves(old(pool.Now()), pool.Now(), key.file) && ReadsOnly(old(pool.Now()), pool.Now())
    ensures r.Err? ==> key.file !in old(pool.disk)
    ensures r.Ok? ==> ValidPage(r.value) && ContentOf(r.value) == ContentAt(old(pool.Now()), key)
  {
    ghost var s := pool.Now();
    var fetched := pool.Fetch(key, false);
    NotAllPinned(s, pool.capacity, fetched);
    FetchReadsOnly(s, pool.Now(), key, fetched.Ok?);
    if fetched.Err? {
      FetchMisses(s, pool.Now(), key);
      return Err(fetched.error);
    }
    FetchOpens(s, pool.Now(), key);
    OpenedPage(s, pool.Now(), key);
    r := Ok(pool.frames[key].bytes);
    ghost var t := pool.Now();
    ClosePage(pool, key);
    StillSame(s, t, pool.Now());
    LeavesBoth(s, t, pool.Now(), key.file);
  }

  lemma FetchMisses(s: State, s': State, key: PageKey)
    requires Ready(s) && Fetches(s, s', key, false)
    ensures Ready(s') && SameContents(s, s') && SameSizes(s, s') && Leaves(s, s', key.file)
  {
    FetchSound(s, s', key, false);
    FetchInside(s, s', key, false);
    FetchLeaves(s, s', key, false, key.file);
  }

  lemma StillSame(s: State, t: State, u: State)
    requires SameContents(s, t) && SameSizes(s, t) && SameContents(t, u) && u.disk == t.disk
    ensures SameContents(s, u) && SameSizes(s, u)
  {
    forall k ensures ContentAt(u, k) == ContentAt(s, k) {
      assert ContentAt(u, k) == ContentAt(t, k);
    }
  }

  method EraseOnPage(pool: BufferPool, key: PageKey, slot: nat) returns (ok: bool)
    requires pool.Valid() && Ready(pool.Now())
    requires key.file in pool.disk && key.page < PageCount(pool.disk, key.file)
    modifies pool
    ensures pool.Valid() && Ready(pool.Now()) && SameSizes(old(pool.Now()), pool.Now())
    ensures KeepsOthers(old(pool.Now()), pool.Now(), key.file)
    ensures ok == (slot < |ContentAt(old(pool.Now()), key)| && ContentAt(old(pool.Now()), key)[slot].Some?)
    ensures ok ==> ChangesPage(old(pool.Now()), pool.Now(), key, ContentAt(old(pool.Now()), key)[slot := None])
    ensures !ok ==> SameContents(old(pool.Now()), pool.Now())
  {
    ghost var s := pool.Now();
    var b := OpenPage(pool, key, false);
    var b';
    b', ok := EraseInPage(b, slot);
    WriteAndClose(pool, key, b', ok, s);
    AccessKeepsOthers(s, pool.Now(), key, ContentOf(b'));
    if !ok { AccessKeeps(s, pool.Now(), key); }
  }

  method UpdateOnPage(pool: BufferPool, key: PageKey, slot: nat, row: seq<byte>) returns (ok: bool)
    requires pool.Valid() && Ready(pool.Now())
    requires key.file in pool.disk && key.page < PageCount(pool.disk, key.file)
    modifies pool
    ensures pool.Valid() && Ready(pool.Now()) && SameSizes(old(pool.Now()), pool.Now())
    ensures Leaves(old(pool.Now()), pool.Now(), key.file)
    ensures ok ==> |row| + 22 <= P
    ensures ok ==> slot < |ContentAt(old(pool.Now()), key)| && ContentAt(old(pool.Now()), key)[slot].Some?
    ensures ok ==> ChangesPage(old(pool.Now()), pool.Now(), key, ContentAt(old(pool.Now()), key)[slot := Some(row)])
    ensures !ok ==> SameContents(old(pool.Now()), pool.Now())
  {
    ghost var s := pool.Now();
    var b := OpenPage(pool, key, false);
    var b';
    b', ok := UpdateInPage(b, slot, row);
    if ok { RowFits(b, slot); }
    WriteAndClose(pool, key, b', ok, s);
    if !ok { AccessKeeps(s, pool.Now(), key); }
  }

  lemma AccessDone(s: State, u: State, s': State, key: PageKey, c: Content)
    requires SameSizes(s, u) && ContentAt(u, key) == c && forall k :: k != key ==> ContentAt(u, k) == ContentAt(s, k)
    requires Ready(s') && s'.disk == u.disk && SameContents(u, s') && Leaves(s, s', key.file)
    ensures Accesses(s, s', key, c)
  {
    assert ContentAt(s', key) == ContentAt(u, key);
    forall k | k != key ensures ContentAt(s', k) == ContentAt(s, k) {
      assert ContentAt(s', k) == ContentAt(u, k);
    }
  }

  /** The rows of one page, in slot order, go into the batches. */
  method ScanSlots(b: seq<byte>, page: nat, size: nat, batches: seq<seq<StoredRow>>, rest: seq<StoredRow>,
                   ghost rows: map<RowId, Tuple>, ghost list: seq<StoredRow>)
    returns (batches': seq<seq<StoredRow>>, rest': seq<StoredRow>, ghost list': seq<StoredRow>)
    requires ValidPage(b) && PageStores(ContentOf(b), rows, page)
    requires Batched(batches, rest, size, list) && HeapScan.Lists(list, rows, page, 0)
    ensures Batched(batches', rest', size, list') && HeapScan.Lists(list', rows, page + 1, 0)
  {
    batches', rest', list' := batches, rest, list;
    ghost var c := ContentOf(b);
    var count := if IsPage(b) then Count(b) else 0;
    assert count == |c|;
    for slot := 0 to count
      invariant Batched(batches', rest', size, list') && HeapScan.Lists(list', rows, page, slot)
    {
      var bytes := ReadInPage(b, slot);
      assert PageStoresSlot(c, rows, page, slot);
      if bytes.Some? {
        ghost var id := RowId(page, slot);
        RoundTrip(rows[id]);
        var tuple := DecodeWhole(bytes.value);
        var row := StoredRow(RowId(page, slot), tuple.value);
        batches', rest' := AddToBatch(batches', rest', size, row, list');
        ListsNext(list', rows, page, slot, list' + [row]);
        list' := list' + [row];
      } else {
        ListsNext(list', rows, page, slot, list');
      }
    }
    PageExhausted(list', rows, page, c);
  }

  lemma PageRows(s: State, file: File, rows: map<RowId, Tuple>, page: nat)
    requires StoresRows(s, file, rows)
    ensures PageStores(ContentAt(s, PageKey(file, page)), rows, page)
  {
    forall slot: nat ensures PageStoresSlot(ContentAt(s, PageKey(file, page)), rows, page, slot) {
      assert StoresRow(s, file, rows, RowId(page, slot));
    }
  }

  lemma AllListed(s: State, file: File, rows: map<RowId, Tuple>, list: seq<StoredRow>, pages: nat)
    requires Ready(s) && StoresRows(s, file, rows) && pages == PageCount(s.disk, file)
    requires HeapScan.Lists(list, rows, pages, 0)
    ensures forall id :: id in rows ==> StoredRow(id, rows[id]) in list
  {
    forall id | id in rows ensures StoredRow(id, rows[id]) in list {
      LiveInFile(s, file, rows, id);
    }
  }

  // ----------------------------------------------------------- the heap file

  class HeapFile {
    const path: File
    const pool: BufferPool
    var insertPageHint: Option<nat>
    var knownPageCount: Option<nat>
    ghost var rows: map<RowId, Tuple>

    ghost predicate Valid()
      reads this, pool
    {
      && pool.Valid() && Ready(pool.Now()) && StoresRows(pool.Now(), path, rows)
      && (knownPageCount.Some? ==> knownPageCount.value == PageCount(pool.disk, path))
    }

    constructor (path: File, pool: BufferPool, ghost rows: map<RowId, Tuple>)
      requires pool.Valid() && Ready(pool.Now()) && StoresRows(pool.Now(), path, rows)
      ensures Valid() && this.path == path && this.pool == pool && this.rows == rows
    {
      this.path, this.pool, this.rows := path, pool, rows;
      insertPageHint, knownPageCount := None, None;
    }

    /** Files other than this one keep their rows, and what they have on disk. */
    twostate predicate OthersKept()
      reads this, pool
    {
      KeepsOthers(old(pool.Now()), pool.Now(), path)
    }

    method Create()
      requires Valid()
      modifies this`knownPageCount, pool
      ensures Valid() && path in pool.disk && OthersKept()
      ensures path !in old(pool.disk) ==> pool.Now() == old(pool.Now()).(disk := old(pool.disk)[path := []])
    {
      ghost var s := pool.Now();
      KeptSame(s, path);
      if path in pool.disk { return; }
      pool.CreateFile(path);
      knownPageCount := Some(0);
      CreatedHolds(s, pool.Now(), path, rows);
    }

    method PageTotal() returns (n: nat)
      requires Valid()
      modifies this`knownPageCount
      ensures Valid() && n == PageCount(pool.disk, path)
    {
      if knownPageCount.Some? { return knownPageCount.value; }
      n := PageCount(pool.disk, path);
      knownPageCount := Some(n);
    }

    method TryInsert(page: nat, row: seq<byte>, tuple: Tuple) returns (slot: Option<nat>)
      requires Valid() && path in pool.disk && page < PageCount(pool.disk, path)
      requires RepresentableTuple(tuple) && row == EncodeTuple(tuple) && |row| <= 65535
      modifies this`rows, pool
      ensures Valid() && OthersKept() && SameSizes(old(pool.Now()), pool.Now())
      ensures slot.None? ==> rows == old(rows)
      ensures slot.Some? ==> RowId(page, slot.value) !in old(rows)
                             && rows == old(rows)[RowId(page, slot.value) := tuple]
    {
      ghost var s := pool.Now();
      slot := InsertInOldPage(pool, PageKey(path, page), row);
      if slot.None? {
        SameContentsHold(s, pool.Now(), path, rows);
      } else {
        StoredRowHolds(s, pool.Now(), path, rows, RowId(page, slot.value), tuple);
        rows := rows[RowId(page, slot.value) := tuple];
      }
    }

    method AddPage(page: nat, row: seq<byte>, tuple: Tuple) returns (slot: nat)
      requires Valid() && path in pool.disk && page == PageCount(pool.disk, path)
      requires RepresentableTuple(tuple) && row == EncodeTuple(tuple) && |row| + 22 <= P
      modifies this, pool
      ensures Valid() && OthersKept() && PageCount(pool.disk, path) == page + 1
      ensures insertPageHint == Some(page)
      ensures RowId(page, slot) !in old(rows) && rows == old(rows)[RowId(page, slot) := tuple]
    {
      ghost var s := pool.Now();
      slot := InsertInNewPage(pool, PageKey(path, page), row);
      knownPageCount, insertPageHint := Some(page + 1), Some(page);
      StoredRowHolds(s, pool.Now(), path, rows, RowId(page, slot), tuple);
      rows := rows[RowId(page, slot) := tuple];
    }

    /** Stores the tuple in a slot that was free, on the hinted page, a later one or a new one. */
    method Insert(tuple: Tuple) returns (r: Result<RowId, HeapError>)
      requires Valid() && forall i :: 0 <= i < |tuple| ==> Representable(tuple[i])
      modifies this, pool
      ensures Valid() && OthersKept()
      ensures r == Err(TooManyFields) <==> |tuple| > 65535
      ensures r == Err(TupleExceedsPage) <==> |tuple| <= 65535 && |EncodeTuple(tuple)| + 22 > P
      ensures r.Ok? <==> |tuple| <= 65535 && |EncodeTuple(tuple)| + 22 <= P
      ensures r.Err? ==> rows == old(rows)
      ensures r.Ok? ==> r.value !in old(rows) && rows == old(rows)[r.value := tuple]
    {
      ghost var s := pool.Now();
      Create();
      var encoded := EncodeToBytes(tuple);
      if encoded == None { return Err(TooManyFields); }
      if |encoded.value| + 22 > P { return Err(TupleExceedsPage); }
      var pages := PageTotal();
      var page := 0;
      if insertPageHint.Some? && insertPageHint.value < pages { page := insertPageHint.value; }
      else if pages > 0 { page := pages - 1; }
      ghost var created := pool.Now();
      var found := TryPages(page, pages, encoded.value, tuple);
      KeptBoth(s, created, pool.Now(), path);
      if found.Some? { return Ok(found.value); }
      ghost var t := pool.Now();
      var slot := AddPage(pages, encoded.value, tuple);
      KeptBoth(s, t, pool.Now(), path);
      return Ok(RowId(pages, slot));
    }

    /** The first page from this one on that has room. */
    method TryPages(first: nat, pages: nat, row: seq<byte>, tuple: Tuple) returns (found: Option<RowId>)
      requires Valid() && path in pool.disk && first <= pages == PageCount(pool.disk, path)
      requires RepresentableTuple(tuple) && row == EncodeTuple(tuple) && |row| <= 65535
      modifies this`rows, this`insertPageHint, pool
      ensures Valid() && OthersKept() && path in pool.disk && PageCount(pool.disk, path) == pages
      ensures found.None? ==> rows == old(rows)
      ensures found.Some? ==> found.value !in old(rows) && rows == old(rows)[found.value := tuple]
    {
      ghost var s := pool.Now();
      KeptSame(s, path);
      for page := first to pages
        invariant Valid() && path in pool.disk && PageCount(pool.disk, path) == pages
        invariant rows == old(rows) && KeepsOthers(s, pool.Now(), path)
      {
        ghost var t := pool.Now();
        var slot := TryInsert(page, row, tuple);
        KeptBoth(s, t, pool.Now(), path);
        if slot.Some? {
          insertPageHint := Some(page);
          return Some(RowId(page, slot.value));
        }
      }
      return None;
    }

    method Erase(id: RowId) returns (ok: bool)
      requires Valid()
      modifies this, pool
      ensures Valid() && OthersKept() && insertPageHint == old(insertPageHint)
      ensures ok == (id in old(rows)) && rows == old(rows) - {id}
    {
      ghost var s := pool.Now();
      LiveSlot(s, path, rows, id);
      if id in rows { LiveInFile(s, path, rows, id); }
      KeptSame(s, path);
      var pages := PageTotal();
      if id.page >= pages { return false; }
      ok := EraseOnPage(pool, PageKey(path, id.page), id.slot);
      if ok {
        ErasedRowHolds(s, pool.Now(), path, rows, id);
        rows := rows - {id};
      } else {
        SameContentsHold(s, pool.Now(), path, rows);
      }
    }

    method UpdateInPlace(id: RowId, row: seq<byte>, tuple: Tuple) returns (ok: bool)
      requires Valid() && RepresentableTuple(tuple) && row == EncodeTuple(tuple)
      modifies this, pool
      ensures Valid() && OthersKept()
      ensures ok ==> id in old(rows) && rows == old(rows)[id := tuple] && |row| + 22 <= P
      ensures !ok ==> rows == old(rows)
    {
      ghost var s := pool.Now();
      KeptSame(s, path);
      var pages := PageTotal();
      if id.page >= pages { return false; }
      ok := UpdateOnPage(pool, PageKey(path, id.page), id.slot, row);
      if ok {
        UpdatedRowHolds(s, pool.Now(), path, rows, id, tuple);
        rows := rows[id := tuple];
      } else {
        SameContentsHold(s, pool.Now(), path, rows);
      }
    }

    /** Keeps the row where it is or moves it. A tuple too large for any page is refused only
        after the old row has been erased. */
    method Update(id: RowId, tuple: Tuple) returns (r: Result<RowId, HeapError>)
      requires Valid() && forall i :: 0 <= i < |tuple| ==> Representable(tuple[i])
      modifies this, pool
      ensures Valid() && OthersKept()
      ensures r.Ok? ==> id in old(rows) && (r.value == id || r.value !in old(rows))
      ensures r.Ok? ==> rows == (old(rows) - {id})[r.value := tuple]
      ensures r == Err(TooManyFields) <==> |tuple| > 65535
      ensures r == Err(RowGone) <==> |tuple| <= 65535 && id !in old(rows)
      ensures r == Err(TooManyFields) ==> rows == old(rows)
      ensures r == Err(RowGone) ==> rows == old(rows)
      ensures r == Err(TupleExceedsPage) <==> |tuple| <= 65535 && id in old(rows) && |EncodeTuple(tuple)| + 22 > P
      ensures r == Err(TupleExceedsPage) ==> rows == old(rows) - {id}
      ensures r.Err? ==> r.error.TooManyFields? || r.error.RowGone? || r.error.TupleExceedsPage?
    {
      ghost var s := pool.Now();
      KeptSame(s, path);
      var encoded := EncodeToBytes(tuple);
      if encoded == None { return Err(TooManyFields); }
      var done := UpdateInPlace(id, encoded.value, tuple);
      if done {
        Replaced(old(rows), id, tuple);
        return Ok(id);
      }
      r := MoveRow(id, tuple, s);
    }

    /** The row goes to wherever an insertion puts it. */
    method MoveRow(id: RowId, tuple: Tuple, ghost s: State) returns (r: Result<RowId, HeapError>)
      requires Valid() && RepresentableTuple(tuple) && KeepsOthers(s, pool.Now(), path)
      modifies this, pool
      ensures Valid() && KeepsOthers(s, pool.Now(), path)
      ensures r == Err(RowGone) <==> id !in old(rows)
      ensures r == Err(TupleExceedsPage) <==> id in old(rows) && |EncodeTuple(tuple)| + 22 > P
      ensures r.Err? ==> r.error.RowGone? || r.error.TupleExceedsPage?
      ensures rows == if r.Ok? then (old(rows) - {id})[r.value := tuple] else old(rows) - {id}
      ensures r.Ok? ==> id in old(rows) && r.value !in old(rows) - {id}
    {
      ghost var t := pool.Now();
      var erased := Erase(id);
      ghost var u := pool.Now();
      KeptBoth(s, t, u, path);
      if !erased { return Err(RowGone); }
      r := Insert(tuple);
      KeptBoth(s, u, pool.Now(), path);
    }

    /** Every row once, in heap order, in batches of the given size; only the last may be shorter. */
    method ScanBatches(size: nat) returns (batches: seq<seq<StoredRow>>, ghost list: seq<StoredRow>)
      requires Valid() && size > 0
      modifies this`knownPageCount, pool
      ensures Valid() && Observes(old(pool.Now()), pool.Now(), path)
      ensures Concat(batches) == list
      ensures exists page :: HeapScan.Lists(list, rows, page, 0)
      ensures forall id :: id in rows ==> StoredRow(id, rows[id]) in list
      ensures forall i :: 0 <= i < |batches| ==> 0 < |batches[i]| <= size && (i < |batches| - 1 ==> |batches[i]| == size)
    {
      var rest;
      ghost var start := pool.Now();
      ObservesSame(start, path);
      batches, rest, list := [], [], [];
      var pages := PageTotal();
      for page := 0 to pages
        invariant Valid() && Observes(start, pool.Now(), path) && PageCount(pool.disk, path) == pages
        invariant Batched(batches, rest, size, list) && HeapScan.Lists(list, rows, page, 0)
      {
        var fetched := ReadPage(page, start);
        batches, rest, list := ScanSlots(fetched, page, size, batches, rest, rows, list);
      }
      AllListed(pool.Now(), path, rows, list, pages);
      if rest != [] {
        ConcatOneMore(batches, rest);
        batches := batches + [rest];
      }
    }

    /** One page of a scan. */
    method ReadPage(page: nat, ghost start: State) returns (bytes: seq<byte>)
      requires Valid() && page < PageCount(pool.disk, path) && Observes(start, pool.Now(), path)
      modifies pool
      ensures Valid() && Observes(start, pool.Now(), path) && PageCount(pool.disk, path) == PageCount(old(pool.disk), path)
      ensures ValidPage(bytes) && PageStores(ContentOf(bytes), rows, page)
    {
      ghost var s := pool.Now();
      var fetched := FetchForRead(pool, PageKey(path, page));
      SameContentsHold(s, pool.Now(), path, rows);
      PageRows(s, path, rows, page);
      ObservesBoth(start, s, pool.Now(), path);
      return fetched.value;
    }

    method Read(id: RowId) returns (r: Result<Option<StoredRow>, HeapError>)
      requires Valid()
      modifies pool
      ensures Valid() && Observes(old(pool.Now()), pool.Now(), path)
      ensures r.Err? ==> r.error == NoHeapFile && path !in old(pool.disk) && id !in rows
      ensures r.Ok? ==> r.value == if id in rows then Some(StoredRow(id, rows[id])) else None
    {
      ghost var s := pool.Now();
      LiveSlot(s, path, rows, id);
      if id in rows { LiveInFile(s, path, rows, id); }
      var key := PageKey(path, id.page);
      var fetched := FetchForRead(pool, key);
      SameContentsHold(s, pool.Now(), path, rows);
      if fetched.Err? { return Err(NoHeapFile); }
      var bytes := ReadInPage(fetched.value, id.slot);
      if bytes.None? { return Ok(None); }
      RoundTrip(rows[id]);
      var tuple := DecodeWhole(bytes.value);
      return Ok(Some(StoredRow(id, tuple.value)));
    }
  }

  lemma ErasedRowHolds(s: State, s': State, file: File, rows: map<RowId, Tuple>, id: RowId)
    requires StoresRows(s, file, rows)
    requires var c := ContentAt(s, PageKey(file, id.page));
      && id.slot < |c| && c[id.slot].Some? && ChangesPage(s, s', PageKey(file, id.page), c[id.slot := None])
    ensures id in rows && StoresRows(s', file, rows - {id})
  {
    var c := ContentAt(s, PageKey(file, id.page));
    assert StoresRow(s, file, rows, id);
    PageChangesSlot(s, s', file, id, c, c[id.slot := None], None);
    ErasedHolds(s, s', file, rows, id);
  }

  lemma UpdatedRowHolds(s: State, s': State, file: File, rows: map<RowId, Tuple>, id: RowId, t: Tuple)
    requires StoresRows(s, file, rows) && RepresentableTuple(t)
    requires var c := ContentAt(s, PageKey(file, id.page));
      && id.slot < |c| && c[id.slot].Some?
      && ChangesPage(s, s', PageKey(file, id.page), c[id.slot := Some(EncodeTuple(t))])
    ensures id in rows && StoresRows(s', file, rows[id := t])
  {
    var c := ContentAt(s, PageKey(file, id.page));
    assert StoresRow(s, file, rows, id);
    PageChangesSlot(s, s', file, id, c, c[id.slot := Some(EncodeTuple(t))], Some(EncodeTuple(t)));
    StoredHolds(s, s', file, rows, id, t);
  }

  /** A row is live exactly if its slot is. */
  lemma LiveSlot(s: State, file: File, rows: map<RowId, Tuple>, id: RowId)
    requires StoresRows(s, file, rows)
    ensures id in rows <==> SlotAt(s, file, id).Some?
    ensures id in rows ==> SlotAt(s, file, id) == Some(EncodeTuple(rows[id])) && RepresentableTuple(rows[id])
  {
    assert StoresRow(s, file, rows, id);
  }

  lemma LiveInFile(s: State, file: File, rows: map<RowId, Tuple>, id: RowId)
    requires Ready(s) && StoresRows(s, file, rows) && id in rows
    ensures id.page < PageCount(s.disk, file)
  {
    LiveSlot(s, file, rows, id);
    var key := PageKey(file, id.page);
    assert SoundAt(s, key);
    if key.page >= PageCount(s.disk, file) { NothingBeyond(s, key); }
  }

  lemma Replaced(rows: map<RowId, Tuple>, id: RowId, t: Tuple)
    requires id in rows
    ensures rows[id := t] == (rows - {id})[id := t]
  {
  }

  lemma CreatedHolds(s: State, s': State, file: File, rows: map<RowId, Tuple>)
    requires Ready(s) && StoresRows(s, file, rows) && file !in s.disk
    requires s' == s.(disk := s.disk[file := []])
    ensures Ready(s') && StoresRows(s', file, rows) && SameContents(s, s') && Leaves(s, s', file)
  {
    forall k ensures SoundAt(s', k) && ContentAt(s', k) == ContentAt(s, k) {
      assert SoundAt(s, k);
      assert DiskPage(s'.disk, k) == DiskPage(s.disk, k);
    }
    SameContentsHold(s, s', file, rows);
  }

  lemma NewPageHasRoom(s: State, key: PageKey, row: seq<byte>)
    requires Ready(s) && key.page >= PageCount(s.disk, key.file) && |row| + 22 <= P
    ensures |row| <= 65535 && SpaceNeeded(ContentAt(s, key), row) <= P
  {
    assert SoundAt(s, key);
    NothingBeyond(s, key);
  }

  /** A dirty frame is waiting to become the next page of its file. */
  ghost predicate PageWaiting(s: State, u: State, key: PageKey, c: Content) {
    && SoundPages(u) && DirtyInside(u, Some(key)) && ChangesPage(s, u, key, c) && Leaves(s, u, key.file)
    && key in u.frames && u.frames[key].dirty && u.frames[key].pins == 1
    && (forall k :: k in u.frames && k != key ==> u.frames[k].pins == 0)
    && key.file in u.disk && key.page == PageCount(u.disk, key.file)
  }

  ghost predicate PageAdded(s: State, v: State, key: PageKey, c: Content) {
    && OpenAlone(v, key) && ChangesPage(s, v, key, c) && Leaves(s, v, key.file)
    && key.file in v.disk && PageCount(v.disk, key.file) == key.page + 1
  }

  lemma AddedDirty(s: State, t: State, u: State, key: PageKey, bytes: seq<byte>)
    requires Opened(s, t, key) && Rewrites(t, u, key, bytes, true) && ValidPage(bytes)
    requires key.file in s.disk && key.page == PageCount(s.disk, key.file)
    ensures PageWaiting(s, u, key, ContentOf(bytes))
  {
    RewriteSound(t, u, key, bytes, true);
    RewriteLeaves(t, u, key, bytes, true);
    LeavesBoth(s, t, u, key.file);
    assert PageCount(u.disk, key.file) == PageCount(s.disk, key.file);
    forall k | k != key ensures ContentAt(u, k) == ContentAt(s, k) {
      assert ContentAt(u, k) == ContentAt(t, k) && ContentAt(t, k) == ContentAt(s, k);
    }
  }

  lemma AddedFlushed(s: State, u: State, v: State, key: PageKey, c: Content)
    requires PageWaiting(s, u, key, c)
    requires FlushedPages(u, v, Chosen(u, Some(key.file))) && FlushGrows(u, v, Chosen(u, Some(key.file)))
    ensures PageAdded(s, v, key, c)
  {
    FlushSound(u, v, Chosen(u, Some(key.file)));
    FlushAdded(u, v, Chosen(u, Some(key.file)), key, key.file);
    FlushedKeys(u, v, Chosen(u, Some(key.file)));
    AddedChanges(s, u, v, key, c);
    FlushLeaves(u, v, Chosen(u, Some(key.file)), key.file);
    LeavesBoth(s, u, v, key.file);
  }

  lemma AddedChanges(s: State, v: State, s': State, key: PageKey, c: Content)
    requires ChangesPage(s, v, key, c) && SameContents(v, s')
    ensures ChangesPage(s, s', key, c)
  {
    assert ContentAt(s', key) == ContentAt(v, key);
    forall k | k != key ensures ContentAt(s', k) == ContentAt(s, k) {
      assert ContentAt(s', k) == ContentAt(v, k);
    }
  }

  lemma AccessKeepsOthers(s: State, s': State, key: PageKey, c: Content)
    requires Accesses(s, s', key, c)
    ensures KeepsOthers(s, s', key.file)
  {
  }

  lemma AccessKeeps(s: State, s': State, key: PageKey)
    requires Accesses(s, s', key, ContentAt(s, key))
    ensures SameContents(s, s')
  {
  }

  lemma StoredRowHolds(s: State, s': State, file: File, rows: map<RowId, Tuple>, id: RowId, t: Tuple)
    requires StoresRows(s, file, rows) && RepresentableTuple(t)
    requires var c := ContentAt(s, PageKey(file, id.page));
      id.slot == FirstDead(c) && ChangesPage(s, s', PageKey(file, id.page), Store(c, id.slot, EncodeTuple(t)))
    ensures id !in rows && StoresRows(s', file, rows[id := t])
  {
    var key := PageKey(file, id.page);
    var c := ContentAt(s, key);
    assert StoresRow(s, file, rows, id);
    PageChangesSlot(s, s', file, id, c, Store(c, id.slot, EncodeTuple(t)), Some(EncodeTuple(t)));
    StoredHolds(s, s', file, rows, id, t);
  }
}
