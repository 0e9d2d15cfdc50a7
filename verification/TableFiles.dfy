/** The heap files of all tables behind one buffer pool, as statements and scans use them:
    a statement drops the table's mapping, changes its rows through the pool, and flushes or
    restores the file (src/native_engine.cpp:743-913, 1708-1718, 2472-2489); scans read the mapped
    file (src/native_storage.h:206-255). */
module TableFiles {
  import opened Wrappers
  import opened RowIds
  import opened Bytes
  import opened PageFormat
  import opened BufferPool
  import opened HeapPages
  import opened TupleCodec
  import opened TupleDecoders
  import HeapScan
  import opened HeapFile

  type Rows = map<RowId, Tuple>

  // ------------------------------------------------------- files between statements

  function PagesOf(disk: Disk, file: File): seq<seq<byte>> {
    if file in disk then disk[file] else []
  }

  /** Each table's live slots hold its rows. */
  ghost predicate StoresAll(s: State, tables: map<File, Rows>) {
    forall f :: f in tables ==> StoresRows(s, f, tables[f])
  }

  /** A mapping shows the file as it is on disk. */
  ghost predicate MapsDisk(disk: Disk, mapped: map<File, seq<seq<byte>>>) {
    forall f :: f in mapped ==> mapped[f] == PagesOf(disk, f)
  }

  lemma OthersStored(s: State, s': State, file: File, tables: map<File, Rows>, rows: Rows)
    requires StoresAll(s, tables) && KeepsOthers(s, s', file) && StoresRows(s', file, rows)
    ensures StoresAll(s', tables[file := rows])
  {
    forall f | f in tables && f != file ensures StoresRows(s', f, tables[f]) {
      forall id ensures StoresRow(s', f, tables[f], id) {
        assert StoresRow(s, f, tables[f], id);
        assert ContentAt(s', PageKey(f, id.page)) == ContentAt(s, PageKey(f, id.page));
      }
    }
  }

  lemma AllStoredSame(s: State, s': State, tables: map<File, Rows>)
    requires StoresAll(s, tables) && SameContents(s, s')
    ensures StoresAll(s', tables)
  {
    forall f | f in tables ensures StoresRows(s', f, tables[f]) {
      SameContentsHold(s, s', f, tables[f]);
    }
  }

  lemma OthersMapped(s: State, s': State, file: File, mapped: map<File, seq<seq<byte>>>)
    requires MapsDisk(s.disk, mapped) && OthersOnDisk(s, s', file) && file !in mapped
    ensures MapsDisk(s'.disk, mapped)
  {
    forall f | f in mapped ensures mapped[f] == PagesOf(s'.disk, f) {
      assert SameFile(s, s', f);
    }
  }

  lemma CleanDirtiesOnly(s: State, file: File)
    requires Clean(s)
    ensures OnlyDirties(s, file)
  {
  }

  /** Flushing the one file that has dirty frames leaves the pool clean. */
  lemma FlushCleans(s: State, s': State, file: File, tables: map<File, Rows>)
    requires Ready(s) && OnlyDirties(s, file) && StoresAll(s, tables)
    requires FlushedPages(s, s', Chosen(s, Some(file))) && FlushGrows(s, s', Chosen(s, Some(file)))
    ensures Ready(s') && Clean(s') && SameContents(s, s') && StoresAll(s', tables) && OthersOnDisk(s, s', file)
  {
    FlushSound(s, s', Chosen(s, Some(file)));
    FlushedKeys(s, s', Chosen(s, Some(file)));
    FlushLeaves(s, s', Chosen(s, Some(file)), file);
    AllStoredSame(s, s', tables);
    forall k | k in s'.frames ensures !s'.frames[k].dirty && s'.frames[k].pins == 0 {
      assert k in s.frames;
    }
  }

  /** Writing nothing back when nothing is dirty. */
  lemma FlushNothing(s: State, s': State, file: File)
    requires Clean(s) && FlushedPages(s, s', Chosen(s, Some(file))) && FlushGrows(s, s', Chosen(s, Some(file)))
    ensures SameFile(s, s', file)
  {
    assert GrowsAt(s, s', Chosen(s, Some(file)), file);
    FileUntouched(s, s', Chosen(s, Some(file)), file);
  }

  // ------------------------------------------------------------- whole directories

  /** Files as a directory holds them, without any page in memory. */
  ghost predicate DiskHolds(files: Disk, tables: map<File, Rows>) {
    Ready(State(map[], [], files)) && StoresAll(State(map[], [], files), tables)
  }

  /** Between statements the directory holds every table. */
  lemma CleanHolds(s: State, tables: map<File, Rows>)
    requires Ready(s) && Clean(s) && StoresAll(s, tables)
    ensures DiskHolds(s.disk, tables)
  {
    var e := State(map[], [], s.disk);
    forall k ensures SoundAt(e, k) && ContentAt(e, k) == ContentAt(s, k) {
      assert SoundAt(s, k);
      MappedPage(s, k);
    }
    AllStoredSame(s, e, tables);
  }

  /** Flushing writes nothing when nothing is dirty. */
  lemma FlushIdle(s: State, s': State)
    requires Ready(s) && Clean(s) && FlushedPages(s, s', Chosen(s, None)) && FlushGrows(s, s', Chosen(s, None))
    ensures s'.disk == s.disk && Ready(s') && Clean(s') && SameContents(s, s')
  {
    FlushSound(s, s', Chosen(s, None));
    FlushedKeys(s, s', Chosen(s, None));
    forall f ensures SameFile(s, s', f) {
      assert GrowsAt(s, s', Chosen(s, None), f);
      FileUntouched(s, s', Chosen(s, None), f);
    }
    forall f ensures f in s'.disk <==> f in s.disk { assert SameFile(s, s', f); }
    forall f | f in s.disk ensures s'.disk[f] == s.disk[f] { assert SameFile(s, s', f); }
    forall k | k in s'.frames ensures !s'.frames[k].dirty && s'.frames[k].pins == 0 {
      assert k in s.frames;
    }
  }

  // -------------------------------------------------------------------- rollback

  function FileImage(disk: Disk, file: File): Option<seq<seq<byte>>> {
    if file in disk then Some(disk[file]) else None
  }

  lemma RestoredPage(s: State, u: State, v: State, file: File, k: PageKey)
    requires SoundAt(s, k) && SoundAt(u, k) && Clean(s) && KeepsOthers(s, u, file) && OnlyDirties(u, file)
    requires (k in v.frames <==> k in u.frames && k.file != file) && (k in v.frames ==> v.frames[k] == u.frames[k])
    requires v.disk == WithFile(u.disk, file, FileImage(s.disk, file))
    ensures SoundAt(v, k) && ContentAt(v, k) == ContentAt(s, k)
    ensures k in v.frames ==> !v.frames[k].dirty
  {
    if k.file == file {
      assert DiskPage(v.disk, k) == DiskPage(s.disk, k);
      MappedPage(s, k);
    } else {
      assert DiskPage(v.disk, k) == DiskPage(u.disk, k);
      assert ContentAt(u, k) == ContentAt(s, k);
    }
  }

  /** In a clean pool the disk page has the slots that a reader sees. */
  lemma MappedPage(s: State, key: PageKey)
    requires SoundAt(s, key) && Clean(s)
    ensures ValidPage(DiskPage(s.disk, key)) && ContentOf(DiskPage(s.disk, key)) == ContentAt(s, key)
  {
    MappedAgrees(s, key);
  }

  /** Writing the old bytes back and forgetting the file's frames gives every page back. */
  lemma Restored(s: State, u: State, t: State, v: State, file: File)
    requires Ready(s) && Clean(s) && Ready(u) && KeepsOthers(s, u, file)
    requires Dropped(u, t, file)
    requires v == t.(disk := WithFile(t.disk, file, FileImage(s.disk, file)))
    ensures Ready(v) && Clean(v) && SameContents(s, v) && OthersOnDisk(s, v, file) && SameFile(s, v, file)
  {
    CleanDirtiesOnly(s, file);
    forall k ensures SoundAt(v, k) && ContentAt(v, k) == ContentAt(s, k) && (k in v.frames ==> !v.frames[k].dirty) {
      assert SoundAt(s, k) && SoundAt(u, k);
      RestoredPage(s, u, v, file, k);
    }
    forall f | f != file ensures SameFile(s, v, f) {
      assert SameFile(s, u, f);
    }
  }

  // ------------------------------------------------------------------- statements

  /** What a statement does to the rows of its table. */
  datatype Operation = Put(tuple: Tuple) | Remove(id: RowId) | Replace(id: RowId, tuple: Tuple)

  predicate Storable(ops: seq<Operation>) {
    forall i, j :: 0 <= i < |ops| && !ops[i].Remove? && 0 <= j < |ops[i].tuple| ==> Representable(ops[i].tuple[j])
  }

  /** A tuple that some page has room for. */
  predicate Fits(t: Tuple) {
    |t| <= 65535 && |EncodeTuple(t)| + 22 <= P
  }

  predicate Doable(rows: Rows, op: Operation) {
    match op
    case Put(t) => Fits(t)
    case Remove(_) => true
    case Replace(id, t) => Fits(t) && id in rows
  }

  /** A new row is at a free place; a replaced one stays or goes to a free place. */
  predicate Effect(rows: Rows, op: Operation, id: RowId, after: Rows) {
    match op
    case Put(t) => id !in rows && after == rows[id := t]
    case Remove(x) => id == x && after == rows - {x}
    case Replace(x, t) => x in rows && id !in rows - {x} && after == (rows - {x})[id := t]
  }

  ghost predicate Applied(rows: Rows, ops: seq<Operation>, ids: seq<RowId>, after: Rows)
    decreases |ops|, 1
  {
    |ids| == |ops|
    && if ops == [] then after == rows
       else exists mid :: AppliedBefore(rows, ops, ids, mid) && Effect(mid, ops[|ops| - 1], ids[|ops| - 1], after)
  }

  ghost predicate AppliedBefore(rows: Rows, ops: seq<Operation>, ids: seq<RowId>, mid: Rows)
    requires ops != [] && |ids| == |ops|
    decreases |ops|, 0
  {
    Applied(rows, ops[..|ops| - 1], ids[..|ops| - 1], mid)
  }

  /** Some operation cannot be done when its turn comes. */
  ghost predicate Stuck(rows: Rows, ops: seq<Operation>) {
    exists k: nat, ids, mid :: k < |ops| && StuckAt(rows, ops, k, ids, mid)
  }

  ghost predicate StuckAt(rows: Rows, ops: seq<Operation>, k: nat, ids: seq<RowId>, mid: Rows)
    requires k < |ops|
  {
    Applied(rows, ops[..k], ids, mid) && !Doable(mid, ops[k])
  }

  lemma AppliedOneMore(rows: Rows, ops: seq<Operation>, k: nat, ids: seq<RowId>, mid: Rows, id: RowId, after: Rows)
    requires k < |ops| && Applied(rows, ops[..k], ids, mid) && Effect(mid, ops[k], id, after)
    ensures Applied(rows, ops[..k + 1], ids + [id], after)
  {
    var next := ops[..k + 1];
    assert next[..k] == ops[..k] && (ids + [id])[..k] == ids;
    assert AppliedBefore(rows, next, ids + [id], mid);
  }

  method ApplyOne(heap: HeapFile, op: Operation) returns (r: Result<RowId, HeapError>)
    requires heap.Valid() && Storable([op])
    modifies heap, heap.pool
    ensures heap.Valid() && KeepsOthers(old(heap.pool.Now()), heap.pool.Now(), heap.path)
    ensures r.Ok? <==> Doable(old(heap.rows), op)
    ensures r.Ok? ==> Effect(old(heap.rows), op, r.value, heap.rows)
  {
    assert [op][0] == op;
    match op
    case Put(t) => r := heap.Insert(t);
    case Remove(id) =>
      var erased := heap.Erase(id);
      r := Ok(id);
    case Replace(id, t) =>
      ReplacedPlace(heap.rows, id);
      r := heap.Update(id, t);
  }

  lemma ReplacedPlace(rows: Rows, id: RowId)
    ensures forall x :: x == id || x !in rows ==> x !in rows - {id}
  {
  }

  method ApplyAll(heap: HeapFile, ops: seq<Operation>) returns (r: Result<seq<RowId>, HeapError>)
    requires heap.Valid() && Storable(ops)
    modifies heap, heap.pool
    ensures heap.Valid() && KeepsOthers(old(heap.pool.Now()), heap.pool.Now(), heap.path)
    ensures r.Ok? ==> Applied(old(heap.rows), ops, r.value, heap.rows)
    ensures r.Err? ==> Stuck(old(heap.rows), ops)
  {
    ghost var s, rows := heap.pool.Now(), heap.rows;
    var ids: seq<RowId> := [];
    KeptSame(s, heap.path);
    for k := 0 to |ops|
      invariant heap.Valid() && KeepsOthers(s, heap.pool.Now(), heap.path)
      invariant Applied(rows, ops[..k], ids, heap.rows)
    {
      ghost var t, mid := heap.pool.Now(), heap.rows;
      var done := ApplyOne(heap, ops[k]);
      KeptBoth(s, t, heap.pool.Now(), heap.path);
      if done.Err? {
        assert StuckAt(rows, ops, k, ids, mid);
        return Err(done.error);
      }
      AppliedOneMore(rows, ops, k, ids, mid, done.value, heap.rows);
      ids := ids + [done.value];
    }
    assert ops[..|ops|] == ops;
    return Ok(ids);
  }

  class TableFiles {
    const pool: BufferPool
    var mapped: map<File, seq<seq<byte>>>
    ghost var tables: map<File, Rows>

    /** Between statements no frame is dirty and every mapping shows what is on disk. */
    ghost predicate Valid()
      reads this, pool
    {
      && pool.Valid() && Ready(pool.Now()) && Clean(pool.Now())
      && StoresAll(pool.Now(), tables) && MapsDisk(pool.disk, mapped)
    }

    constructor (pool: BufferPool, ghost tables: map<File, Rows>)
      requires pool.Valid() && Ready(pool.Now()) && Clean(pool.Now()) && StoresAll(pool.Now(), tables)
      ensures Valid() && this.pool == pool && this.tables == tables
    {
      this.pool, this.tables, mapped := pool, tables, map[];
    }

    /** An INSERT, DELETE or UPDATE as far as files are concerned. Its mapping is dropped before
        and after; the log gets the file as it was, and no other file is written; it ends with a
        clean pool, and when an operation or a check after the operations (`keep`) fails, with
        the file as it was. */
    method Change(file: File, ops: seq<Operation>, keep: bool) returns (r: Result<seq<RowId>, HeapError>, ghost logged: Option<seq<seq<byte>>>)
      requires Valid() && file in tables && Storable(ops)
      modifies this, pool
      ensures Valid() && file !in mapped
      ensures logged == FileImage(old(pool.disk), file) && OthersOnDisk(old(pool.Now()), pool.Now(), file)
      ensures r.Ok? && keep ==> file in tables && tables == old(tables)[file := tables[file]]
      ensures r.Ok? && keep ==> Applied(old(tables)[file], ops, r.value, tables[file])
      ensures r.Err? || !keep ==> tables == old(tables) && FileImage(pool.disk, file) == logged
      ensures r.Err? ==> Stuck(old(tables)[file], ops)
    {
      ghost var s := pool.Now();
      var before := Begin(file);
      logged := before;
      ghost var t := pool.Now();
      assert StoresRows(t, file, tables[file]);
      var heap := new HeapFile(file, pool, tables[file]);
      r := ApplyAll(heap, ops);
      if r.Err? || !keep {
        Restore(file, before, t);
      } else {
        Finish(file, heap.rows, t);
      }
      FilesThrough(s, t, pool.Now(), file);
    }

    method Begin(file: File) returns (before: Option<seq<seq<byte>>>)
      requires Valid() && file in tables
      modifies this`mapped, pool`frames, pool`disk
      ensures Valid() && file !in mapped && before == FileImage(pool.disk, file) == FileImage(old(pool.disk), file)
      ensures OthersOnDisk(old(pool.Now()), pool.Now(), file)
    {
      ghost var s := pool.Now();
      mapped := mapped - {file};
      CleanDirtiesOnly(s, file);
      pool.FlushFile(file);
      FlushCleans(s, pool.Now(), file, tables);
      FlushNothing(s, pool.Now(), file);
      OthersMapped(s, pool.Now(), file, mapped);
      before := FileImage(pool.disk, file);
    }

    method Finish(file: File, ghost rows: Rows, ghost t: State)
      requires pool.Valid() && Ready(pool.Now()) && Clean(t) && StoresAll(t, tables) && MapsDisk(t.disk, mapped) && file !in mapped
      requires KeepsOthers(t, pool.Now(), file) && StoresRows(pool.Now(), file, rows) && file in tables
      modifies this`tables, pool`frames, pool`disk
      ensures Valid() && tables == old(tables)[file := rows] && OthersOnDisk(t, pool.Now(), file)
    {
      ghost var u := pool.Now();
      CleanDirtiesOnly(t, file);
      OthersStored(t, u, file, tables, rows);
      tables := tables[file := rows];
      pool.FlushFile(file);
      FlushCleans(u, pool.Now(), file, tables);
      FilesThrough(t, u, pool.Now(), file);
      OthersMapped(t, pool.Now(), file, mapped);
    }

    /** Forgets the file's frames and writes the old bytes back. */
    method Restore(file: File, before: Option<seq<seq<byte>>>, ghost t: State)
      requires pool.Valid() && Ready(pool.Now()) && Ready(t) && Clean(t) && StoresAll(t, tables) && MapsDisk(t.disk, mapped)
      requires KeepsOthers(t, pool.Now(), file) && before == FileImage(t.disk, file) && file !in mapped
      modifies this`mapped, pool
      ensures Valid() && file !in mapped && OthersOnDisk(t, pool.Now(), file) && FileImage(pool.disk, file) == before
    {
      ghost var u := pool.Now();
      mapped := map[];
      var ok := pool.InvalidateFile(file);
      ghost var d := pool.Now();
      pool.WriteFile(file, before);
      Restored(t, u, d, pool.Now(), file);
      AllStoredSame(t, pool.Now(), tables);
    }

    /** CREATE TABLE: an empty file. */
    method Create(file: File)
      requires Valid() && file !in tables && Absent(pool.Now(), file)
      modifies this, pool
      ensures Valid() && tables == old(tables)[file := map[]] && file in pool.disk && file !in mapped
    {
      ghost var s := pool.Now();
      AbsentIsEmpty(s, file);
      var heap := new HeapFile(file, pool, map[]);
      heap.Create();
      CreatedClean(s, pool.Now(), file, tables);
      mapped := mapped - {file};
      tables := tables[file := map[]];
      OthersMapped(s, pool.Now(), file, mapped);
    }

    /** DROP TABLE: its frames, its file and its mapping go. */
    method Drop(file: File)
      requires Valid() && file in tables
      modifies this, pool
      ensures Valid() && tables == old(tables) - {file} && Absent(pool.Now(), file) && file !in mapped
    {
      var backup := Begin(file);
      ghost var t := pool.Now();
      var ok := pool.InvalidateFile(file);
      pool.WriteFile(file, None);
      DroppedClean(t, pool.Now(), file, tables);
      OthersMapped(t, pool.Now(), file, mapped);
      tables := tables - {file};
    }

    /** BEGIN: flushes, and keeps every file's bytes. */
    method Snapshot() returns (files: Disk)
      requires Valid()
      modifies pool`frames, pool`disk
      ensures Valid() && files == pool.disk == old(pool.disk) && DiskHolds(files, tables)
    {
      ghost var s := pool.Now();
      pool.FlushAll();
      FlushIdle(s, pool.Now());
      AllStoredSame(s, pool.Now(), tables);
      CleanHolds(pool.Now(), tables);
      files := pool.disk;
    }

    /** ROLLBACK: forgets all pages and mappings and writes the directory back. */
    method RestoreAll(files: Disk, ghost held: map<File, Rows>)
      requires Valid() && DiskHolds(files, held)
      modifies this, pool
      ensures Valid() && pool.disk == files && tables == held && mapped == map[]
    {
      var ok := pool.DiscardAll();
      assert ok;
      mapped := map[];
      pool.ReplaceFiles(files);
      tables := held;
    }

    // ------------------------------------------------------------- mapped reads

    /** The mapping made by the first scan after a change; an empty or missing file has none. */
    method EnsureMapped(file: File) returns (pages: seq<seq<byte>>)
      requires Valid()
      modifies this`mapped
      ensures Valid() && file in mapped && pages == mapped[file] == PagesOf(pool.disk, file)
    {
      if file in mapped { return mapped[file]; }
      pages := PagesOf(pool.disk, file);
      mapped := mapped[file := pages];
    }

    /** Every row once, in heap order: off the mapped file, or through the pool without one. */
    method ScanMapped(file: File) returns (list: seq<HeapScan.StoredRow>)
      requires Valid() && file in tables
      modifies this`mapped, pool
      ensures Valid() && tables == old(tables) && Listing(list, tables[file])
    {
      var pages := EnsureMapped(file);
      if pages == [] {
        list := ScanPooled(file, 1);
      } else {
        list := RowsOfPages(pages, pool.Now(), file, tables);
      }
    }

    /** The same rows through the pool. */
    method ScanPooled(file: File, size: nat) returns (list: seq<HeapScan.StoredRow>)
      requires Valid() && file in tables && size > 0
      modifies pool
      ensures Valid() && Listing(list, tables[file]) && pool.disk == old(pool.disk)
    {
      ghost var s := pool.Now();
      assert StoresRows(s, file, tables[file]);
      var heap := new HeapFile(file, pool, tables[file]);
      var batches, all := heap.ScanBatches(size);
      list := HeapScan.Concat(batches);
      CleanDirtiesOnly(s, file);
      ReadLeavesClean(s, pool.Now(), file, tables, mapped);
    }

    /** The same, decoding only these columns. */
    method ReadMappedColumns(file: File, id: RowId, columns: seq<nat>) returns (fields: Option<Tuple>)
      requires Valid() && file in tables && SortedUnique(columns)
      requires id in tables[file] ==> forall i :: 0 <= i < |columns| ==> columns[i] < |tables[file][id]|
      modifies this`mapped
      ensures Valid() && tables == old(tables)
      ensures fields == if id in tables[file] then Some(Project(tables[file][id], columns)) else None
    {
      var pages := EnsureMapped(file);
      fields := ColumnsOfPages(pages, pool.Now(), file, tables, id, columns);
    }

    /** One row off the mapped file; none if the page or the row is not there. */
    method ReadMapped(file: File, id: RowId) returns (tuple: Option<Tuple>)
      requires Valid() && file in tables
      modifies this`mapped
      ensures Valid() && tables == old(tables)
      ensures tuple == if id in tables[file] then Some(tables[file][id]) else None
    {
      var pages := EnsureMapped(file);
      ghost var s := pool.Now();
      assert StoresRows(s, file, tables[file]);
      LiveSlot(s, file, tables[file], id);
      if id in tables[file] { LiveInFile(s, file, tables[file], id); }
      if id.page >= |pages| { return None; }
      assert SoundAt(s, PageKey(file, id.page));
      MappedPage(s, PageKey(file, id.page));
      var bytes := ReadInPage(pages[id.page], id.slot);
      if bytes.None? { return None; }
      RoundTrip(tables[file][id]);
      var decoded := DecodeWhole(bytes.value);
      return Some(decoded.value);
    }
  }

  method ColumnsOfPages(pages: seq<seq<byte>>, ghost s: State, ghost file: File, ghost tables: map<File, Rows>, id: RowId,
                        columns: seq<nat>)
    returns (fields: Option<Tuple>)
    requires Ready(s) && Clean(s) && StoresAll(s, tables) && file in tables && pages == PagesOf(s.disk, file) && SortedUnique(columns)
    requires id in tables[file] ==> forall i :: 0 <= i < |columns| ==> columns[i] < |tables[file][id]|
    ensures fields == if id in tables[file] then Some(Project(tables[file][id], columns)) else None
  {
    assert StoresRows(s, file, tables[file]);
    if id in tables[file] { LiveInFile(s, file, tables[file], id); }
    if id.page >= |pages| { return None; }
    MappedStores(s, file, tables, id.page);
    ghost var c := ContentOf(pages[id.page]);
    assert HeapScan.PageStoresSlot(c, tables[file], id.page, id.slot);
    var bytes := ReadInPage(pages[id.page], id.slot);
    if bytes.None? { return None; }
    var decoded := DecodeStored(bytes.value, columns, c, tables[file], id.page, id.slot);
    return Some(decoded);
  }

  method RowsOfPages(pages: seq<seq<byte>>, ghost s: State, ghost file: File, ghost tables: map<File, Rows>)
    returns (list: seq<HeapScan.StoredRow>)
    requires Ready(s) && Clean(s) && StoresAll(s, tables) && file in tables && pages == PagesOf(s.disk, file)
    ensures Listing(list, tables[file])
  {
    list := [];
    for page := 0 to |pages|
      invariant HeapScan.Lists(list, tables[file], page, 0)
    {
      MappedStores(s, file, tables, page);
      list := ScanPage(pages[page], page, tables[file], list);
    }
    MappedListed(s, file, tables, list, |pages|);
  }

  lemma MappedStores(s: State, file: File, tables: map<File, Rows>, page: nat)
    requires Ready(s) && Clean(s) && StoresAll(s, tables) && file in tables && page < PageCount(s.disk, file)
    ensures var b := s.disk[file][page]; ValidPage(b) && HeapScan.PageStores(ContentOf(b), tables[file], page)
  {
    var key := PageKey(file, page);
    assert SoundAt(s, key) && DiskPage(s.disk, key) == s.disk[file][page];
    MappedPage(s, key);
    assert StoresRows(s, file, tables[file]);
    PageRows(s, file, tables[file], page);
  }

  lemma MappedListed(s: State, file: File, tables: map<File, Rows>, list: seq<HeapScan.StoredRow>, pages: nat)
    requires Ready(s) && StoresAll(s, tables) && file in tables && pages == PageCount(s.disk, file)
    requires HeapScan.Lists(list, tables[file], pages, 0)
    ensures Listing(list, tables[file])
  {
    assert StoresRows(s, file, tables[file]);
    AllListed(s, file, tables[file], list, pages);
  }

  /** Some columns of a stored row, without decoding the others (decodeRawProjectedInto). */
  method DecodeStored(bytes: seq<byte>, columns: seq<nat>, ghost c: Content, ghost rows: Rows, ghost page: nat, ghost slot: nat)
    returns (fields: Tuple)
    requires HeapScan.PageStores(c, rows, page) && slot < |c| && c[slot] == Some(bytes) && SortedUnique(columns)
    requires RowId(page, slot) in rows && forall i :: 0 <= i < |columns| ==> columns[i] < |rows[RowId(page, slot)]|
    ensures fields == Project(rows[RowId(page, slot)], columns)
  {
    HeapScan.ProjectedRow(c, rows, page, slot, columns);
    var decoded := DecodeRawProjected(bytes, columns);
    return decoded.value;
  }

  /** Exactly the rows, in heap order. */
  ghost predicate Listing(list: seq<HeapScan.StoredRow>, rows: Rows) {
    && (exists page :: HeapScan.Lists(list, rows, page, 0))
    && forall id :: id in rows ==> HeapScan.StoredRow(id, rows[id]) in list
  }

  /** A table has one listing: mapped and pooled scans agree row for row. */
  lemma {:induction false} ListingUnique(a: seq<HeapScan.StoredRow>, b: seq<HeapScan.StoredRow>, rows: Rows)
    requires Listing(a, rows) && Listing(b, rows)
    ensures a == b
  {
    SameLength(a, b, rows);
    SameLength(b, a, rows);
    forall i | 0 <= i < |a| ensures a[i] == b[i] {
      SameRank(a, b, rows, i);
    }
  }

  ghost predicate Ascending(list: seq<HeapScan.StoredRow>) {
    forall i, j :: 0 <= i < j < |list| ==> HeapScan.Before(list[i].id, list[j].id.page, list[j].id.slot)
  }

  /** Each element of a is in b, at its own position or later. */
  lemma {:induction false} NotEarlier(a: seq<HeapScan.StoredRow>, b: seq<HeapScan.StoredRow>, i: nat) returns (k: nat)
    requires Ascending(a) && Ascending(b) && i < |a| && forall x :: x in a ==> x in b
    ensures i <= k < |b| && b[k] == a[i]
    decreases i
  {
    assert a[i] in b;
    k :| 0 <= k < |b| && b[k] == a[i];
    if i > 0 {
      var m := NotEarlier(a, b, i - 1);
      assert HeapScan.Before(a[i - 1].id, a[i].id.page, a[i].id.slot);
      if k <= m { NotBack(b, k, m); }
    }
  }

  lemma NotBack(b: seq<HeapScan.StoredRow>, k: nat, m: nat)
    requires Ascending(b) && k <= m < |b|
    ensures !HeapScan.Before(b[m].id, b[k].id.page, b[k].id.slot)
  {
    if k < m { assert HeapScan.Before(b[k].id, b[m].id.page, b[m].id.slot); }
  }

  lemma AscendingApart(a: seq<HeapScan.StoredRow>, i: nat, m: nat)
    requires Ascending(a) && i < m < |a|
    ensures a[i] != a[m]
  {
    assert HeapScan.Before(a[i].id, a[m].id.page, a[m].id.slot);
  }

  lemma ListingSubset(a: seq<HeapScan.StoredRow>, b: seq<HeapScan.StoredRow>, rows: Rows)
    requires Listing(a, rows) && Listing(b, rows)
    ensures Ascending(a) && forall x :: x in a ==> x in b
  {
    var page :| HeapScan.Lists(a, rows, page, 0);
    forall x | x in a ensures x in b {
      var i :| 0 <= i < |a| && a[i] == x;
      assert HeapScan.ListedRow(a[i], rows, page, 0);
      assert HeapScan.StoredRow(x.id, rows[x.id]) in b;
    }
  }

  lemma SameLength(a: seq<HeapScan.StoredRow>, b: seq<HeapScan.StoredRow>, rows: Rows)
    requires Listing(a, rows) && Listing(b, rows)
    ensures |a| <= |b|
  {
    ListingSubset(a, b, rows);
    ListingSubset(b, a, rows);
    if a != [] { var k := NotEarlier(a, b, |a| - 1); }
  }

  lemma SameRank(a: seq<HeapScan.StoredRow>, b: seq<HeapScan.StoredRow>, rows: Rows, i: nat)
    requires Listing(a, rows) && Listing(b, rows) && i < |a| == |b|
    ensures a[i] == b[i]
  {
    ListingSubset(a, b, rows);
    ListingSubset(b, a, rows);
    var k := NotEarlier(a, b, i);
    var m := NotEarlier(b, a, k);
    if i < m { AscendingApart(a, i, m); }
  }

  /** Reading through a clean pool keeps everything between statements. */
  lemma ReadLeavesClean(s: State, s': State, file: File, tables: map<File, Rows>, mapped: map<File, seq<seq<byte>>>)
    requires Clean(s) && StoresAll(s, tables) && MapsDisk(s.disk, mapped) && file in tables
    requires Observes(s, s', file) && StoresRows(s', file, tables[file])
    ensures Clean(s') && s'.disk == s.disk && StoresAll(s', tables) && MapsDisk(s'.disk, mapped)
  {
    OthersStored(s, s', file, tables, tables[file]);
    assert tables[file := tables[file]] == tables;
  }

  method ScanPage(b: seq<byte>, page: nat, ghost rows: Rows, before: seq<HeapScan.StoredRow>) returns (list: seq<HeapScan.StoredRow>)
    requires ValidPage(b) && HeapScan.PageStores(ContentOf(b), rows, page) && HeapScan.Lists(before, rows, page, 0)
    ensures HeapScan.Lists(list, rows, page + 1, 0)
  {
    list := before;
    if !IsPage(b) {
      HeapScan.PageExhausted(list, rows, page, ContentOf(b));
      return;
    }
    ghost var c := ContentOf(b);
    for slot := 0 to Count(b)
      invariant HeapScan.Lists(list, rows, page, slot)
    {
      var bytes := ReadInPage(b, slot);
      assert HeapScan.PageStoresSlot(c, rows, page, slot);
      if bytes.Some? {
        RoundTrip(rows[RowId(page, slot)]);
        var tuple := DecodeWhole(bytes.value);
        HeapScan.ListsNext(list, rows, page, slot, list + [HeapScan.StoredRow(RowId(page, slot), tuple.value)]);
        list := list + [HeapScan.StoredRow(RowId(page, slot), tuple.value)];
      } else {
        HeapScan.ListsNext(list, rows, page, slot, list);
      }
    }
    HeapScan.PageExhausted(list, rows, page, c);
  }

  /** Neither on disk nor in the pool. */
  ghost predicate Absent(s: State, file: File) {
    file !in s.disk && forall k :: k in s.frames ==> k.file != file
  }

  lemma AbsentIsEmpty(s: State, file: File)
    requires Absent(s, file)
    ensures StoresRows(s, file, map[])
  {
    ZeroPageEmpty();
    forall id ensures StoresRow(s, file, map[], id) {
      assert View(s, PageKey(file, id.page)) == ZeroPage();
    }
  }

  lemma CreatedClean(s: State, s': State, file: File, tables: map<File, Rows>)
    requires Clean(s) && StoresAll(s, tables) && s' == s.(disk := s.disk[file := []]) && file !in s.disk
    requires KeepsOthers(s, s', file) && StoresRows(s', file, map[])
    ensures Clean(s') && StoresAll(s', tables[file := map[]]) && OthersOnDisk(s, s', file)
  {
    CleanDirtiesOnly(s, file);
    OthersStored(s, s', file, tables, map[]);
  }

  lemma DroppedClean(s: State, s': State, file: File, tables: map<File, Rows>)
    requires Ready(s) && Clean(s) && StoresAll(s, tables)
    requires s'.disk == s.disk - {file}
    requires (forall k :: k in s'.frames <==> k in s.frames && k.file != file) && forall k :: k in s'.frames ==> s'.frames[k] == s.frames[k]
    ensures Ready(s') && Clean(s') && StoresAll(s', tables - {file}) && Absent(s', file) && OthersOnDisk(s, s', file)
  {
    ZeroPageEmpty();
    forall k ensures SoundAt(s', k) && (k.file != file ==> ContentAt(s', k) == ContentAt(s, k)) {
      assert SoundAt(s, k);
      assert DiskPage(s'.disk, k) == if k.file == file then ZeroPage() else DiskPage(s.disk, k);
    }
    forall f | f in tables && f != file ensures StoresRows(s', f, tables[f]) {
      forall id ensures StoresRow(s', f, tables[f], id) {
        assert StoresRow(s, f, tables[f], id);
        assert ContentAt(s', PageKey(f, id.page)) == ContentAt(s, PageKey(f, id.page));
      }
    }
  }

  lemma FilesThrough(s: State, t: State, u: State, file: File)
    requires OthersOnDisk(s, t, file) && OthersOnDisk(t, u, file)
    ensures OthersOnDisk(s, u, file)
  {
    forall f | f != file ensures SameFile(s, u, f) {
      assert SameFile(s, t, f) && SameFile(t, u, f);
    }
  }
}
