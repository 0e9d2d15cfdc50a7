/** The page cache of src/native_storage.cpp:445-608: resident frames in least-recently-used
    order over the pages of the heap files on disk. */
module BufferPool {
  import opened Wrappers
  import opened Bytes
  import opened PageFormat

  type File = string

  datatype PageKey = PageKey(file: File, page: nat)

  datatype Frame = Frame(bytes: seq<byte>, dirty: bool, pins: nat)

  datatype PoolError = NoSuchFile | AllPagesPinned

  /** Heap files hold whole pages. */
  type Disk = map<File, seq<seq<byte>>>

  function ZeroPage(): seq<byte> {
    seq(P, _ => 0)
  }

  // ------------------------------------------------------------------- disk

  function DiskPage(disk: Disk, key: PageKey): seq<byte> {
    if key.file in disk && key.page < |disk[key.file]| then disk[key.file][key.page] else ZeroPage()
  }

  /** Writing past the end leaves zero pages in the gap. */
  function WritePage(disk: Disk, key: PageKey, bytes: seq<byte>): Disk {
    var pages := if key.file in disk then disk[key.file] else [];
    var padded := if key.page < |pages| then pages
                  else pages + seq(key.page + 1 - |pages|, _ => ZeroPage());
    disk[key.file := padded[key.page := bytes]]
  }

  lemma PageWritten(disk: Disk, key: PageKey, bytes: seq<byte>, k: PageKey)
    ensures DiskPage(WritePage(disk, key, bytes), k) == if k == key then bytes else DiskPage(disk, k)
  {
  }

  function WithFile(disk: Disk, file: File, pages: Option<seq<seq<byte>>>): Disk {
    match pages
    case Some(p) => disk[file := p]
    case None => disk - {file}
  }

  // ------------------------------------------------------------------ state

  datatype State = State(frames: map<PageKey, Frame>, lru: seq<PageKey>, disk: Disk)

  /** What a reader of the page sees. */
  function View(s: State, key: PageKey): seq<byte> {
    if key in s.frames then s.frames[key].bytes else DiskPage(s.disk, key)
  }

  /** A frame that was changed without being marked dirty: it is lost when evicted. */
  predicate Stale(s: State, key: PageKey) {
    key in s.frames && !s.frames[key].dirty && s.frames[key].bytes != DiskPage(s.disk, key)
  }

  predicate Pinned(s: State, key: PageKey) {
    key in s.frames && s.frames[key].pins > 0
  }

  /** The list is a permutation of the keys. */
  ghost predicate Lists(lru: seq<PageKey>, keys: set<PageKey>) {
    && (forall i :: 0 <= i < |lru| ==> lru[i] in keys)
    && (forall i, j :: 0 <= i < j < |lru| ==> lru[i] != lru[j])
    && (forall k :: k in keys ==> k in lru)
  }

  ghost predicate Coherent(s: State, capacity: nat) {
    capacity >= 1 && |s.frames| <= capacity && Lists(s.lru, s.frames.Keys)
  }

  lemma RemoveListed(lru: seq<PageKey>, keys: set<PageKey>, n: nat)
    requires Lists(lru, keys) && n < |lru|
    ensures Lists(Without(lru, n), keys - {lru[n]})
  {
    var rest := Without(lru, n);
    forall k | k in keys - {lru[n]} ensures k in rest {
      var i :| 0 <= i < |lru| && lru[i] == k;
      assert rest[if i < n then i else i - 1] == k;
    }
  }

  lemma AddListed(lru: seq<PageKey>, keys: set<PageKey>, key: PageKey)
    requires Lists(lru, keys) && key !in keys
    ensures Lists([key] + lru, keys + {key})
  {
    forall k | k in keys + {key} ensures k in [key] + lru {
      if k != key {
        var i :| 0 <= i < |lru| && lru[i] == k;
        assert ([key] + lru)[i + 1] == k;
      }
    }
  }

  /** No page looks different, except that a stale frame may have gone back to the disk page. */
  ghost predicate KeepsView(s: State, s': State) {
    forall k :: View(s', k) == View(s, k) || (Stale(s, k) && View(s', k) == DiskPage(s.disk, k))
  }

  function PageCount(disk: Disk, file: File): nat {
    if file in disk then |disk[file]| else 0
  }

  /** A file only grows as far as one of its dirty frames, all of them being among these keys. */
  ghost predicate GrowsAt(s: State, s': State, keys: set<PageKey>, file: File) {
    && (file in s.disk ==> file in s'.disk)
    && PageCount(s'.disk, file) >= PageCount(s.disk, file)
    && (PageCount(s'.disk, file) > PageCount(s.disk, file) || (file in s'.disk && file !in s.disk) ==>
         exists k :: k in keys && k in s.frames && s.frames[k].dirty && k.file == file
                     && PageCount(s'.disk, file) == k.page + 1)
  }

  ghost predicate Grows(s: State, s': State, keys: set<PageKey>) {
    forall file :: GrowsAt(s, s', keys, file)
  }

  /** Only dirty frames have been written back. */
  ghost predicate WritesBack(s: State, s': State) {
    && (forall k :: DiskPage(s'.disk, k) == DiskPage(s.disk, k)
         || (k in s.frames && s.frames[k].dirty && DiskPage(s'.disk, k) == s.frames[k].bytes))
    && Grows(s, s', s.frames.Keys)
  }

  function Flushed(s: State, key: PageKey): State
    requires key in s.frames
  {
    if !s.frames[key].dirty then s
    else s.(disk := WritePage(s.disk, key, s.frames[key].bytes),
            frames := s.frames[key := s.frames[key].(dirty := false)])
  }

  function Without<X>(xs: seq<X>, n: nat): seq<X>
    requires n < |xs|
  {
    xs[..n] + xs[n + 1..]
  }

  /** v is the least recently used unpinned frame. */
  ghost predicate IsVictim(s: State, v: nat) {
    && v < |s.lru| && s.lru[v] in s.frames && !Pinned(s, s.lru[v])
    && forall j :: v < j < |s.lru| ==> Pinned(s, s.lru[j])
  }

  function Evicted(s: State, v: nat): State
    requires v < |s.lru| && s.lru[v] in s.frames
  {
    var t := Flushed(s, s.lru[v]);
    t.(frames := t.frames - {s.lru[v]}, lru := Without(s.lru, v))
  }

  lemma FlushKeeps(s: State, key: PageKey)
    requires key in s.frames
    ensures KeepsView(s, Flushed(s, key)) && WritesBack(s, Flushed(s, key))
    ensures forall k :: View(Flushed(s, key), k) == View(s, k)
  {
    forall k ensures DiskPage(Flushed(s, key).disk, k) == DiskPage(s.disk, k)
      || (k == key && s.frames[k].dirty && DiskPage(Flushed(s, key).disk, k) == s.frames[k].bytes)
    {
      PageWritten(s.disk, key, s.frames[key].bytes, k);
    }
  }

  lemma EvictKeeps(s: State, v: nat)
    requires v < |s.lru| && s.lru[v] in s.frames
    ensures KeepsView(s, Evicted(s, v)) && WritesBack(s, Evicted(s, v))
  {
    var key := s.lru[v];
    FlushKeeps(s, key);
    PageWritten(s.disk, key, s.frames[key].bytes, key);
    forall k ensures View(Evicted(s, v), k) == View(s, k) || (Stale(s, k) && View(Evicted(s, v), k) == DiskPage(s.disk, k)) {
      assert View(Flushed(s, key), k) == View(s, k);
    }
  }

  lemma EvictCoherent(s: State, v: nat, capacity: nat)
    requires Coherent(s, capacity) && v < |s.lru|
    ensures Coherent(Evicted(s, v), capacity) && |Evicted(s, v).frames| == |s.frames| - 1
  {
    var key, t := s.lru[v], Evicted(s, v);
    RemoveListed(s.lru, s.frames.Keys, v);
    assert Flushed(s, key).frames.Keys == s.frames.Keys;
    assert t.frames.Keys == s.frames.Keys - {key};
    assert |t.frames.Keys| == |t.frames| && |s.frames.Keys| == |s.frames|;
  }

  /** Frames other than the evicted one are as they were, and no pinned one is gone. */
  ghost predicate KeepsFrames(s: State, s': State) {
    && (forall k :: k in s'.frames ==> k in s.frames && s'.frames[k] == s.frames[k])
    && (forall k :: Pinned(s, k) ==> k in s'.frames)
  }

  /** Either nothing happened or the least recently used unpinned frame is gone. */
  ghost predicate Evicts(s: State, s': State) {
    s' == s || exists v: nat :: IsVictim(s, v) && s' == Evicted(s, v)
  }

  lemma EvictsUnpinned(s: State, s': State)
    requires Evicts(s, s') && s' != s
    ensures exists k :: k in s.frames && !Pinned(s, k)
  {
    var v: nat :| IsVictim(s, v) && s' == Evicted(s, v);
    assert s.lru[v] in s.frames;
  }

  lemma EvictsKeeps(s: State, s': State)
    requires Evicts(s, s')
    ensures KeepsView(s, s') && WritesBack(s, s') && KeepsFrames(s, s')
  {
    if s' != s {
      var v: nat :| IsVictim(s, v) && s' == Evicted(s, v);
      EvictKeeps(s, v);
      EvictKeepsFrames(s, v);
    }
  }

  lemma EvictKeepsFrames(s: State, v: nat)
    requires IsVictim(s, v)
    ensures KeepsFrames(s, Evicted(s, v))
  {
  }

  ghost predicate MovedToFront(lru: seq<PageKey>, lru': seq<PageKey>, key: PageKey) {
    exists i: nat :: i < |lru| && lru[i] == key && lru' == [key] + Without(lru, i)
  }

  lemma ListMovedToFront(lru: seq<PageKey>, keys: set<PageKey>, i: nat)
    requires Lists(lru, keys) && i < |lru|
    ensures Lists([lru[i]] + Without(lru, i), keys)
  {
    RemoveListed(lru, keys, i);
    AddListed(Without(lru, i), keys - {lru[i]}, lru[i]);
    assert keys - {lru[i]} + {lru[i]} == keys;
  }

  /** A page read from disk into a new frame, pinned once. */
  function Loaded(s: State, key: PageKey): State {
    s.(frames := s.frames[key := Frame(DiskPage(s.disk, key), false, 1)], lru := [key] + s.lru)
  }

  lemma LoadKeeps(s: State, t: State, key: PageKey)
    requires KeepsView(s, t) && key !in t.frames
    ensures KeepsView(s, Loaded(t, key))
  {
    forall k ensures View(Loaded(t, key), k) == View(t, k) {
    }
  }

  lemma LoadCoherent(s: State, key: PageKey, capacity: nat)
    requires Coherent(s, capacity) && key !in s.frames && |s.frames| < capacity
    ensures Coherent(Loaded(s, key), capacity)
  {
    AddListed(s.lru, s.frames.Keys, key);
    var t := Loaded(s, key);
    assert t.frames.Keys == s.frames.Keys + {key};
    assert |t.frames.Keys| == |t.frames| && |s.frames.Keys| == |s.frames|;
  }

  /** A call of fetch: on success the page is resident, most recently used and pinned once
      more; no other frame is new or changed, and no pinned one is gone. */
  ghost predicate Fetches(s: State, s': State, key: PageKey, ok: bool) {
    && KeepsView(s, s') && WritesBack(s, s')
    && (forall k :: k in s'.frames && k != key ==> k in s.frames && s'.frames[k] == s.frames[k])
    && (forall k :: Pinned(s, k) ==> k in s'.frames)
    && (if ok then Holding(s, s', key) else key !in s'.frames)
  }

  ghost predicate Holding(s: State, s': State, key: PageKey) {
    && key in s'.frames && s'.lru != [] && s'.lru[0] == key
    && s'.frames[key] == if key in s.frames then s.frames[key].(pins := s.frames[key].pins + 1)
                         else Frame(DiskPage(s.disk, key), false, 1)
  }

  lemma PinFetches(s: State, s': State, key: PageKey)
    requires key in s.frames && s'.lru != [] && s'.lru[0] == key && s'.disk == s.disk
    requires s'.frames == s.frames[key := s.frames[key].(pins := s.frames[key].pins + 1)]
    ensures Fetches(s, s', key, true)
  {
  }

  lemma FetchFails(s: State, s': State, key: PageKey)
    requires Evicts(s, s') && key !in s.frames
    ensures Fetches(s, s', key, false) && (forall file :: file in s.disk ==> file in s'.disk)
  {
    EvictsKeeps(s, s');
  }

  lemma LoadFetches(s: State, t: State, s': State, key: PageKey)
    requires Evicts(s, t) && key !in s.frames && key !in t.frames && s' == Loaded(t, key)
    ensures Fetches(s, s', key, true)
  {
    EvictsKeeps(s, t);
    LoadKeeps(s, t, key);
    assert DiskPage(t.disk, key) == DiskPage(s.disk, key);
  }

  // -------------------------------------------------------------------- class

  class BufferPool {
    const capacity: nat
    var frames: map<PageKey, Frame>
    var lru: seq<PageKey>
    var disk: Disk

    function Now(): State
      reads this
    {
      State(frames, lru, disk)
    }

    ghost predicate Valid()
      reads this
    {
      Coherent(Now(), capacity)
    }

    constructor (capacity: nat, disk: Disk)
      ensures Valid() && frames == map[] && this.disk == disk
      ensures this.capacity == if capacity < 1 then 1 else capacity
    {
      this.capacity := if capacity < 1 then 1 else capacity;
      frames, lru := map[], [];
      this.disk := disk;
    }

    method Flush(key: PageKey)
      requires Valid() && key in frames
      modifies this`frames, this`disk
      ensures Now() == Flushed(old(Now()), key)
      ensures Valid()
    {
      if !frames[key].dirty { return; }
      disk := WritePage(disk, key, frames[key].bytes);
      assert frames[key := frames[key].(dirty := false)].Keys == frames.Keys;
      frames := frames[key := frames[key].(dirty := false)];
    }

    method EvictOne() returns (r: Result<(), PoolError>)
      requires Valid()
      modifies this
      ensures Valid()
      ensures r.Err? <==> forall k :: k in old(frames) ==> Pinned(old(Now()), k)
      ensures r.Err? ==> r.error == AllPagesPinned && Now() == old(Now())
      ensures r.Ok? ==> exists v: nat :: IsVictim(old(Now()), v) && Now() == Evicted(old(Now()), v)
      ensures r.Ok? ==> |frames| == |old(frames)| - 1
    {
      var v := |lru|;
      while v > 0
        invariant 0 <= v <= |lru| && Now() == old(Now())
        invariant forall j :: v <= j < |lru| ==> Pinned(Now(), lru[j])
      {
        v := v - 1;
        if frames[lru[v]].pins == 0 {
          ghost var s := Now();
          var key := lru[v];
          EvictCoherent(s, v, capacity);
          Flush(key);
          lru := Without(lru, v);
          frames := frames - {key};
          assert IsVictim(s, v) && Now() == Evicted(s, v);
          return Ok(());
        }
      }
      return Err(AllPagesPinned);
    }

    method Touch(key: PageKey)
      requires Valid() && key in frames
      modifies this`lru
      ensures Valid() && MovedToFront(old(lru), lru, key)
    {
      ghost var n :| 0 <= n < |lru| && lru[n] == key;
      var i: nat := 0;
      while lru[i] != key
        invariant i <= n
        decreases n - i
      {
        i := i + 1;
      }
      ListMovedToFront(lru, frames.Keys, i);
      lru := [key] + Without(lru, i);
    }

    /** The loop that evicts until a frame is free. */
    method MakeRoom() returns (r: Result<(), PoolError>)
      requires Valid()
      modifies this
      ensures Valid()
      ensures r.Ok? ==> |frames| < capacity && Evicts(old(Now()), Now())
      ensures r.Err? <==> (|old(frames)| >= capacity && forall k :: k in old(frames) ==> Pinned(old(Now()), k))
      ensures r.Err? ==> r.error == AllPagesPinned && Now() == old(Now())
    {
      while |frames| >= capacity
        invariant Valid()
        invariant |frames| >= capacity ==> Now() == old(Now())
        invariant Evicts(old(Now()), Now())
      {
        var e := EvictOne();
        if e.Err? { return Err(e.error); }
      }
      if Now() != old(Now()) { EvictsUnpinned(old(Now()), Now()); }
      return Ok(());
    }

    method Pin(key: PageKey)
      requires Valid() && key in frames
      modifies this
      ensures Valid() && lru != [] && lru[0] == key
      ensures frames == old(frames)[key := old(frames)[key].(pins := old(frames)[key].pins + 1)]
      ensures disk == old(disk)
    {
      frames := frames[key := frames[key].(pins := frames[key].pins + 1)];
      assert frames.Keys == old(frames).Keys;
      assert |frames| == |frames.Keys|;
      Touch(key);
    }

    method Load(key: PageKey, create: bool) returns (r: Result<(), PoolError>)
      requires Valid() && key !in frames
      modifies this
      ensures Valid()
      ensures r == Err(AllPagesPinned) <==>
                (|old(frames)| >= capacity && forall k :: k in old(frames) ==> Pinned(old(Now()), k))
      ensures r == Err(AllPagesPinned) ==> Now() == old(Now())
      ensures r == Err(NoSuchFile) ==> !create && key.file !in disk
      ensures r.Err? ==> Evicts(old(Now()), Now())
      ensures r.Ok? ==> exists t :: Evicts(old(Now()), t) && key !in t.frames && Now() == Loaded(t, key)
    {
      var room := MakeRoom();
      if room.Err? { return Err(room.error); }
      EvictsKeeps(old(Now()), Now());
      ghost var t := Now();
      if key.file !in disk && !create { return Err(NoSuchFile); }
      LoadCoherent(t, key, capacity);
      frames := frames[key := Frame(DiskPage(disk, key), false, 1)];
      lru := [key] + lru;
      return Ok(());
    }

    /** Pins the page, reading it in if it is not resident. */
    method Fetch(key: PageKey, create: bool) returns (r: Result<(), PoolError>)
      requires Valid()
      modifies this
      ensures Valid() && Fetches(old(Now()), Now(), key, r.Ok?)
      ensures r == Err(AllPagesPinned) <==> (key !in old(frames) && |old(frames)| >= capacity
                                             && forall k :: k in old(frames) ==> Pinned(old(Now()), k))
      ensures r == Err(AllPagesPinned) ==> Now() == old(Now())
      ensures r == Err(NoSuchFile) ==> key !in old(frames) && key.file !in old(disk) && !create
    {
      if key in frames {
        Pin(key);
        PinFetches(old(Now()), Now(), key);
        return Ok(());
      }
      r := Load(key, create);
      if r.Ok? {
        ghost var t :| Evicts(old(Now()), t) && key !in t.frames && Now() == Loaded(t, key);
        LoadFetches(old(Now()), t, Now(), key);
      } else {
        FetchFails(old(Now()), Now(), key);
      }
    }

    // ------------------------------------------------------- through a page guard

    method Unpin(key: PageKey) returns (ok: bool)
      requires Valid() && key in frames
      modifies this`frames
      ensures Valid() && ok == (old(frames)[key].pins > 0)
      ensures frames == if ok then old(frames)[key := old(frames)[key].(pins := old(frames)[key].pins - 1)]
                        else old(frames)
    {
      if frames[key].pins == 0 { return false; }
      SameKeys(frames, key, frames[key].(pins := frames[key].pins - 1));
      frames := frames[key := frames[key].(pins := frames[key].pins - 1)];
      return true;
    }

    /** What a holder of the frame's byte array does to it, with or without markDirty. */
    method Modify(key: PageKey, bytes: seq<byte>, markDirty: bool)
      requires Valid() && key in frames
      modifies this`frames
      ensures Valid()
      ensures frames == old(frames)[key := Frame(bytes, old(frames)[key].dirty || markDirty, old(frames)[key].pins)]
    {
      SameKeys(frames, key, Frame(bytes, frames[key].dirty || markDirty, frames[key].pins));
      frames := frames[key := Frame(bytes, frames[key].dirty || markDirty, frames[key].pins)];
    }

    /** An empty heap file appears on disk. */
    method CreateFile(file: File)
      requires Valid() && file !in disk
      modifies this`disk
      ensures Valid() && disk == old(disk)[file := []]
      ensures forall k :: DiskPage(disk, k) == DiskPage(old(disk), k)
    {
      disk := disk[file := []];
    }

    // ------------------------------------------------------------------ flushing

    /** restoreFile: the file gets these bytes, or goes. */
    method WriteFile(file: File, pages: Option<seq<seq<byte>>>)
      requires Valid()
      modifies this`disk
      ensures Valid() && disk == WithFile(old(disk), file, pages)
    {
      disk := WithFile(disk, file, pages);
    }

    /** The directory is emptied and these files are written. */
    method ReplaceFiles(files: Disk)
      requires Valid()
      modifies this`disk
      ensures Valid() && disk == files
    {
      var gone := disk.Keys;
      while gone != {}
        invariant Valid() && disk.Keys == gone
        decreases gone
      {
        var f :| f in gone;
        WriteFile(f, None);
        gone := gone - {f};
      }
      var rest := files.Keys;
      while rest != {}
        invariant Valid() && rest <= files.Keys && disk.Keys == files.Keys - rest
        invariant forall f :: f in disk ==> disk[f] == files[f]
        decreases rest
      {
        var f :| f in rest;
        WriteFile(f, Some(files[f]));
        rest := rest - {f};
      }
    }

    /** Writes back every dirty frame of the chosen pages: those of one file, or all. */
    method FlushPages(only: Option<File>)
      requires Valid()
      modifies this`frames, this`disk
      ensures Valid() && FlushedPages(old(Now()), Now(), Chosen(old(Now()), only))
      ensures FlushGrows(old(Now()), Now(), Chosen(old(Now()), only))
    {
      ghost var s := Now();
      var rest := Chosen(Now(), only);
      ghost var chosen, done := rest, {};
      FlushedNone(s);
      while rest != {}
        invariant Valid() && FlushedPages(s, Now(), done) && FlushGrows(s, Now(), done)
        invariant Splits(chosen, done, rest) && chosen <= s.frames.Keys
        decreases rest
      {
        var key :| key in rest;
        MoveAcross(chosen, done, rest, key);
        FlushNext(key, s, done);
        rest, done := rest - {key}, done + {key};
      }
      assert done == chosen;
    }

    method FlushNext(key: PageKey, ghost s: State, ghost done: set<PageKey>)
      requires Valid() && FlushedPages(s, Now(), done) && FlushGrows(s, Now(), done) && key in s.frames && key !in done
      modifies this`frames, this`disk
      ensures Valid() && FlushedPages(s, Now(), done + {key}) && FlushGrows(s, Now(), done + {key})
    {
      FlushedKeys(s, Now(), done);
      FlushedOneMore(s, Now(), done, key);
      FlushGrowsMore(s, Now(), done, key);
      Flush(key);
    }

    method FlushFile(file: File)
      requires Valid()
      modifies this`frames, this`disk
      ensures Valid() && FlushedPages(old(Now()), Now(), Chosen(old(Now()), Some(file)))
      ensures FlushGrows(old(Now()), Now(), Chosen(old(Now()), Some(file)))
    {
      FlushPages(Some(file));
    }

    /** Afterwards the disk holds what every reader sees, but for stale frames. */
    method FlushAll()
      requires Valid()
      modifies this`frames, this`disk
      ensures Valid()
      ensures FlushedPages(old(Now()), Now(), Chosen(old(Now()), None))
      ensures FlushGrows(old(Now()), Now(), Chosen(old(Now()), None))
      ensures forall k :: View(Now(), k) == View(old(Now()), k)
      ensures forall k :: DiskPage(disk, k) == View(Now(), k) || Stale(old(Now()), k)
      ensures forall k :: k in frames ==> !frames[k].dirty
    {
      ghost var s := Now();
      FlushPages(None);
      FlushedEverything(s, Now(), Chosen(s, None));
    }

    /** Forgets the file's pages, dirty or not; it stops at a pinned one. */
    method InvalidateFile(file: File) returns (ok: bool)
      requires Valid()
      modifies this`frames, this`lru
      ensures Valid()
      ensures ok <==> forall k :: k in old(frames) && k.file == file ==> !Pinned(old(Now()), k)
      ensures ok ==> Dropped(old(Now()), Now(), file)
    {
      ghost var s := Now();
      var rest := set k | k in frames && k.file == file;
      while rest != {}
        invariant Valid() && disk == s.disk && (forall k :: k in rest ==> k in frames && k.file == file)
        invariant forall k :: k in frames ==> k in s.frames && frames[k] == s.frames[k]
        invariant forall k :: k in s.frames && k !in frames ==> k.file == file && !Pinned(s, k)
        invariant forall k :: k in frames && k.file == file ==> k in rest
        decreases rest
      {
        var key :| key in rest;
        if frames[key].pins != 0 { return false; }
        Forget(key);
        rest := rest - {key};
      }
      return true;
    }

    method Forget(key: PageKey)
      requires Valid() && key in frames
      modifies this`frames, this`lru
      ensures Valid() && frames == old(frames) - {key}
    {
      ghost var n :| 0 <= n < |lru| && lru[n] == key;
      var i: nat := 0;
      while lru[i] != key
        invariant i <= n
        decreases n - i
      {
        i := i + 1;
      }
      RemoveListed(lru, frames.Keys, i);
      assert (frames - {key}).Keys == frames.Keys - {key};
      assert |(frames - {key}).Keys| == |frames - {key}| && |frames.Keys| == |frames|;
      frames, lru := frames - {key}, Without(lru, i);
    }

    method DiscardAll() returns (ok: bool)
      requires Valid()
      modifies this
      ensures Valid() && disk == old(disk)
      ensures ok == forall k :: k in old(frames) ==> !Pinned(old(Now()), k)
      ensures if ok then frames == map[] && lru == [] else Now() == old(Now())
    {
      if exists k :: k in frames && frames[k].pins != 0 {
        return false;
      }
      frames, lru := map[], [];
      return true;
    }
  }

  lemma SameKeys(frames: map<PageKey, Frame>, key: PageKey, frame: Frame)
    requires key in frames
    ensures frames[key := frame].Keys == frames.Keys && |frames[key := frame]| == |frames|
  {
    assert frames[key := frame].Keys == frames.Keys;
    assert |frames[key := frame].Keys| == |frames[key := frame]|;
  }

  function Chosen(s: State, only: Option<File>): set<PageKey> {
    set k | k in s.frames && (only == None || Some(k.file) == only) :: k
  }

  /** The file's frames are gone and all others are as they were. */
  ghost predicate Dropped(s: State, s': State, file: File) {
    && s'.disk == s.disk
    && (forall k :: k in s'.frames <==> k in s.frames && k.file != file)
    && (forall k :: k in s'.frames ==> s'.frames[k] == s.frames[k])
  }

  /** The frames of these pages have been written back if dirty, and are clean. */
  ghost predicate FlushedPages(s: State, s': State, keys: set<PageKey>) {
    && s'.lru == s.lru && s'.frames.Keys == s.frames.Keys
    && (forall k :: k in s.frames ==>
         s'.frames[k] == if k in keys then s.frames[k].(dirty := false) else s.frames[k])
    && (forall k :: DiskPage(s'.disk, k) ==
         if k in keys && k in s.frames && s.frames[k].dirty then s.frames[k].bytes else DiskPage(s.disk, k))
  }

  /** The same step seen from the file sizes. */
  ghost predicate FlushGrows(s: State, s': State, keys: set<PageKey>) {
    && (forall k :: k in keys && k in s.frames && s.frames[k].dirty ==> k.page < PageCount(s'.disk, k.file))
    && Grows(s, s', keys)
  }

  lemma WriteGrows(disk: Disk, key: PageKey, bytes: seq<byte>, file: File)
    ensures var disk' := WritePage(disk, key, bytes);
      && (file in disk' <==> file in disk || file == key.file)
      && PageCount(disk', file) == if file == key.file && key.page >= PageCount(disk, file) then key.page + 1
                                   else PageCount(disk, file)
  {
  }

  lemma GrowsOneMore(s: State, t: State, u: State, keys: set<PageKey>, key: PageKey, file: File)
    requires GrowsAt(s, t, keys, file) && key in s.frames && s.frames[key].dirty
    requires u.disk == WritePage(t.disk, key, s.frames[key].bytes)
    ensures GrowsAt(s, u, keys + {key}, file)
  {
    WriteGrows(t.disk, key, s.frames[key].bytes, file);
    if PageCount(t.disk, file) > PageCount(s.disk, file) || (file in t.disk && file !in s.disk) {
      var k :| k in keys && k in s.frames && s.frames[k].dirty && k.file == file
               && PageCount(t.disk, file) == k.page + 1;
      assert k in keys + {key};
    }
    assert key in keys + {key};
  }

  lemma GrowsWider(s: State, t: State, u: State, keys: set<PageKey>, keys': set<PageKey>, file: File)
    requires GrowsAt(s, t, keys, file) && keys <= keys' && u.disk == t.disk
    ensures GrowsAt(s, u, keys', file)
  {
  }

  lemma FlushGrowsMore(s: State, t: State, keys: set<PageKey>, key: PageKey)
    requires FlushedPages(s, t, keys) && FlushGrows(s, t, keys) && key in s.frames && key !in keys
    ensures FlushGrows(s, Flushed(t, key), keys + {key})
  {
    var u := Flushed(t, key);
    FlushedKeys(s, t, keys);
    assert t.frames[key] == s.frames[key];
    forall file ensures GrowsAt(s, u, keys + {key}, file) {
      if s.frames[key].dirty { GrowsOneMore(s, t, u, keys, key, file); }
      else { GrowsWider(s, t, u, keys, keys + {key}, file); }
    }
    forall k | k in keys + {key} && k in s.frames && s.frames[k].dirty
      ensures k.page < PageCount(u.disk, k.file)
    {
      if s.frames[key].dirty { WriteGrows(t.disk, key, s.frames[key].bytes, k.file); }
    }
  }

  /** After flushing every page the disk holds what a reader sees. */
  lemma FlushedEverything(s: State, s': State, keys: set<PageKey>)
    requires FlushedPages(s, s', keys) && forall k :: k in s.frames ==> k in keys
    ensures forall k :: View(s', k) == View(s, k) && (DiskPage(s'.disk, k) == View(s', k) || Stale(s, k))
    ensures forall k :: k in s'.frames ==> !s'.frames[k].dirty
  {
    FlushedKeys(s, s', keys);
  }

  ghost predicate Splits<X(!new)>(all: set<X>, done: set<X>, rest: set<X>) {
    forall x :: (x in all <==> x in done || x in rest) && !(x in done && x in rest)
  }

  lemma MoveAcross<X(!new)>(all: set<X>, done: set<X>, rest: set<X>, x: X)
    requires Splits(all, done, rest) && x in rest
    ensures x in all && x !in done && Splits(all, done + {x}, rest - {x})
  {
  }

  lemma FlushedKeys(s: State, t: State, keys: set<PageKey>)
    requires FlushedPages(s, t, keys)
    ensures forall k :: k in s.frames <==> k in t.frames
  {
    assert forall k :: k in s.frames.Keys <==> k in t.frames.Keys;
  }

  lemma FlushedNone(s: State)
    ensures FlushedPages(s, s, {}) && FlushGrows(s, s, {})
  {
  }

  lemma FlushedOneMore(s: State, t: State, keys: set<PageKey>, key: PageKey)
    requires FlushedPages(s, t, keys) && key in s.frames && key !in keys
    ensures FlushedPages(s, Flushed(t, key), keys + {key})
  {
    var u := Flushed(t, key);
    forall k ensures DiskPage(u.disk, k) ==
      if k in keys + {key} && k in s.frames && s.frames[k].dirty then s.frames[k].bytes else DiskPage(s.disk, k)
    {
      PageWritten(t.disk, key, t.frames[key].bytes, k);
    }
    assert u.frames.Keys == s.frames.Keys;
  }
}
