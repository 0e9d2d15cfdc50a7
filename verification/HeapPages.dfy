/** Heap pages seen through the buffer pool: which changes of the pool keep every page's
    slots, which change one page. A failed insertion compacts a page without marking it dirty,
    so a clean frame agrees with the disk page in its slots, not byte for byte. */
module HeapPages {
  import opened Wrappers
  import opened Bytes
  import opened PageFormat
  import opened BufferPool

  ghost function ContentAt(s: State, key: PageKey): Content {
    ContentOf(View(s, key))
  }

  ghost predicate SoundAt(s: State, key: PageKey) {
    && ValidPage(View(s, key)) && ValidPage(DiskPage(s.disk, key))
    && (key in s.frames && !s.frames[key].dirty ==> ContentOf(s.frames[key].bytes) == ContentOf(DiskPage(s.disk, key)))
  }

  /** Every dirty frame lies inside its file, but for one page being added. */
  ghost predicate DirtyInside(s: State, adding: Option<PageKey>) {
    forall k :: k in s.frames && s.frames[k].dirty && adding != Some(k) ==> k.page < PageCount(s.disk, k.file)
  }

  ghost predicate SoundPages(s: State) {
    forall k :: SoundAt(s, k)
  }

  ghost predicate Unpinned(s: State) {
    forall k :: k in s.frames ==> s.frames[k].pins == 0
  }

  ghost predicate SameContents(s: State, s': State) {
    forall k :: ContentAt(s', k) == ContentAt(s, k)
  }

  ghost predicate SameSizes(s: State, s': State) {
    forall file :: PageCount(s'.disk, file) == PageCount(s.disk, file) && (file in s.disk <==> file in s'.disk)
  }

  lemma ZeroReads(b: seq<byte>)
    requires |b| == P && forall i :: 0 <= i < 4 ==> b[i] == 0
    ensures !IsPage(b)
  {
  }

  lemma ZeroPageEmpty()
    ensures ValidPage(ZeroPage()) && ContentOf(ZeroPage()) == []
  {
    ZeroReads(ZeroPage());
  }

  /** Beyond the end of a file there is nothing. */
  lemma NothingBeyond(s: State, key: PageKey)
    requires SoundAt(s, key) && DirtyInside(s, None) && key.page >= PageCount(s.disk, key.file)
    ensures ContentAt(s, key) == []
  {
    ZeroPageEmpty();
  }

  // ---------------------------------------------------------------- fetching

  lemma FetchSoundAt(s: State, s': State, key: PageKey, ok: bool, k: PageKey)
    requires SoundAt(s, k) && Fetches(s, s', key, ok)
    ensures SoundAt(s', k) && ContentAt(s', k) == ContentAt(s, k)
  {
    assert View(s', k) == View(s, k) || (Stale(s, k) && View(s', k) == DiskPage(s.disk, k));
    assert DiskPage(s'.disk, k) == DiskPage(s.disk, k)
      || (k in s.frames && s.frames[k].dirty && DiskPage(s'.disk, k) == s.frames[k].bytes);
    if k in s'.frames && k != key { assert s'.frames[k] == s.frames[k]; }
  }

  lemma GrowsInside(s: State, s': State, file: File)
    requires GrowsAt(s, s', s.frames.Keys, file) && DirtyInside(s, None)
    ensures PageCount(s'.disk, file) == PageCount(s.disk, file) && (file in s.disk <==> file in s'.disk)
  {
  }

  lemma FetchSound(s: State, s': State, key: PageKey, ok: bool)
    requires SoundPages(s) && DirtyInside(s, None) && Fetches(s, s', key, ok)
    ensures SoundPages(s') && SameContents(s, s') && SameSizes(s, s')
  {
    forall k ensures SoundAt(s', k) && ContentAt(s', k) == ContentAt(s, k) {
      FetchSoundAt(s, s', key, ok, k);
    }
    forall file ensures PageCount(s'.disk, file) == PageCount(s.disk, file) && (file in s.disk <==> file in s'.disk) {
      assert GrowsAt(s, s', s.frames.Keys, file);
      GrowsInside(s, s', file);
    }
  }

  lemma FetchInside(s: State, s': State, key: PageKey, ok: bool)
    requires DirtyInside(s, None) && Fetches(s, s', key, ok) && SameSizes(s, s')
    ensures DirtyInside(s', None)
  {
    forall k | k in s'.frames && s'.frames[k].dirty ensures k.page < PageCount(s'.disk, k.file) {
      if k != key { assert s'.frames[k] == s.frames[k]; }
    }
  }

  // --------------------------------------------------------------- one page

  /** The bytes of one resident page are replaced, and marked dirty or not. */
  ghost predicate Rewrites(s: State, s': State, key: PageKey, bytes: seq<byte>, mark: bool) {
    && key in s.frames && s'.disk == s.disk && s'.lru == s.lru
    && s'.frames == s.frames[key := Frame(bytes, s.frames[key].dirty || mark, s.frames[key].pins)]
  }

  lemma RewriteSound(s: State, s': State, key: PageKey, bytes: seq<byte>, mark: bool)
    requires SoundPages(s) && Rewrites(s, s', key, bytes, mark) && ValidPage(bytes)
    requires !mark ==> ContentOf(bytes) == ContentAt(s, key)
    ensures SoundPages(s') && ContentAt(s', key) == ContentOf(bytes)
    ensures forall k :: k != key ==> ContentAt(s', k) == ContentAt(s, k)
  {
    forall k ensures SoundAt(s', k) && (k != key ==> ContentAt(s', k) == ContentAt(s, k)) {
      assert SoundAt(s, k);
    }
  }

  lemma UnpinSound(s: State, s': State, key: PageKey, pins: nat)
    requires SoundPages(s) && key in s.frames && s'.disk == s.disk
    requires s'.frames == s.frames[key := s.frames[key].(pins := pins)]
    ensures SoundPages(s') && SameContents(s, s')
  {
    forall k ensures SoundAt(s', k) && ContentAt(s', k) == ContentAt(s, k) {
      assert SoundAt(s, k);
    }
  }

  lemma FlushSound(s: State, s': State, keys: set<PageKey>)
    requires SoundPages(s) && FlushedPages(s, s', keys)
    ensures SoundPages(s') && SameContents(s, s')
  {
    FlushedKeys(s, s', keys);
    forall k ensures SoundAt(s', k) && ContentAt(s', k) == ContentAt(s, k) {
      FlushSoundAt(s, s', keys, k);
    }
  }

  lemma FlushSoundAt(s: State, s': State, keys: set<PageKey>, k: PageKey)
    requires SoundAt(s, k) && FlushedPages(s, s', keys) && (k in s.frames <==> k in s'.frames)
    ensures SoundAt(s', k) && ContentAt(s', k) == ContentAt(s, k)
  {
  }

  /** Adding a page to a file and flushing the file. */
  lemma FlushAdded(s: State, s': State, keys: set<PageKey>, key: PageKey, file: File)
    requires FlushedPages(s, s', keys) && FlushGrows(s, s', keys) && DirtyInside(s, Some(key))
    requires key in keys && key in s.frames && s.frames[key].dirty && key.page == PageCount(s.disk, key.file)
    ensures DirtyInside(s', None)
    ensures PageCount(s'.disk, file) == if file == key.file then key.page + 1 else PageCount(s.disk, file)
    ensures file in s.disk ==> file in s'.disk
  {
    FlushedKeys(s, s', keys);
    assert GrowsAt(s, s', keys, file);
    forall k | k in s'.frames && s'.frames[k].dirty ensures k.page < PageCount(s'.disk, k.file) {
      assert GrowsAt(s, s', keys, k.file);
    }
  }

  // ------------------------------------------------------------- other files

  /** Only this file has dirty frames. */
  ghost predicate OnlyDirties(s: State, file: File) {
    forall k :: k in s.frames && s.frames[k].dirty ==> k.file == file
  }

  ghost predicate OthersOnDisk(s: State, s': State, file: File) {
    forall f :: f != file ==> SameFile(s, s', f)
  }

  predicate SameFile(s: State, s': State, f: File) {
    (f in s.disk <==> f in s'.disk) && (f in s.disk ==> s'.disk[f] == s.disk[f])
  }

  /** Work on one file: no other file gets a dirty frame or changes on disk. */
  ghost predicate Leaves(s: State, s': State, file: File) {
    OnlyDirties(s, file) ==> OnlyDirties(s', file) && OthersOnDisk(s, s', file)
  }

  lemma LeavesSame(s: State, s': State, file: File)
    requires s'.disk == s.disk && (OnlyDirties(s, file) ==> OnlyDirties(s', file))
    ensures Leaves(s, s', file)
  {
  }

  lemma LeavesBoth(s: State, t: State, u: State, file: File)
    requires Leaves(s, t, file) && Leaves(t, u, file)
    ensures Leaves(s, u, file)
  {
    if OnlyDirties(s, file) {
      forall f | f != file ensures SameFile(s, u, f) {
        assert SameFile(s, t, f) && SameFile(t, u, f);
      }
    }
  }

  ghost predicate Clean(s: State) {
    forall k :: k in s.frames ==> !s.frames[k].dirty
  }

  /** Nothing is marked dirty, and what was clean has nothing to write. */
  ghost predicate ReadsOnly(s: State, s': State) {
    Clean(s) ==> Clean(s') && s'.disk == s.disk
  }

  lemma FetchReadsOnly(s: State, s': State, key: PageKey, ok: bool)
    requires Fetches(s, s', key, ok)
    ensures ReadsOnly(s, s')
  {
    if Clean(s) {
      forall k | k in s'.frames ensures !s'.frames[k].dirty {
        if k != key { assert s'.frames[k] == s.frames[k]; }
      }
      forall f ensures SameFile(s, s', f) {
        assert GrowsAt(s, s', s.frames.Keys, f);
        FileUntouched(s, s', s.frames.Keys, f);
      }
      forall f ensures f in s'.disk <==> f in s.disk { assert SameFile(s, s', f); }
      forall f | f in s.disk ensures s'.disk[f] == s.disk[f] { assert SameFile(s, s', f); }
    }
  }

  /** Other files keep their rows, and what they have on disk. */
  ghost predicate KeepsOthers(s: State, s': State, file: File) {
    && (forall k: PageKey :: k.file != file ==> ContentAt(s', k) == ContentAt(s, k))
    && Leaves(s, s', file)
  }

  lemma KeptBoth(s: State, t: State, u: State, file: File)
    requires KeepsOthers(s, t, file) && KeepsOthers(t, u, file)
    ensures KeepsOthers(s, u, file)
  {
    LeavesBoth(s, t, u, file);
    forall k: PageKey | k.file != file ensures ContentAt(u, k) == ContentAt(s, k) {
      assert ContentAt(u, k) == ContentAt(t, k);
    }
  }

  lemma KeptSame(s: State, file: File)
    ensures KeepsOthers(s, s, file)
  {
    LeavesSame(s, s, file);
  }

  /** Reading one file. */
  ghost predicate Observes(s: State, s': State, file: File) {
    KeepsOthers(s, s', file) && ReadsOnly(s, s')
  }

  lemma ObservesBoth(s: State, t: State, u: State, file: File)
    requires Observes(s, t, file) && Observes(t, u, file)
    ensures Observes(s, u, file)
  {
    KeptBoth(s, t, u, file);
  }

  lemma ObservesSame(s: State, file: File)
    ensures Observes(s, s, file)
  {
    KeptSame(s, file);
  }

  /** A file none of whose pages was written and that did not grow. */
  lemma FileUntouched(s: State, s': State, keys: set<PageKey>, f: File)
    requires GrowsAt(s, s', keys, f) && forall k :: k in s.frames && s.frames[k].dirty ==> k.file != f
    requires forall page: nat :: DiskPage(s'.disk, PageKey(f, page)) == DiskPage(s.disk, PageKey(f, page))
    ensures SameFile(s, s', f)
  {
    if f in s.disk {
      assert |s'.disk[f]| == |s.disk[f]|;
      forall i | 0 <= i < |s.disk[f]| ensures s'.disk[f][i] == s.disk[f][i] {
        assert DiskPage(s'.disk, PageKey(f, i)) == DiskPage(s.disk, PageKey(f, i));
      }
    }
  }

  lemma FetchLeaves(s: State, s': State, key: PageKey, ok: bool, file: File)
    requires Fetches(s, s', key, ok)
    ensures Leaves(s, s', file)
  {
    if OnlyDirties(s, file) {
      forall k | k in s'.frames && s'.frames[k].dirty ensures k.file == file {
        if k != key { assert s'.frames[k] == s.frames[k]; }
      }
      forall f | f != file ensures SameFile(s, s', f) {
        assert GrowsAt(s, s', s.frames.Keys, f);
        FileUntouched(s, s', s.frames.Keys, f);
      }
    }
  }

  lemma FlushLeaves(s: State, s': State, keys: set<PageKey>, file: File)
    requires FlushedPages(s, s', keys) && FlushGrows(s, s', keys)
    ensures Leaves(s, s', file)
  {
    FlushedKeys(s, s', keys);
    if OnlyDirties(s, file) {
      forall k | k in s'.frames && s'.frames[k].dirty ensures k.file == file {
        assert s.frames[k].dirty;
      }
      forall f | f != file ensures SameFile(s, s', f) {
        assert GrowsAt(s, s', keys, f);
        FileUntouched(s, s', keys, f);
      }
    }
  }

  lemma RewriteLeaves(s: State, s': State, key: PageKey, bytes: seq<byte>, mark: bool)
    requires Rewrites(s, s', key, bytes, mark)
    ensures Leaves(s, s', key.file)
  {
    LeavesSame(s, s', key.file);
  }

  /** Without dirty frames the file on disk reads slot for slot like the pool, although a page
      compacted in vain may differ in its bytes: scans of the mapped file see the same rows. */
  lemma MappedAgrees(s: State, key: PageKey)
    requires SoundAt(s, key) && (key in s.frames ==> !s.frames[key].dirty)
    ensures ContentOf(DiskPage(s.disk, key)) == ContentAt(s, key)
    ensures key.page >= PageCount(s.disk, key.file) ==> ContentAt(s, key) == []
  {
    ZeroPageEmpty();
  }
}
