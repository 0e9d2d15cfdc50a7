/** Why a statement writes only what the log can undo (src/native_engine.cpp:573-597, 738-913): it
    logs its table's file before it changes it, and the pool writes no other file. So whatever
    reaches the disk is a step the write-ahead protocol allows. */
module LoggedChanges {
  import opened Wrappers
  import opened Wal
  import P = WalProtocol
  import B = BufferPool
  import H = HeapPages
  import T = TableFiles

  /** A heap file's bytes. */
  function Joined(pages: seq<Blob>): Blob {
    if pages == [] then [] else Joined(pages[..|pages| - 1]) + pages[|pages| - 1]
  }

  function ContentOf(disk: B.Disk, file: B.File): Option<Blob> {
    if file in disk then Some(Joined(disk[file])) else None
  }

  ghost predicate OnePathEach(path: B.File -> Path) {
    forall f, g :: path(f) == path(g) ==> f == g
  }

  /** The log's view of the directory and the pool's are of the same heap files. */
  ghost predicate SameFiles(path: B.File -> Path, files: Files, disk: B.Disk) {
    forall f :: ShownAs(path(f), files, ContentOf(disk, f))
  }

  predicate ShownAs(p: Path, files: Files, content: Option<Blob>) {
    if content.Some? then p in files && files[p] == content.value else p !in files
  }

  /** Logging the file records it as it is, which is what a rollback gives back. */
  lemma LogsTheFile(path: B.File -> Path, s: P.State<seq<Record>>, disk: B.Disk, file: B.File)
    requires SameFiles(path, s.files, disk) && s.phase.Active?
    ensures P.ImageOf(s.files, path(file))
         == Image(file in disk, if file in disk then Joined(disk[file]) else [])
  {
    assert ShownAs(path(file), s.files, ContentOf(disk, file));
  }

  /** A change of the disk that leaves all other files alone is a step of the protocol once the
      file is logged. */
  lemma ChangeIsAllowed(path: B.File -> Path, s: P.State<seq<Record>>, before: B.State, after: B.State, file: B.File)
    requires OnePathEach(path) && SameFiles(path, s.files, before.disk)
    requires s.phase.Active? && path(file) in s.phase.logged && H.OthersOnDisk(before, after, file)
    ensures var content := ContentOf(after.disk, file);
      var s' := s.(files := P.Put(s.files, path(file), content));
      P.Next(s, P.Write(path(file), content), s') && SameFiles(path, s'.files, after.disk)
  {
    var content := ContentOf(after.disk, file);
    var files := P.Put(s.files, path(file), content);
    forall f ensures ShownAs(path(f), files, ContentOf(after.disk, f)) {
      assert ShownAs(path(f), s.files, ContentOf(before.disk, f));
      if f != file {
        assert H.SameFile(before, after, f) && path(f) != path(file);
      }
    }
  }

  /** A statement on a table: its one logged file is all that the protocol sees it write. */
  method LoggedChange(store: T.TableFiles, file: B.File, ops: seq<T.Operation>, keep: bool, ghost path: B.File -> Path,
                      ghost s: P.State<seq<Record>>)
    returns (ok: bool, ghost s': P.State<seq<Record>>)
    requires store.Valid() && file in store.tables && T.Storable(ops)
    requires OnePathEach(path) && SameFiles(path, s.files, store.pool.disk)
    requires s.phase.Active? && path(file) in s.phase.logged
    modifies store, store.pool
    ensures store.Valid() && SameFiles(path, s'.files, store.pool.disk)
    ensures P.Next(s, P.Write(path(file), ContentOf(store.pool.disk, file)), s')
    ensures !(ok && keep) ==> s'.files == s.files && store.tables == old(store.tables)
  {
    ghost var before := store.pool.Now();
    var r, logged := store.Change(file, ops, keep);
    ChangeIsAllowed(path, s, before, store.pool.Now(), file);
    s' := s.(files := P.Put(s.files, path(file), ContentOf(store.pool.disk, file)));
    ok := r.Ok?;
    if !(ok && keep) { PutSame(path, s.files, before.disk, store.pool.disk, file); }
  }

  lemma PutSame(path: B.File -> Path, files: Files, before: B.Disk, after: B.Disk, file: B.File)
    requires SameFiles(path, files, before) && T.FileImage(after, file) == T.FileImage(before, file)
    ensures P.Put(files, path(file), ContentOf(after, file)) == files
  {
    assert ShownAs(path(file), files, ContentOf(before, file));
  }
}
