/** Explicit transactions around several statements (src/native_engine.cpp:243-330): BEGIN keeps the
    bytes of every file of the directory, and ROLLBACK writes them back, forgets all pages, mappings
    and caches and loads the catalog file. The database is then what it was at the beginning. */
module Transactions {
  import opened Wrappers
  import opened Tables
  import opened Engine
  import opened TableFiles
  import opened StoredTables
  import BufferPool

  datatype TransactionError = AlreadyActive | NotActive

  method ReadTable(store: TableFiles, path: Name -> string, name: Name, ghost heaps: Heaps) returns (heap: Heap)
    requires store.Valid() && Serves(store.tables, heaps, path) && name in heaps
    modifies store.pool
    ensures store.Valid() && heap == heaps[name] && store.pool.disk == old(store.pool.disk)
  {
    var list := store.ScanPooled(path(name), 1);
    ListingIsHeap(list, store.tables[path(name)]);
    heap := HeapOf(list);
  }

  /** The rows of every table, read off its file. */
  method ReadTables(store: TableFiles, path: Name -> string, names: set<Name>, ghost heaps: Heaps) returns (read: Heaps)
    requires store.Valid() && Serves(store.tables, heaps, path) && names == heaps.Keys
    modifies store.pool
    ensures store.Valid() && read == heaps && store.pool.disk == old(store.pool.disk)
  {
    read := map[];
    var rest := names;
    while rest != {}
      invariant store.Valid() && store.pool.disk == old(store.pool.disk)
      invariant forall n :: n in heaps ==> n in read || n in rest
      invariant forall n :: n in rest ==> n in heaps
      invariant forall n :: n in read ==> n in heaps && read[n] == heaps[n]
      decreases rest
    {
      var name :| name in rest;
      var heap := ReadTable(store, path, name, heaps);
      read := read[name := heap];
      rest := rest - {name};
    }
  }

  // -------------------------------------------------------------------- sessions

  class Session {
    const engine: Engine
    const store: TableFiles
    const path: Name -> string
    const catalogIn: string -> Catalog  // what the engine reads in its catalog file
    var catalogFile: string
    var active: bool
    var savedFiles: BufferPool.Disk
    var savedCatalog: string
    ghost var savedTables: map<string, Rows>
    ghost var savedHeaps: Heaps

    /** The engine's tables are those of the files. */
    ghost predicate Stored()
      reads this, engine, store
    {
      engine.catalog == catalogIn(catalogFile) && Serves(store.tables, engine.heaps, path)
    }

    /** The saved bytes hold the tables as they were. */
    ghost predicate Held()
      reads this
    {
      && DiskHolds(savedFiles, savedTables) && Serves(savedTables, savedHeaps, path)
      && Consistent(catalogIn(savedCatalog), savedHeaps)
    }

    ghost predicate Valid()
      reads this, engine, store, store.pool
    {
      engine.Valid() && store.Valid() && Stored() && (active ==> Held())
    }

    constructor (engine: Engine, store: TableFiles, path: Name -> string, catalogIn: string -> Catalog, catalogFile: string)
      requires engine.Valid() && store.Valid() && engine.catalog == catalogIn(catalogFile)
      requires Serves(store.tables, engine.heaps, path)
      ensures Valid() && this.engine == engine && this.store == store && !active
      ensures this.path == path && this.catalogIn == catalogIn && this.catalogFile == catalogFile
    {
      this.engine, this.store, this.path, this.catalogIn, this.catalogFile := engine, store, path, catalogIn, catalogFile;
      active, savedFiles, savedCatalog, savedTables, savedHeaps := false, map[], catalogFile, map[], map[];
    }

    method Begin() returns (r: Result<(), TransactionError>)
      requires Valid()
      modifies this, store.pool
      ensures Valid() && active && catalogFile == old(catalogFile) && store.pool.disk == old(store.pool.disk)
      ensures r.Err? <==> old(active)
      ensures r.Ok? ==> savedFiles == store.pool.disk && savedCatalog == catalogFile
      ensures r.Ok? ==> savedHeaps == engine.heaps && savedTables == store.tables
      ensures r.Err? ==> savedFiles == old(savedFiles) && savedCatalog == old(savedCatalog)
                         && savedTables == old(savedTables) && savedHeaps == old(savedHeaps)
    {
      if active { return Err(AlreadyActive); }
      savedFiles := store.Snapshot();
      savedCatalog, active := catalogFile, true;
      savedTables, savedHeaps := store.tables, engine.heaps;
      return Ok(());
    }

    method Commit() returns (r: Result<(), TransactionError>)
      requires Valid()
      modifies this`active
      ensures Valid() && !active
      ensures r.Ok? <==> old(active)
    {
      if !active { return Err(NotActive); }
      active := false;
      return Ok(());
    }

    /** Whatever statements ran since, all they did is undone, in the files and in what the engine
        makes of them. */
    method Rollback() returns (r: Result<(), TransactionError>)
      requires Valid()
      modifies this, engine, store, store.pool
      ensures Valid() && !active
      ensures r.Ok? <==> old(active)
      ensures r.Ok? ==> store.pool.disk == old(savedFiles) && catalogFile == old(savedCatalog) && store.mapped == map[]
      ensures r.Ok? ==> store.tables == old(savedTables) && engine.catalog == catalogIn(catalogFile) && engine.heaps == old(savedHeaps)
      ensures r.Ok? ==> engine.indexes == map[] && engine.ranges == map[]
      ensures r.Err? ==> engine.catalog == old(engine.catalog) && engine.heaps == old(engine.heaps) && store.tables == old(store.tables)
    {
      if !active { return Err(NotActive); }
      active := false;
      store.RestoreAll(savedFiles, savedTables);
      catalogFile := savedCatalog;
      Reload();
      return Ok(());
    }

    /** The engine starts over from the files. */
    method Reload()
      requires store.Valid() && Serves(store.tables, savedHeaps, path) && Consistent(catalogIn(catalogFile), savedHeaps)
      modifies engine, store.pool
      ensures engine.Valid() && store.Valid() && store.pool.disk == old(store.pool.disk)
      ensures engine.catalog == catalogIn(catalogFile) && engine.heaps == savedHeaps
      ensures engine.indexes == map[] && engine.ranges == map[]
    {
      var catalog := catalogIn(catalogFile);
      var heaps := ReadTables(store, path, catalog.Keys, savedHeaps);
      engine.Reload(catalog, heaps);
    }
  }
}
