/** What the engine reads in its catalog file (src/metadata.cpp:673-892, as reloaded by
    src/native_engine.cpp:310): the schemas of the tables it saved there. */
module CatalogFiles {
  import opened Wrappers
  import opened Tables
  import opened CatalogJson
  import opened JsonShapes
  import Catalogs

  // --------------------------------------------------------------------- names

  /** Names as numbers, one each. */
  function Code(s: string): nat {
    if s == [] then 0 else Code(s[..|s| - 1]) * 0x110000 + s[|s| - 1] as nat + 1
  }

  lemma {:induction false} CodeOnce(s: string, t: string)
    requires Code(s) == Code(t)
    ensures s == t
  {
    if s != [] && t != [] {
      var a, b := s[|s| - 1] as nat, t[|t| - 1] as nat;
      Digits(Code(s[..|s| - 1]), a, Code(t[..|t| - 1]), b);
      CodeOnce(s[..|s| - 1], t[..|t| - 1]);
      assert s == s[..|s| - 1] + [s[|s| - 1]] && t == t[..|t| - 1] + [t[|t| - 1]];
    }
  }

  lemma Digits(x: nat, a: nat, y: nat, b: nat)
    requires x * 0x110000 + a == y * 0x110000 + b && a < 0x110000 && b < 0x110000
    ensures x == y && a == b
  {
  }

  function NameOf(s: string): Name {
    Name(Code(s))
  }

  // ------------------------------------------------------------------- schemas

  /** How the engine tells a declared type. */
  const TypeOf: string -> ColumnType

  function ColumnOf(c: ColumnMeta): Column {
    Column(NameOf(c.name), TypeOf(c.ctype), c.primaryKey, c.notNull,
           if c.fkTable == "" then None else Some(Reference(NameOf(c.fkTable), NameOf(c.fkColumn))))
  }

  function SchemaOf(t: TableMeta): Table {
    seq(|t.columns|, i requires 0 <= i < |t.columns| => ColumnOf(t.columns[i]))
  }

  lemma NamesApart(tables: map<string, TableMeta>)
    ensures forall s, t :: s in tables && t in tables && NameOf(s) == NameOf(t) ==> s == t
  {
    forall s, t | s in tables && t in tables && NameOf(s) == NameOf(t) ensures s == t {
      CodeOnce(s, t);
    }
  }

  function SchemasOf(tables: map<string, TableMeta>): (catalog: Catalog)
    ensures forall t :: t in tables ==> NameOf(t) in catalog && catalog[NameOf(t)] == SchemaOf(tables[t])
    ensures forall n :: n in catalog ==> exists t :: t in tables && NameOf(t) == n
  {
    NamesApart(tables);
    map t | t in tables :: NameOf(t) := SchemaOf(tables[t])
  }

  function CatalogIn(text: string): Catalog {
    match Document(CatalogShape, text)
    case Err(_) => map[]
    case Ok(j) => SchemasOf(CatalogFrom(j).tables)
  }

  /** Whatever catalog was saved, the file gives its schemas with defaults filled in. */
  lemma SavedSchemas(data: CatalogData, names: Names)
    requires OrdersAll(names, data) && Covers(names, data)
    ensures CatalogIn(SavedText(data, names)) == SchemasOf(Kept(data).tables)
  {
    LoadSaved(data, names);
  }

  /** Tables whose columns all have a declared type and which are filed under their names. */
  predicate TablesLast(data: CatalogData) {
    forall k :: k in data.tables ==> data.tables[k].name == k && LastingTable(data.tables[k])
  }

  /** Those come back as they were. */
  lemma SavedAsIs(data: CatalogData, names: Names)
    requires OrdersAll(names, data) && Covers(names, data) && TablesLast(data)
    ensures CatalogIn(SavedText(data, names)) == SchemasOf(data.tables)
  {
    SavedSchemas(data, names);
    KeptMapIff(data.tables, TableKept);
    forall k | k in data.tables ensures TableKept(k, data.tables[k]) == data.tables[k] {
      TableKeptIff(k, data.tables[k]);
    }
  }

  /** Saving the catalog object makes the file that gives its schemas. */
  method SaveSchemas(catalog: Catalogs.Catalog) returns (text: string)
    requires TablesLast(catalog.data)
    ensures CatalogIn(text) == SchemasOf(catalog.data.tables)
  {
    ghost var names;
    text, names := catalog.Save();
    SavedAsIs(catalog.data, names);
  }
}
