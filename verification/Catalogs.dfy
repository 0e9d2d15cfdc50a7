/** The Catalog object (src/metadata.cpp:655-938): its maps, and saving and loading them. */
module Catalogs {
  import opened Wrappers
  import opened JsonShapes
  import opened JsonReader
  import opened CatalogJson

  /** Loaded entries override those with the same name. */
  function Merged(a: CatalogData, b: CatalogData): CatalogData {
    CatalogData(a.tables + b.tables, a.snapshots + b.snapshots, a.contexts + b.contexts)
  }

  const Nothing := CatalogData(map[], map[], map[])

  /** Every entry carries the name it is filed under. */
  predicate Filed(c: CatalogData) {
    && (forall k :: k in c.tables ==> c.tables[k].name == k)
    && (forall k :: k in c.snapshots ==> c.snapshots[k].name == k)
    && (forall k :: k in c.contexts ==> c.contexts[k].name == k)
  }

  class Catalog {
    var data: CatalogData
    var revision: nat

    constructor ()
      ensures data == Nothing && revision == 0
    {
      data, revision := Nothing, 0;
    }

    /** A missing or malformed file leaves the catalog as it is. */
    method Load(file: Option<string>)
      modifies this
      ensures data == if file.Some? && Document(CatalogShape, file.value).Ok?
                      then Merged(old(data), CatalogFrom(Document(CatalogShape, file.value).value)) else old(data)
    {
      if file.None? { return; }
      var reader := new JsonReader(file.value);
      var loaded := reader.ParseDocument(CatalogShape);
      if loaded.Err? { return; }
      data, revision := Merged(data, CatalogFrom(loaded.value)), revision + 1;
    }

    method Save() returns (text: string, ghost names: Names)
      ensures OrdersAll(names, data) && Covers(names, data) && text == SavedText(data, names)
    {
      var tables := NamesOf(data.tables.Keys);
      var snapshots := NamesOf(data.snapshots.Keys);
      var contexts := NamesOf(data.contexts.Keys);
      var all := Names(tables, snapshots, contexts);
      OrdersCover(all, data);
      return SavedText(data, all), all;
    }

    method AddTable(table: TableMeta)
      modifies this
      ensures data == old(data).(tables := old(data).tables[table.name := table])
      ensures Filed(old(data)) ==> Filed(data)
    {
      data, revision := data.(tables := data.tables[table.name := table]), revision + 1;
    }

    /** Snapshots of the table go with it. */
    method RemoveTable(name: string)
      modifies this
      ensures data.tables == old(data).tables - {name} && data.contexts == old(data).contexts
      ensures name in old(data).tables ==>
        data.snapshots == map k | k in old(data).snapshots && old(data).snapshots[k].sourceTable != name :: old(data).snapshots[k]
      ensures name !in old(data).tables ==> data == old(data)
      ensures Filed(old(data)) ==> Filed(data)
    {
      if name in data.tables {
        data := data.(
          tables := data.tables - {name},
          snapshots := map k | k in data.snapshots && data.snapshots[k].sourceTable != name :: data.snapshots[k]);
        revision := revision + 1;
      } else {
        assert data.tables - {name} == data.tables;
      }
    }
  }

  method NamesOf(keys: set<string>) returns (names: seq<string>)
    ensures Orders(names, keys)
  {
    names := [];
    var rest := keys;
    while rest != {}
      invariant rest <= keys && (forall k :: k in keys <==> k in rest || k in names)
      invariant (forall i, j :: 0 <= i < j < |names| ==> names[i] != names[j]) && forall k :: k in names ==> k !in rest
      decreases rest
    {
      var k :| k in rest;
      names, rest := names + [k], rest - {k};
    }
  }

  /** A catalog that is saved and loaded into a fresh one comes back as it was exactly if it is
      lasting; in any case the load succeeds and fills in the defaults. */
  method SaveAndLoad(saved: Catalog) returns (loaded: Catalog)
    ensures fresh(loaded) && loaded.data == Kept(saved.data)
    ensures loaded.data == saved.data <==> Lasting(saved.data)
  {
    var text, names := saved.Save();
    loaded := new Catalog();
    loaded.Load(Some(text));
    LoadSaved(saved.data, names);
    MergedWithNothing(Kept(saved.data));
    KeptIff(saved.data);
  }

  lemma MergedWithNothing(c: CatalogData)
    ensures Merged(Nothing, c) == c
  {
    assert map[] + c.tables == c.tables && map[] + c.snapshots == c.snapshots && map[] + c.contexts == c.contexts;
  }
}
