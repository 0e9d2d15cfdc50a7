/** Lists of rows in heap order, and the batches a scan hands out (src/native_storage.cpp:866-931). */
module HeapScan {
  import opened Wrappers
  import opened RowIds
  import opened PageFormat
  import opened TupleCodec

  datatype StoredRow = StoredRow(id: RowId, values: Tuple)

  predicate Before(id: RowId, page: nat, slot: nat) {
    id.page < page || (id.page == page && id.slot < slot)
  }

  /** The list holds the rows before this position, in heap order, each once. */
  ghost predicate Lists(list: seq<StoredRow>, rows: map<RowId, Tuple>, page: nat, slot: nat) {
    && (forall i :: 0 <= i < |list| ==> ListedRow(list[i], rows, page, slot))
    && (forall i, j :: 0 <= i < j < |list| ==> Before(list[i].id, list[j].id.page, list[j].id.slot))
    && (forall id :: id in rows && Before(id, page, slot) ==> StoredRow(id, rows[id]) in list)
  }

  ghost predicate ListedRow(r: StoredRow, rows: map<RowId, Tuple>, page: nat, slot: nat) {
    r.id in rows && r.values == rows[r.id] && Before(r.id, page, slot)
  }

  lemma ListsNext(list: seq<StoredRow>, rows: map<RowId, Tuple>, page: nat, slot: nat, list': seq<StoredRow>)
    requires Lists(list, rows, page, slot)
    requires var id := RowId(page, slot);
      list' == if id in rows then list + [StoredRow(id, rows[id])] else list
    ensures Lists(list', rows, page, slot + 1)
  {
    var id := RowId(page, slot);
    forall i | 0 <= i < |list'| ensures ListedRow(list'[i], rows, page, slot + 1) {
      if i < |list| { assert ListedRow(list[i], rows, page, slot); }
    }
    forall i, j | 0 <= i < j < |list'| ensures Before(list'[i].id, list'[j].id.page, list'[j].id.slot) {
      if j == |list| { assert ListedRow(list[i], rows, page, slot); }
    }
    forall x | x in rows && Before(x, page, slot + 1) ensures StoredRow(x, rows[x]) in list' {
      if x != id { assert Before(x, page, slot); }
    }
  }

  lemma ListsNextPage(list: seq<StoredRow>, rows: map<RowId, Tuple>, page: nat, slots: nat)
    requires Lists(list, rows, page, slots)
    requires forall id :: id in rows && id.page == page ==> id.slot < slots
    ensures Lists(list, rows, page + 1, 0)
  {
    forall i | 0 <= i < |list| ensures ListedRow(list[i], rows, page + 1, 0) {
      assert ListedRow(list[i], rows, page, slots);
    }
  }

  // ------------------------------------------------------------------ batches

  function Concat(batches: seq<seq<StoredRow>>): seq<StoredRow> {
    if batches == [] then [] else Concat(batches[..|batches| - 1]) + batches[|batches| - 1]
  }

  lemma ConcatOneMore(batches: seq<seq<StoredRow>>, batch: seq<StoredRow>)
    ensures Concat(batches + [batch]) == Concat(batches) + batch
  {
    assert (batches + [batch])[..|batches|] == batches;
  }

  /** Full batches so far, and the rows of the one being filled. */
  ghost predicate Batched(batches: seq<seq<StoredRow>>, rest: seq<StoredRow>, size: nat, list: seq<StoredRow>) {
    && Concat(batches) + rest == list && |rest| < size
    && forall i :: 0 <= i < |batches| ==> |batches[i]| == size
  }

  method AddToBatch(batches: seq<seq<StoredRow>>, rest: seq<StoredRow>, size: nat, row: StoredRow,
                    ghost list: seq<StoredRow>)
    returns (batches': seq<seq<StoredRow>>, rest': seq<StoredRow>)
    requires Batched(batches, rest, size, list)
    ensures Batched(batches', rest', size, list + [row])
  {
    batches', rest' := batches, rest + [row];
    if |rest'| == size {
      ConcatOneMore(batches, rest');
      batches', rest' := batches + [rest'], [];
    }
  }

  /** The contents of a page, in terms of the stored rows. */
  ghost predicate PageStores(c: Content, rows: map<RowId, Tuple>, page: nat) {
    forall slot: nat :: PageStoresSlot(c, rows, page, slot)
  }

  ghost predicate PageStoresSlot(c: Content, rows: map<RowId, Tuple>, page: nat, slot: nat) {
    && (RowId(page, slot) in rows <==> slot < |c| && c[slot].Some?)
    && (RowId(page, slot) in rows ==>
         RepresentableTuple(rows[RowId(page, slot)]) && c[slot].value == EncodeTuple(rows[RowId(page, slot)]))
  }

  lemma PageExhausted(list: seq<StoredRow>, rows: map<RowId, Tuple>, page: nat, c: Content)
    requires PageStores(c, rows, page) && Lists(list, rows, page, |c|)
    ensures Lists(list, rows, page + 1, 0)
  {
    forall id | id in rows && id.page == page ensures id.slot < |c| {
      assert PageStoresSlot(c, rows, page, id.slot);
    }
    ListsNextPage(list, rows, page, |c|);
  }

  /** Whatever columns a scan decodes, it sees them as they are in the stored row. */
  lemma ProjectedRow(c: Content, rows: map<RowId, Tuple>, page: nat, slot: nat, columns: seq<nat>)
    requires PageStores(c, rows, page) && slot < |c| && c[slot].Some? && SortedUnique(columns)
    requires RowId(page, slot) in rows
    requires forall i :: 0 <= i < |columns| ==> columns[i] < |rows[RowId(page, slot)]|
    ensures DecodeColumns(c[slot].value, columns) == Ok(Project(rows[RowId(page, slot)], columns))
  {
    assert PageStoresSlot(c, rows, page, slot);
    RoundTrip(rows[RowId(page, slot)]);
    ColumnsProject(c[slot].value, columns);
  }
}
