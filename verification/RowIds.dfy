/** Where a heap file keeps a row. */
module RowIds {
  datatype RowId = RowId(page: nat, slot: nat)
}
