/** The catalog and its file (src/metadata.h:12-102, src/metadata.cpp:195-535, 655-892): what
    loading a saved catalog gives back. */
module CatalogJson {
  import opened Wrappers
  import opened JsonText
  import opened JsonShapes

  type u64 = n: nat | n < TwoTo64

  datatype ColumnMeta = ColumnMeta(name: string, ctype: string, primaryKey: bool, notNull: bool, fkTable: string, fkColumn: string)

  datatype TableMeta = TableMeta(name: string, columns: seq<ColumnMeta>)

  datatype FeatureMeta = FeatureMeta(name: string, spec: string)

  datatype RowMeta = RowMeta(rowid: string, split: string)

  datatype SnapshotMeta = SnapshotMeta(
    name: string, queryText: string, sourceTable: string, schemaFingerprint: string, tableVersion: string, splitBy: string,
    seed: u64, features: seq<FeatureMeta>, label_: FeatureMeta, rows: seq<RowMeta>, warnings: seq<string>)

  datatype MessageMeta = MessageMeta(
    id: u64, speaker: string, text: string, tab: string, schemaName: string, schemaVersion: string, storageRoute: string,
    accessLabels: seq<string>, mentionedEntities: seq<string>, tags: seq<string>, tagReasons: seq<string>)

  datatype AtomMeta = AtomMeta(
    key: string, value: string, atype: string, status: string, source: string, invalidatedBy: string, tab: string,
    schemaName: string, schemaVersion: string, accessLabels: seq<string>, tags: seq<string>, extractorRule: string,
    extractorConfidence: string, sourceStart: u64, sourceEnd: u64, originalSnippet: string)

  datatype AliasMeta = AliasMeta(alias: string, target: string)

  datatype ContextMeta = ContextMeta(name: string, messages: seq<MessageMeta>, atoms: seq<AtomMeta>, aliases: seq<AliasMeta>)

  datatype CatalogData = CatalogData(
    tables: map<string, TableMeta>, snapshots: map<string, SnapshotMeta>, contexts: map<string, ContextMeta>)

  // ------------------------------------------------------------------- the shapes

  const Inline := Layout("", " ", "")
  const Members := Layout("\n      ", "\n      ", "\n    ")
  const Rows := Layout("\n        ", "\n        ", "\n      ")
  const Entries := Layout("\n    ", "\n    ", "\n  ")

  const Strings := ArrayShape(Inline, StringShape)

  const ColumnShape := ObjectShape(Inline, [
    Field("name", StringShape), Field("type", StringShape), Field("primary_key", BoolShape),
    Field("not_null", BoolShape), Field("fk_table", StringShape), Field("fk_col", StringShape)])

  const TableShape := ObjectShape(Members, [Field("columns", ArrayShape(Rows, ColumnShape))])

  const FeatureShape := ObjectShape(Inline, [Field("name", StringShape), Field("spec", StringShape)])

  const RowShape := ObjectShape(Inline, [Field("rowid", StringShape), Field("split", StringShape)])

  const SnapshotShape := ObjectShape(Members, [
    Field("query_text", StringShape), Field("source_table", StringShape), Field("schema_fingerprint", StringShape),
    Field("table_version", StringShape), Field("split_by", StringShape), Field("seed", NumberShape),
    Field("features", ArrayShape(Rows, FeatureShape)), Field("label", FeatureShape),
    Field("rows", ArrayShape(Rows, RowShape)), Field("warnings", Strings)])

  const MessageShape := ObjectShape(Inline, [
    Field("id", NumberShape), Field("speaker", StringShape), Field("text", StringShape), Field("tab", StringShape),
    Field("schema_name", StringShape), Field("schema_version", StringShape), Field("storage_route", StringShape),
    Field("access_labels", Strings), Field("mentioned_entities", Strings), Field("tags", Strings), Field("tag_reasons", Strings)])

  const AtomShape := ObjectShape(Inline, [
    Field("key", StringShape), Field("value", StringShape), Field("type", StringShape), Field("status", StringShape),
    Field("source", StringShape), Field("invalidated_by", StringShape), Field("tab", StringShape),
    Field("schema_name", StringShape), Field("schema_version", StringShape), Field("access_labels", Strings),
    Field("tags", Strings), Field("extractor_rule", StringShape), Field("extractor_confidence", StringShape),
    Field("source_start", NumberShape), Field("source_end", NumberShape), Field("original_snippet", StringShape)])

  const AliasShape := ObjectShape(Inline, [Field("alias", StringShape), Field("target", StringShape)])

  const ContextShape := ObjectShape(Members, [
    Field("messages", ArrayShape(Rows, MessageShape)), Field("atoms", ArrayShape(Rows, AtomShape)),
    Field("tab_aliases", ArrayShape(Rows, AliasShape))])

  const CatalogShape := ObjectShape(Layout("\n  ", "\n  ", "\n"), [
    Field("tables", MapShape(Entries, TableShape)), Field("snapshots", MapShape(Entries, SnapshotShape)),
    Field("contexts", MapShape(Entries, ContextShape))])

  lemma StringsWellShaped()
    ensures WellShaped(Strings)
  {
  }

  lemma SmallWellShaped()
    ensures WellShaped(ColumnShape) && WellShaped(FeatureShape) && WellShaped(RowShape) && WellShaped(AliasShape)
  {
  }

  lemma MessageWellShaped()
    ensures WellShaped(MessageShape)
  {
    StringsWellShaped();
  }

  lemma AtomWellShaped()
    ensures WellShaped(AtomShape)
  {
    StringsWellShaped();
    AtomNames();
  }

  lemma AtomNames()
    ensures forall i, j :: 0 <= i < j < |AtomShape.fields| ==> AtomShape.fields[i].name != AtomShape.fields[j].name
  {
  }

  lemma TableWellShaped()
    ensures WellShaped(TableShape)
  {
    SmallWellShaped();
    assert WellShaped(ArrayShape(Rows, ColumnShape));
  }

  lemma SnapshotWellShaped()
    ensures WellShaped(SnapshotShape)
  {
    SmallWellShaped();
    StringsWellShaped();
    assert WellShaped(ArrayShape(Rows, FeatureShape)) && WellShaped(ArrayShape(Rows, RowShape));
    SnapshotNames();
    MembersBlank();
  }

  lemma SnapshotNames()
    ensures forall i, j :: 0 <= i < j < |SnapshotShape.fields| ==> SnapshotShape.fields[i].name != SnapshotShape.fields[j].name
  {
  }

  lemma MembersBlank()
    ensures BlankLayout(Members)
  {
  }

  lemma ContextWellShaped()
    ensures WellShaped(ContextShape)
  {
    MessageWellShaped();
    AtomWellShaped();
    SmallWellShaped();
    assert WellShaped(ArrayShape(Rows, MessageShape)) && WellShaped(ArrayShape(Rows, AtomShape));
    assert WellShaped(ArrayShape(Rows, AliasShape));
  }

  lemma CatalogWellShaped()
    ensures WellShaped(CatalogShape)
  {
    TableWellShaped();
    SnapshotWellShaped();
    ContextWellShaped();
    assert WellShaped(MapShape(Entries, TableShape)) && WellShaped(MapShape(Entries, SnapshotShape));
    assert WellShaped(MapShape(Entries, ContextShape));
  }

  // -------------------------------------------------------- records, lists and maps

  /** An object with all its fields. */
  function Record(values: seq<Json>): (j: Json)
    ensures j.Group? && |j.items| == |values|
    ensures forall i :: 0 <= i < |values| ==> j.items[i] == Known(i, values[i])
  {
    Group(seq(|values|, i requires 0 <= i < |values| => Known(i, values[i])))
  }

  function ListOf(values: seq<Json>): (j: Json)
    ensures j.Group? && |j.items| == |values|
    ensures forall i :: 0 <= i < |values| ==> j.items[i] == Element(values[i])
  {
    Group(seq(|values|, i requires 0 <= i < |values| => Element(values[i])))
  }

  /** A later assignment to a field overrides an earlier one. */
  function Last(items: seq<Item>, field: nat): Option<Json> {
    if items == [] then None
    else
      var item := items[|items| - 1];
      if item.Known? && item.field == field then Some(item.value) else Last(items[..|items| - 1], field)
  }

  function At(j: Json, field: nat): Option<Json> {
    if j.Group? then Last(j.items, field) else None
  }

  /** What a member has when its field is missing: an empty string, zero, false, no elements. */
  function TextAt(j: Json, field: nat): string {
    var x := At(j, field);
    if x.Some? && x.value.Text? then x.value.text else ""
  }

  function FlagAt(j: Json, field: nat): bool {
    var x := At(j, field);
    x.Some? && x.value.Flag? && x.value.flag
  }

  function NumberAt(j: Json, field: nat): u64 {
    var x := At(j, field);
    if x.Some? && x.value.Number? && x.value.number < TwoTo64 then x.value.number else 0
  }

  function Elements(j: Json): seq<Json> {
    if j.Group? then seq(|j.items|, i requires 0 <= i < |j.items| => if j.items[i].Skipped? then Text("") else j.items[i].value)
    else []
  }

  function ElementsAt(j: Json, field: nat): seq<Json> {
    var x := At(j, field);
    if x.Some? then Elements(x.value) else []
  }

  function MapSeq<A, B>(f: A -> B, xs: seq<A>): (ys: seq<B>)
    ensures |ys| == |xs| && forall i :: 0 <= i < |xs| ==> ys[i] == f(xs[i])
  {
    seq(|xs|, i requires 0 <= i < |xs| => f(xs[i]))
  }

  function TextOf(j: Json): string {
    if j.Text? then j.text else ""
  }

  function TextTo(s: string): Json {
    Text(s)
  }

  function StringsTo(xs: seq<string>): Json {
    ListOf(MapSeq(TextTo, xs))
  }

  function StringsAt(j: Json, field: nat): seq<string> {
    MapSeq(TextOf, ElementsAt(j, field))
  }

  lemma {:induction false} LastAt(values: seq<Json>, n: nat, i: nat)
    requires i < n <= |values|
    ensures Last(Record(values).items[..n], i) == Some(values[i])
  {
    var items := Record(values).items[..n];
    assert items[n - 1] == Known(n - 1, values[n - 1]);
    if i < n - 1 {
      LastAt(values, n - 1, i);
      assert items[..n - 1] == Record(values).items[..n - 1];
    }
  }

  /** Each field of a written object is found. */
  lemma RecordAt(values: seq<Json>)
    ensures forall i: nat :: i < |values| ==> At(Record(values), i) == Some(values[i])
  {
    forall i: nat | i < |values| ensures At(Record(values), i) == Some(values[i]) {
      LastAt(values, |values|, i);
      assert Record(values).items[..|values|] == Record(values).items;
    }
  }

  lemma ElementsOfList(values: seq<Json>)
    ensures Elements(ListOf(values)) == values
  {
  }

  lemma StringsBack(xs: seq<string>)
    ensures MapSeq(TextOf, Elements(StringsTo(xs))) == xs
  {
    ElementsOfList(MapSeq(TextTo, xs));
  }

  /** A list of written elements is read back as each of them is. */
  lemma ListBack<T>(to: T -> Json, from: Json -> T, fix: T -> T, xs: seq<T>)
    requires forall x :: from(to(x)) == fix(x)
    ensures MapSeq(from, Elements(ListOf(MapSeq(to, xs)))) == MapSeq(fix, xs)
  {
    ElementsOfList(MapSeq(to, xs));
  }

  lemma ListSame<T>(to: T -> Json, from: Json -> T, xs: seq<T>)
    requires forall x :: from(to(x)) == x
    ensures MapSeq(from, Elements(ListOf(MapSeq(to, xs)))) == xs
  {
    ElementsOfList(MapSeq(to, xs));
  }

  lemma RecordFits(shape: Shape, values: seq<Json>)
    requires shape.ObjectShape? && |values| == |shape.fields|
    requires forall k :: 0 <= k < |values| ==> Fits(shape.fields[k].shape, values[k])
    ensures Fits(shape, Record(values))
  {
  }

  lemma ListFits(layout: Layout, element: Shape, values: seq<Json>)
    requires forall k :: 0 <= k < |values| ==> Fits(element, values[k])
    ensures Fits(ArrayShape(layout, element), ListOf(values))
  {
  }

  lemma StringsFit(xs: seq<string>)
    ensures Fits(Strings, StringsTo(xs))
  {
    forall k | 0 <= k < |xs| ensures Fits(StringShape, MapSeq(TextTo, xs)[k]) {
    }
    ListFits(Inline, StringShape, MapSeq(TextTo, xs));
  }

  // ------------------------------------------------------------------- the parts

  function ColumnTo(c: ColumnMeta): Json {
    Record([Text(c.name), Text(c.ctype), Flag(c.primaryKey), Flag(c.notNull), Text(c.fkTable), Text(c.fkColumn)])
  }

  /** An empty object stays as it is. */
  function ColumnFrom(j: Json): ColumnMeta {
    ColumnMeta(TextAt(j, 0), if j != Group([]) && TextAt(j, 1) == "" then "TEXT" else TextAt(j, 1),
               FlagAt(j, 2), FlagAt(j, 3), TextAt(j, 4), TextAt(j, 5))
  }

  function OrDefault(s: string, default_: string): string {
    if s == "" then default_ else s
  }

  /** What saving and loading makes of it. */
  function ColumnKept(c: ColumnMeta): ColumnMeta {
    c.(ctype := OrDefault(c.ctype, "TEXT"))
  }

  lemma ColumnBack(c: ColumnMeta)
    ensures Fits(ColumnShape, ColumnTo(c)) && ColumnFrom(ColumnTo(c)) == ColumnKept(c)
  {
    var vs := [Text(c.name), Text(c.ctype), Flag(c.primaryKey), Flag(c.notNull), Text(c.fkTable), Text(c.fkColumn)];
    RecordFits(ColumnShape, vs);
    RecordAt(vs);
  }

  function TableTo(t: TableMeta): Json {
    Record([ListOf(MapSeq(ColumnTo, t.columns))])
  }

  function TableFrom(name: string, j: Json): TableMeta {
    TableMeta(name, MapSeq(ColumnFrom, ElementsAt(j, 0)))
  }

  function TableKept(name: string, t: TableMeta): TableMeta {
    TableMeta(name, MapSeq(ColumnKept, t.columns))
  }

  lemma TableBack(name: string, t: TableMeta)
    ensures Fits(TableShape, TableTo(t)) && TableFrom(name, TableTo(t)) == TableKept(name, t)
  {
    var columns := ListOf(MapSeq(ColumnTo, t.columns));
    forall c ensures ColumnFrom(ColumnTo(c)) == ColumnKept(c) { ColumnBack(c); }
    ListBack(ColumnTo, ColumnFrom, ColumnKept, t.columns);
    forall k | 0 <= k < |t.columns| ensures Fits(ColumnShape, MapSeq(ColumnTo, t.columns)[k]) { ColumnBack(t.columns[k]); }
    ListFits(Rows, ColumnShape, MapSeq(ColumnTo, t.columns));
    RecordFits(TableShape, [columns]);
    RecordAt([columns]);
  }

  function FeatureTo(f: FeatureMeta): Json {
    Record([Text(f.name), Text(f.spec)])
  }

  function FeatureFrom(j: Json): FeatureMeta {
    FeatureMeta(TextAt(j, 0), TextAt(j, 1))
  }

  lemma FeatureBack(f: FeatureMeta)
    ensures Fits(FeatureShape, FeatureTo(f)) && FeatureFrom(FeatureTo(f)) == f
  {
    var vs := [Text(f.name), Text(f.spec)];
    RecordFits(FeatureShape, vs);
    RecordAt(vs);
  }

  function RowTo(r: RowMeta): Json {
    Record([Text(r.rowid), Text(r.split)])
  }

  function RowFrom(j: Json): RowMeta {
    RowMeta(TextAt(j, 0), TextAt(j, 1))
  }

  lemma RowBack(r: RowMeta)
    ensures Fits(RowShape, RowTo(r)) && RowFrom(RowTo(r)) == r
  {
    var vs := [Text(r.rowid), Text(r.split)];
    RecordFits(RowShape, vs);
    RecordAt(vs);
  }

  function SnapshotFields(s: SnapshotMeta): (vs: seq<Json>)
    ensures |vs| == 10
  {
    [Text(s.queryText), Text(s.sourceTable), Text(s.schemaFingerprint), Text(s.tableVersion), Text(s.splitBy),
     Number(s.seed), ListOf(MapSeq(FeatureTo, s.features)), FeatureTo(s.label_), ListOf(MapSeq(RowTo, s.rows)),
     StringsTo(s.warnings)]
  }

  function SnapshotTo(s: SnapshotMeta): Json {
    Record(SnapshotFields(s))
  }

  function SnapshotFrom(name: string, j: Json): SnapshotMeta {
    SnapshotMeta(name, TextAt(j, 0), TextAt(j, 1), TextAt(j, 2), TextAt(j, 3), TextAt(j, 4), NumberAt(j, 5),
                 MapSeq(FeatureFrom, ElementsAt(j, 6)), if At(j, 7).Some? then FeatureFrom(At(j, 7).value) else FeatureMeta("", ""),
                 MapSeq(RowFrom, ElementsAt(j, 8)), StringsAt(j, 9))
  }

  lemma SnapshotFits(s: SnapshotMeta)
    ensures Fits(SnapshotShape, SnapshotTo(s))
  {
    forall k | 0 <= k < |s.features| ensures Fits(FeatureShape, MapSeq(FeatureTo, s.features)[k]) { FeatureBack(s.features[k]); }
    ListFits(Rows, FeatureShape, MapSeq(FeatureTo, s.features));
    FeatureBack(s.label_);
    forall k | 0 <= k < |s.rows| ensures Fits(RowShape, MapSeq(RowTo, s.rows)[k]) { RowBack(s.rows[k]); }
    ListFits(Rows, RowShape, MapSeq(RowTo, s.rows));
    StringsFit(s.warnings);
    RecordFits(SnapshotShape, SnapshotFields(s));
  }

  lemma SnapshotBack(name: string, s: SnapshotMeta)
    ensures SnapshotFrom(name, SnapshotTo(s)) == s.(name := name)
  {
    RecordAt(SnapshotFields(s));
    forall f ensures FeatureFrom(FeatureTo(f)) == f { FeatureBack(f); }
    forall r ensures RowFrom(RowTo(r)) == r { RowBack(r); }
    ListSame(FeatureTo, FeatureFrom, s.features);
    ListSame(RowTo, RowFrom, s.rows);
    StringsBack(s.warnings);
  }

  function MessageFields(m: MessageMeta): (vs: seq<Json>)
    ensures |vs| == 11
  {
    [Number(m.id), Text(m.speaker), Text(m.text), Text(m.tab), Text(m.schemaName), Text(m.schemaVersion),
     Text(m.storageRoute), StringsTo(m.accessLabels), StringsTo(m.mentionedEntities), StringsTo(m.tags),
     StringsTo(m.tagReasons)]
  }

  const DefaultRoute := "structured=catalog.contexts.messages; vector=ConversationMessage.content; blob=none"

  function MessageKept(m: MessageMeta): MessageMeta {
    m.(tab := OrDefault(m.tab, "main"), schemaName := OrDefault(m.schemaName, "ConversationMessage"),
       schemaVersion := OrDefault(m.schemaVersion, "v1"), storageRoute := OrDefault(m.storageRoute, DefaultRoute))
  }

  function MessageTo(m: MessageMeta): Json {
    Record(MessageFields(m))
  }

  function MessageFrom(j: Json): MessageMeta {
    MessageKept(MessageMeta(
      NumberAt(j, 0), TextAt(j, 1), TextAt(j, 2), TextAt(j, 3), TextAt(j, 4), TextAt(j, 5), TextAt(j, 6),
      StringsAt(j, 7), StringsAt(j, 8), StringsAt(j, 9), StringsAt(j, 10)))
  }

  lemma MessageFits(m: MessageMeta)
    ensures Fits(MessageShape, MessageTo(m))
  {
    StringsFit(m.accessLabels);
    StringsFit(m.mentionedEntities);
    StringsFit(m.tags);
    StringsFit(m.tagReasons);
    RecordFits(MessageShape, MessageFields(m));
  }

  lemma MessageBack(m: MessageMeta)
    ensures MessageFrom(MessageTo(m)) == MessageKept(m)
  {
    RecordAt(MessageFields(m));
    StringsBack(m.accessLabels);
    StringsBack(m.mentionedEntities);
    StringsBack(m.tags);
    StringsBack(m.tagReasons);
  }

  function AtomFields(a: AtomMeta): (vs: seq<Json>)
    ensures |vs| == 16
  {
    [Text(a.key), Text(a.value), Text(a.atype), Text(a.status), Text(a.source), Text(a.invalidatedBy), Text(a.tab),
     Text(a.schemaName), Text(a.schemaVersion), StringsTo(a.accessLabels), StringsTo(a.tags), Text(a.extractorRule),
     Text(a.extractorConfidence), Number(a.sourceStart), Number(a.sourceEnd), Text(a.originalSnippet)]
  }

  function AtomKept(a: AtomMeta): AtomMeta {
    a.(tab := OrDefault(a.tab, "main"), schemaName := OrDefault(a.schemaName, "ContextAtom"),
       schemaVersion := OrDefault(a.schemaVersion, "v1"), extractorConfidence := OrDefault(a.extractorConfidence, "1.00"))
  }

  function AtomTo(a: AtomMeta): Json {
    Record(AtomFields(a))
  }

  function AtomFrom(j: Json): AtomMeta {
    AtomKept(AtomMeta(
      TextAt(j, 0), TextAt(j, 1), TextAt(j, 2), TextAt(j, 3), TextAt(j, 4), TextAt(j, 5), TextAt(j, 6), TextAt(j, 7),
      TextAt(j, 8), StringsAt(j, 9), StringsAt(j, 10), TextAt(j, 11), TextAt(j, 12), NumberAt(j, 13), NumberAt(j, 14),
      TextAt(j, 15)))
  }

  lemma AtomFits(a: AtomMeta)
    ensures Fits(AtomShape, AtomTo(a))
  {
    StringsFit(a.accessLabels);
    StringsFit(a.tags);
    RecordFits(AtomShape, AtomFields(a));
  }

  lemma AtomBack(a: AtomMeta)
    ensures AtomFrom(AtomTo(a)) == AtomKept(a)
  {
    RecordAt(AtomFields(a));
    StringsBack(a.accessLabels);
    StringsBack(a.tags);
  }

  function AliasTo(a: AliasMeta): Json {
    Record([Text(a.alias), Text(a.target)])
  }

  function AliasFrom(j: Json): AliasMeta {
    AliasMeta(TextAt(j, 0), TextAt(j, 1))
  }

  lemma AliasBack(a: AliasMeta)
    ensures Fits(AliasShape, AliasTo(a)) && AliasFrom(AliasTo(a)) == a
  {
    var vs := [Text(a.alias), Text(a.target)];
    RecordFits(AliasShape, vs);
    RecordAt(vs);
  }

  predicate Named(a: AliasMeta) {
    a.alias != "" && a.target != ""
  }

  /** Aliases without a name or a target are dropped. */
  function AliasesKept(aliases: seq<AliasMeta>): (kept: seq<AliasMeta>)
    ensures |kept| <= |aliases|
  {
    if aliases == [] then []
    else
      var last := aliases[|aliases| - 1];
      AliasesKept(aliases[..|aliases| - 1]) + if Named(last) then [last] else []
  }

  lemma {:induction false} AllAliasesKept(aliases: seq<AliasMeta>)
    ensures AliasesKept(aliases) == aliases <==> forall i :: 0 <= i < |aliases| ==> Named(aliases[i])
  {
    if aliases != [] {
      var n := |aliases| - 1;
      AllAliasesKept(aliases[..n]);
      assert aliases == aliases[..n] + [aliases[n]];
      if Named(aliases[n]) {
        if AliasesKept(aliases) == aliases {
          assert AliasesKept(aliases[..n]) == AliasesKept(aliases)[..n] == aliases[..n];
          forall i | 0 <= i < n ensures Named(aliases[i]) { assert aliases[..n][i] == aliases[i]; }
        }
      }
    }
  }

  function ContextFields(c: ContextMeta): (vs: seq<Json>)
    ensures |vs| == 3
  {
    [ListOf(MapSeq(MessageTo, c.messages)), ListOf(MapSeq(AtomTo, c.atoms)), ListOf(MapSeq(AliasTo, c.aliases))]
  }

  function ContextTo(c: ContextMeta): Json {
    Record(ContextFields(c))
  }

  function ContextFrom(name: string, j: Json): ContextMeta {
    ContextMeta(name, MapSeq(MessageFrom, ElementsAt(j, 0)), MapSeq(AtomFrom, ElementsAt(j, 1)),
                AliasesKept(MapSeq(AliasFrom, ElementsAt(j, 2))))
  }

  function ContextKept(name: string, c: ContextMeta): ContextMeta {
    ContextMeta(name, MapSeq(MessageKept, c.messages), MapSeq(AtomKept, c.atoms), AliasesKept(c.aliases))
  }

  lemma ContextFits(c: ContextMeta)
    ensures Fits(ContextShape, ContextTo(c))
  {
    forall k | 0 <= k < |c.messages| ensures Fits(MessageShape, MapSeq(MessageTo, c.messages)[k]) { MessageFits(c.messages[k]); }
    ListFits(Rows, MessageShape, MapSeq(MessageTo, c.messages));
    forall k | 0 <= k < |c.atoms| ensures Fits(AtomShape, MapSeq(AtomTo, c.atoms)[k]) { AtomFits(c.atoms[k]); }
    ListFits(Rows, AtomShape, MapSeq(AtomTo, c.atoms));
    forall k | 0 <= k < |c.aliases| ensures Fits(AliasShape, MapSeq(AliasTo, c.aliases)[k]) { AliasBack(c.aliases[k]); }
    ListFits(Rows, AliasShape, MapSeq(AliasTo, c.aliases));
    RecordFits(ContextShape, ContextFields(c));
  }

  lemma ContextBack(name: string, c: ContextMeta)
    ensures ContextFrom(name, ContextTo(c)) == ContextKept(name, c)
  {
    RecordAt(ContextFields(c));
    forall m ensures MessageFrom(MessageTo(m)) == MessageKept(m) { MessageBack(m); }
    forall a ensures AtomFrom(AtomTo(a)) == AtomKept(a) { AtomBack(a); }
    forall a ensures AliasFrom(AliasTo(a)) == a { AliasBack(a); }
    ListBack(MessageTo, MessageFrom, MessageKept, c.messages);
    ListBack(AtomTo, AtomFrom, AtomKept, c.atoms);
    ListSame(AliasTo, AliasFrom, c.aliases);
  }

  // ----------------------------------------------------------------- named entries

  /** Every name once; saving goes through the names in ascending order, but any order will do. */
  ghost predicate Orders(names: seq<string>, keys: set<string>) {
    && (forall i, j :: 0 <= i < j < |names| ==> names[i] != names[j])
    && (forall k :: k in keys <==> k in names)
  }

  function EntriesOf<T>(names: seq<string>, m: map<string, T>, to: T -> Json): (j: Json)
    requires forall i :: 0 <= i < |names| ==> names[i] in m
    ensures j.Group? && |j.items| == |names|
    ensures forall i :: 0 <= i < |names| ==> j.items[i] == Entry(names[i], to(m[names[i]]))
  {
    Group(seq(|names|, i requires 0 <= i < |names| => Entry(names[i], to(m[names[i]]))))
  }

  /** result[name] = value, one entry after the other. */
  function MapFrom<T>(items: seq<Item>, from: (string, Json) -> T): map<string, T> {
    if items == [] then map[]
    else
      var before, item := MapFrom(items[..|items| - 1], from), items[|items| - 1];
      if item.Entry? then before[item.key := from(item.key, item.value)] else before
  }

  function EntriesAt<T>(j: Json, field: nat, from: (string, Json) -> T): map<string, T> {
    var x := At(j, field);
    if x.Some? && x.value.Group? then MapFrom(x.value.items, from) else map[]
  }

  function KeptMap<T>(m: map<string, T>, kept: (string, T) -> T): map<string, T> {
    map k | k in m :: kept(k, m[k])
  }

  lemma {:induction false} MapBackUpTo<T>(names: seq<string>, m: map<string, T>, to: T -> Json, from: (string, Json) -> T,
                                          kept: (string, T) -> T, n: nat)
    requires n <= |names| && forall i :: 0 <= i < |names| ==> names[i] in m
    requires forall k, x :: from(k, to(x)) == kept(k, x)
    ensures var r := MapFrom(EntriesOf(names, m, to).items[..n], from);
      && (forall k :: k in r <==> k in names[..n])
      && (forall k :: k in r ==> k in m && r[k] == kept(k, m[k]))
  {
    if n > 0 {
      MapBackUpTo(names, m, to, from, kept, n - 1);
      var items := EntriesOf(names, m, to).items;
      assert items[..n][..n - 1] == items[..n - 1];
      assert names[..n] == names[..n - 1] + [names[n - 1]];
    }
  }

  lemma MapBack<T>(names: seq<string>, m: map<string, T>, to: T -> Json, from: (string, Json) -> T, kept: (string, T) -> T)
    requires Orders(names, m.Keys)
    requires forall k, x :: from(k, to(x)) == kept(k, x)
    ensures (forall i :: 0 <= i < |names| ==> names[i] in m)
    ensures MapFrom(EntriesOf(names, m, to).items, from) == KeptMap(m, kept)
  {
    forall i | 0 <= i < |names| ensures names[i] in m { assert names[i] in names; }
    MapBackUpTo(names, m, to, from, kept, |names|);
    var items := EntriesOf(names, m, to).items;
    assert items[..|names|] == items && names[..|names|] == names;
  }

  lemma EntriesFit<T>(layout: Layout, element: Shape, names: seq<string>, m: map<string, T>, to: T -> Json)
    requires forall i :: 0 <= i < |names| ==> names[i] in m && Fits(element, to(m[names[i]]))
    ensures Fits(MapShape(layout, element), EntriesOf(names, m, to))
  {
  }

  // ------------------------------------------------------------------- the catalog

  datatype Names = Names(tables: seq<string>, snapshots: seq<string>, contexts: seq<string>)

  ghost predicate OrdersAll(names: Names, c: CatalogData) {
    && Orders(names.tables, c.tables.Keys) && Orders(names.snapshots, c.snapshots.Keys)
    && Orders(names.contexts, c.contexts.Keys)
  }

  predicate Covers(names: Names, c: CatalogData) {
    && (forall i :: 0 <= i < |names.tables| ==> names.tables[i] in c.tables)
    && (forall i :: 0 <= i < |names.snapshots| ==> names.snapshots[i] in c.snapshots)
    && (forall i :: 0 <= i < |names.contexts| ==> names.contexts[i] in c.contexts)
  }

  function CatalogFields(c: CatalogData, names: Names): (vs: seq<Json>)
    requires Covers(names, c)
    ensures |vs| == 3
  {
    [EntriesOf(names.tables, c.tables, TableTo), EntriesOf(names.snapshots, c.snapshots, SnapshotTo),
     EntriesOf(names.contexts, c.contexts, ContextTo)]
  }

  function CatalogTo(c: CatalogData, names: Names): Json
    requires Covers(names, c)
  {
    Record(CatalogFields(c, names))
  }

  function CatalogFrom(j: Json): CatalogData {
    CatalogData(EntriesAt(j, 0, TableFrom), EntriesAt(j, 1, SnapshotFrom), EntriesAt(j, 2, ContextFrom))
  }

  function SnapshotKept(name: string, s: SnapshotMeta): SnapshotMeta {
    s.(name := name)
  }

  /** What saving and loading makes of a catalog. */
  function Kept(c: CatalogData): CatalogData {
    CatalogData(KeptMap(c.tables, TableKept), KeptMap(c.snapshots, SnapshotKept), KeptMap(c.contexts, ContextKept))
  }

  lemma OrdersCover(names: Names, c: CatalogData)
    requires OrdersAll(names, c)
    ensures Covers(names, c)
  {
    forall i | 0 <= i < |names.tables| ensures names.tables[i] in c.tables { assert names.tables[i] in names.tables; }
    forall i | 0 <= i < |names.snapshots| ensures names.snapshots[i] in c.snapshots { assert names.snapshots[i] in names.snapshots; }
    forall i | 0 <= i < |names.contexts| ensures names.contexts[i] in c.contexts { assert names.contexts[i] in names.contexts; }
  }

  lemma CatalogFits(c: CatalogData, names: Names)
    requires Covers(names, c)
    ensures Fits(CatalogShape, CatalogTo(c, names))
  {
    forall i | 0 <= i < |names.tables| ensures Fits(TableShape, TableTo(c.tables[names.tables[i]])) {
      TableBack("", c.tables[names.tables[i]]);
    }
    EntriesFit(Entries, TableShape, names.tables, c.tables, TableTo);
    forall i | 0 <= i < |names.snapshots| ensures Fits(SnapshotShape, SnapshotTo(c.snapshots[names.snapshots[i]])) {
      SnapshotFits(c.snapshots[names.snapshots[i]]);
    }
    EntriesFit(Entries, SnapshotShape, names.snapshots, c.snapshots, SnapshotTo);
    forall i | 0 <= i < |names.contexts| ensures Fits(ContextShape, ContextTo(c.contexts[names.contexts[i]])) {
      ContextFits(c.contexts[names.contexts[i]]);
    }
    EntriesFit(Entries, ContextShape, names.contexts, c.contexts, ContextTo);
    RecordFits(CatalogShape, CatalogFields(c, names));
  }

  lemma CatalogBack(c: CatalogData, names: Names)
    requires OrdersAll(names, c) && Covers(names, c)
    ensures CatalogFrom(CatalogTo(c, names)) == Kept(c)
  {
    RecordAt(CatalogFields(c, names));
    forall k, t ensures TableFrom(k, TableTo(t)) == TableKept(k, t) { TableBack(k, t); }
    MapBack(names.tables, c.tables, TableTo, TableFrom, TableKept);
    forall k, s ensures SnapshotFrom(k, SnapshotTo(s)) == SnapshotKept(k, s) { SnapshotBack(k, s); }
    MapBack(names.snapshots, c.snapshots, SnapshotTo, SnapshotFrom, SnapshotKept);
    forall k, x ensures ContextFrom(k, ContextTo(x)) == ContextKept(k, x) { ContextBack(k, x); }
    MapBack(names.contexts, c.contexts, ContextTo, ContextFrom, ContextKept);
  }

  // -------------------------------------------------------------------- the file

  function SavedText(c: CatalogData, names: Names): string
    requires Covers(names, c)
  {
    CatalogFits(c, names);
    Write(CatalogShape, CatalogTo(c, names)) + "\n"
  }

  /** Entries carry the name they are filed under, and nothing that has a default is empty. */
  predicate Lasting(c: CatalogData) {
    && (forall k :: k in c.tables ==> c.tables[k].name == k && LastingTable(c.tables[k]))
    && (forall k :: k in c.snapshots ==> c.snapshots[k].name == k)
    && (forall k :: k in c.contexts ==> c.contexts[k].name == k && LastingContext(c.contexts[k]))
  }

  predicate LastingTable(t: TableMeta) {
    forall i :: 0 <= i < |t.columns| ==> t.columns[i].ctype != ""
  }

  predicate LastingMessage(m: MessageMeta) {
    m.tab != "" && m.schemaName != "" && m.schemaVersion != "" && m.storageRoute != ""
  }

  predicate LastingAtom(a: AtomMeta) {
    a.tab != "" && a.schemaName != "" && a.schemaVersion != "" && a.extractorConfidence != ""
  }

  predicate LastingContext(c: ContextMeta) {
    && (forall i :: 0 <= i < |c.messages| ==> LastingMessage(c.messages[i]))
    && (forall i :: 0 <= i < |c.atoms| ==> LastingAtom(c.atoms[i]))
    && (forall i :: 0 <= i < |c.aliases| ==> Named(c.aliases[i]))
  }

  lemma MapSeqSame<T>(f: T -> T, xs: seq<T>, p: T -> bool)
    requires forall x :: f(x) == x <==> p(x)
    ensures MapSeq(f, xs) == xs <==> forall i :: 0 <= i < |xs| ==> p(xs[i])
  {
    if MapSeq(f, xs) == xs {
      forall i | 0 <= i < |xs| ensures p(xs[i]) { assert MapSeq(f, xs)[i] == f(xs[i]); }
    }
  }

  lemma TableKeptIff(name: string, t: TableMeta)
    ensures TableKept(name, t) == t <==> t.name == name && LastingTable(t)
  {
    MapSeqSame(ColumnKept, t.columns, (c: ColumnMeta) => c.ctype != "");
  }

  lemma ContextKeptIff(name: string, c: ContextMeta)
    ensures ContextKept(name, c) == c <==> c.name == name && LastingContext(c)
  {
    MapSeqSame(MessageKept, c.messages, LastingMessage);
    MapSeqSame(AtomKept, c.atoms, LastingAtom);
    AllAliasesKept(c.aliases);
  }

  lemma KeptMapIff<T>(m: map<string, T>, kept: (string, T) -> T)
    ensures KeptMap(m, kept) == m <==> forall k :: k in m ==> kept(k, m[k]) == m[k]
  {
    if KeptMap(m, kept) == m {
      forall k | k in m ensures kept(k, m[k]) == m[k] { assert KeptMap(m, kept)[k] == kept(k, m[k]); }
    }
  }

  /** Exactly the lasting catalogs come back as they were. */
  lemma KeptIff(c: CatalogData)
    ensures Kept(c) == c <==> Lasting(c)
  {
    KeptMapIff(c.tables, TableKept);
    KeptMapIff(c.snapshots, SnapshotKept);
    KeptMapIff(c.contexts, ContextKept);
    forall k | k in c.tables ensures TableKept(k, c.tables[k]) == c.tables[k] <==> c.tables[k].name == k && LastingTable(c.tables[k]) {
      TableKeptIff(k, c.tables[k]);
    }
    forall k | k in c.contexts
      ensures ContextKept(k, c.contexts[k]) == c.contexts[k] <==> c.contexts[k].name == k && LastingContext(c.contexts[k])
    {
      ContextKeptIff(k, c.contexts[k]);
    }
  }

  /** Whatever the catalog, its file is read without an error and gives Kept(c). */
  lemma LoadSaved(c: CatalogData, names: Names)
    requires OrdersAll(names, c) && Covers(names, c)
    ensures Document(CatalogShape, SavedText(c, names)).Ok?
    ensures CatalogFrom(Document(CatalogShape, SavedText(c, names)).value) == Kept(c)
  {
    CatalogWellShaped();
    CatalogFits(c, names);
    DocumentRoundTrip(CatalogShape, CatalogTo(c, names), "\n");
    CatalogBack(c, names);
  }
}
