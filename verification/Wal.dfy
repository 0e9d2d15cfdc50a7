/** The undo log of src/native_wal.cpp: its record format, the torn-tail parser
    and the restore loop of recovery. */
module Wal {
  import opened Wrappers
  import opened Bytes

  type Blob = seq<byte>
  type Path = seq<byte>
  type Files = map<Path, Blob>

  const BEGIN: byte := 66        // 'B'
  const FILE_BEFORE: byte := 70  // 'F'
  const COMMIT: byte := 67       // 'C'
  const HEADER: nat := 22

  datatype Image = Image(existed: bool, bytes: Blob)

  datatype Record = Record(kind: byte, txn: nat, path: Path, existed: bool, data: Blob)

  /** Sizes that the fixed-width header fields can carry. */
  ghost predicate Fits(r: Record) {
    r.txn < Pow256(8) && |r.path| < Pow256(4) && |r.data| < Pow256(8)
  }

  function EncodeRecord(r: Record): (s: Blob) {
    [r.kind] + Encode(r.txn, 8) + Encode(|r.path|, 4) + Encode(|r.data|, 8)
    + [if r.existed then 1 else 0] + r.path + r.data
  }

  function EncodeAll(rs: seq<Record>): Blob {
    if rs == [] then [] else EncodeRecord(rs[0]) + EncodeAll(rs[1..])
  }

  function BeginRecord(txn: nat): Record {
    Record(BEGIN, txn, [], false, [])
  }

  /** The before-image record of a path in the given directory state. */
  function BeforeRecord(txn: nat, path: Path, files: Files): Record {
    Record(FILE_BEFORE, txn, path, path in files, if path in files then files[path] else [])
  }

  function CommitRecord(txn: nat): Record {
    Record(COMMIT, txn, [], false, [])
  }

  // ---------------------------------------------------------------- parsing

  /** One record at the front of the log and its length, or None for a torn tail. */
  function ParseOne(s: Blob): (r: Option<(Record, nat)>)
    ensures r.Some? ==> HEADER <= r.value.1 <= |s|
  {
    if |s| < HEADER then None
    else
      var pathSize := Decode(s[9..13]);
      var dataSize := Decode(s[13..21]);
      if |s| < HEADER + pathSize + dataSize then None
      else
        Some((Record(s[0], Decode(s[1..9]), s[HEADER..HEADER + pathSize], s[21] != 0,
                     s[HEADER + pathSize..HEADER + pathSize + dataSize]),
              HEADER + pathSize + dataSize))
  }

  /** Every complete record before the first incomplete one. */
  function ParseAll(s: Blob): seq<Record>
    decreases |s|
  {
    match ParseOne(s)
    case None => []
    case Some((r, n)) => [r] + ParseAll(s[n..])
  }

  /** ParseOne in terms of absolute positions in the log. */
  lemma ParseOneAt(bytes: Blob, pos: nat)
    requires pos + HEADER <= |bytes|
    ensures var pathSize := Decode(bytes[pos + 9..pos + 13]);
      var dataSize := Decode(bytes[pos + 13..pos + 21]);
      var at := pos + HEADER;
      ParseOne(bytes[pos..]) ==
        if at + pathSize + dataSize > |bytes| then None
        else Some((Record(bytes[pos], Decode(bytes[pos + 1..pos + 9]), bytes[at..at + pathSize],
                          bytes[pos + 21] != 0, bytes[at + pathSize..at + pathSize + dataSize]),
                   HEADER + pathSize + dataSize))
  {
    var s := bytes[pos..];
    assert s[1..9] == bytes[pos + 1..pos + 9];
    assert s[9..13] == bytes[pos + 9..pos + 13];
    assert s[13..21] == bytes[pos + 13..pos + 21];
    var pathSize := Decode(s[9..13]);
    var dataSize := Decode(s[13..21]);
    var at := pos + HEADER;
    if at + pathSize + dataSize <= |bytes| {
      assert s[HEADER..HEADER + pathSize] == bytes[at..at + pathSize];
      assert s[HEADER + pathSize..HEADER + pathSize + dataSize]
          == bytes[at + pathSize..at + pathSize + dataSize];
    }
  }

  lemma EncodeRecordLayout(r: Record)
    ensures var s := EncodeRecord(r);
      && |s| == HEADER + |r.path| + |r.data|
      && s[0] == r.kind
      && s[1..9] == Encode(r.txn, 8)
      && s[9..13] == Encode(|r.path|, 4)
      && s[13..21] == Encode(|r.data|, 8)
      && s[21] == (if r.existed then 1 else 0)
      && s[HEADER..HEADER + |r.path|] == r.path
      && s[HEADER + |r.path|..] == r.data
  {
  }

  /** A complete record at the front is read back exactly. */
  lemma ParseOneComplete(r: Record, rest: Blob)
    requires Fits(r)
    ensures ParseOne(EncodeRecord(r) + rest) == Some((r, |EncodeRecord(r)|))
  {
    var e := EncodeRecord(r);
    var s := e + rest;
    EncodeRecordLayout(r);
    DecodeEncode(r.txn, 8);
    DecodeEncode(|r.path|, 4);
    DecodeEncode(|r.data|, 8);
    assert forall k :: 0 <= k < |e| ==> s[k] == e[k];
    assert s[1..9] == e[1..9];
    assert s[9..13] == e[9..13];
    assert s[13..21] == e[13..21];
    assert s[HEADER..HEADER + |r.path|] == e[HEADER..HEADER + |r.path|];
    assert s[HEADER + |r.path|..HEADER + |r.path| + |r.data|] == e[HEADER + |r.path|..];
  }

  /** A proper prefix of a record is a torn tail at every cut point. */
  lemma ParseOneTorn(r: Record, n: nat)
    requires Fits(r) && n < |EncodeRecord(r)|
    ensures ParseOne(EncodeRecord(r)[..n]) == None
  {
    var e := EncodeRecord(r);
    EncodeRecordLayout(r);
    if n >= HEADER {
      DecodeEncode(|r.path|, 4);
      DecodeEncode(|r.data|, 8);
      assert e[..n][9..13] == e[9..13];
      assert e[..n][13..21] == e[13..21];
    }
  }

  lemma ParseAllStep(bytes: Blob, pos: nat, done: seq<Record>, r: Record, length: nat)
    requires pos <= |bytes| && ParseOne(bytes[pos..]) == Some((r, length))
    requires ParseAll(bytes) == done + ParseAll(bytes[pos..])
    ensures pos + length <= |bytes|
    ensures ParseAll(bytes) == done + [r] + ParseAll(bytes[pos + length..])
  {
    assert bytes[pos..][length..] == bytes[pos + length..];
  }

  /** Whatever complete records were flushed survive any torn record after them. */
  lemma {:induction false} ParseAllTorn(rs: seq<Record>, r: Record, n: nat)
    requires forall k :: 0 <= k < |rs| ==> Fits(rs[k])
    requires Fits(r) && n < |EncodeRecord(r)|
    ensures ParseAll(EncodeAll(rs) + EncodeRecord(r)[..n]) == rs
  {
    var tail := EncodeRecord(r)[..n];
    if rs == [] {
      ParseOneTorn(r, n);
      assert EncodeAll(rs) + tail == tail;
    } else {
      var rest := EncodeAll(rs[1..]) + tail;
      assert EncodeAll(rs) + tail == EncodeRecord(rs[0]) + rest;
      ParseOneComplete(rs[0], rest);
      ParseAllTorn(rs[1..], r, n);
      assert (EncodeRecord(rs[0]) + rest)[|EncodeRecord(rs[0])|..] == rest;
    }
  }

  lemma {:induction false} ParseAllComplete(rs: seq<Record>)
    requires forall k :: 0 <= k < |rs| ==> Fits(rs[k])
    ensures ParseAll(EncodeAll(rs)) == rs
  {
    if rs != [] {
      ParseOneComplete(rs[0], EncodeAll(rs[1..]));
      ParseAllComplete(rs[1..]);
      assert EncodeAll(rs)[|EncodeRecord(rs[0])|..] == EncodeAll(rs[1..]);
    }
  }

  lemma {:induction false} EncodeAllAppend(rs: seq<Record>, r: Record)
    ensures EncodeAll(rs + [r]) == EncodeAll(rs) + EncodeRecord(r)
  {
    if rs != [] {
      EncodeAllAppend(rs[1..], r);
      assert (rs + [r])[1..] == rs[1..] + [r];
    }
  }

  // ------------------------------------------------- what a log asks to undo

  datatype Transaction = Transaction(committed: bool, images: map<Path, Image>)
  type Table = map<nat, Transaction>

  /** The effect of one record on the transaction table; the first image of a path wins. */
  function Note(table: Table, r: Record): Table {
    var t := if r.txn in table then table[r.txn] else Transaction(false, map[]);
    if r.kind == COMMIT then table[r.txn := t.(committed := true)]
    else if r.kind == FILE_BEFORE && r.path != [] && r.path !in t.images then
      table[r.txn := t.(images := t.images[r.path := Image(r.existed, r.data)])]
    else table[r.txn := t]
  }

  function Collect(rs: seq<Record>): Table {
    if rs == [] then map[] else Note(Collect(rs[..|rs| - 1]), rs[|rs| - 1])
  }

  /** The files after restoring the given before-images. */
  function Restore(files: Files, images: map<Path, Image>): Files {
    map p | p in files.Keys + images.Keys && (p in images ==> images[p].existed)
      :: if p in images then images[p].bytes else files[p]
  }

  lemma RestoreTwice(files: Files, first: map<Path, Image>, second: map<Path, Image>)
    ensures Restore(Restore(files, first), second) == Restore(files, first + second)
  {
  }

  lemma CollectAppend(rs: seq<Record>, r: Record)
    ensures Collect(rs + [r]) == Note(Collect(rs), r)
  {
    assert (rs + [r])[..|rs|] == rs;
  }

  ghost predicate IsLeast(id: nat, ids: set<nat>) {
    id in ids && forall j :: j in ids ==> id <= j
  }

  lemma {:induction false} LeastExists(ids: set<nat>)
    requires ids != {}
    ensures exists id :: IsLeast(id, ids)
  {
    var x :| x in ids;
    if ids - {x} == {} {
      assert ids == {x};
      assert IsLeast(x, ids);
    } else {
      LeastExists(ids - {x});
      var y :| IsLeast(y, ids - {x});
      var m := if x <= y then x else y;
      forall j | j in ids ensures m <= j {
        assert j == x || j in ids - {x};
      }
      assert IsLeast(m, ids);
    }
  }

  ghost function Least(ids: set<nat>): (id: nat)
    requires ids != {}
    ensures IsLeast(id, ids)
  {
    LeastExists(ids);
    var id :| IsLeast(id, ids);
    id
  }

  /** Undo the uncommitted transactions with the given ids, in ascending id order. */
  ghost function Undo(files: Files, table: Table, ids: set<nat>): Files
    requires ids <= table.Keys
    decreases ids
  {
    if ids == {} then files
    else
      var id := Least(ids);
      var next := if table[id].committed then files else Restore(files, table[id].images);
      Undo(next, table, ids - {id})
  }

  /** The files after undoing everything these records leave uncommitted. */
  ghost function UndoRecords(files: Files, rs: seq<Record>): Files {
    var table := Collect(rs);
    Undo(files, table, table.Keys)
  }

  /** The records a reader finds in the log file. */
  function Parsed(log: Option<Blob>): seq<Record> {
    if log.Some? then ParseAll(log.value) else []
  }

  /** The files that recovery must produce from a crash image. */
  ghost function Recovered(files: Files, log: Option<Blob>): Files {
    UndoRecords(files, Parsed(log))
  }

  function Append(log: Option<Blob>, bytes: Blob): Option<Blob> {
    Some((if log.Some? then log.value else []) + bytes)
  }

  // ---------------------------------------------------------------- the log

  class NativeWal {
    var files: Files
    var log: Option<Blob>

    constructor (files: Files, log: Option<Blob>)
      ensures this.files == files && this.log == log
    {
      this.files := files;
      this.log := log;
    }

    /** Creates the log if it is missing and appends the record to it. */
    method AppendRecord(r: Record)
      modifies this`log
      ensures log == Append(old(log), EncodeRecord(r))
    {
      log := Some((if log.Some? then log.value else []) + EncodeRecord(r));
    }

    method Begin(txn: nat)
      modifies this`log
      ensures log == Append(old(log), EncodeRecord(BeginRecord(txn)))
    {
      AppendRecord(BeginRecord(txn));
    }

    /** The engine passes the file's present bytes, or nothing if it does not exist. */
    method LogBefore(txn: nat, path: Path)
      modifies this`log
      ensures log == Append(old(log), EncodeRecord(BeforeRecord(txn, path, files)))
    {
      AppendRecord(BeforeRecord(txn, path, files));
    }

    method Commit(txn: nat)
      modifies this`log
      ensures log == Append(old(log), EncodeRecord(CommitRecord(txn)))
    {
      AppendRecord(CommitRecord(txn));
    }

    method Checkpoint()
      modifies this`log
      ensures log == None
    {
      log := None;
    }

    method RestoreFile(path: Path, image: Image)
      modifies this`files
      ensures files == Restore(old(files), map[path := image])
    {
      if !image.existed {
        files := files - {path};
        return;
      }
      files := files[path := image.bytes];
    }

    /** Reads the log up to a torn tail into the transaction table. */
    method ReadLog(bytes: Blob) returns (table: Table)
      ensures table == Collect(ParseAll(bytes))
    {
      table := map[];
      ghost var done: seq<Record> := [];
      var pos := 0;
      while true
        invariant 0 <= pos <= |bytes|
        invariant ParseAll(bytes) == done + ParseAll(bytes[pos..])
        invariant table == Collect(done)
        decreases |bytes| - pos
      {
        var read := ReadRecord(bytes, pos);
        if read == None { break; }
        var (r, length) := read.value;
        ParseAllStep(bytes, pos, done, r, length);
        CollectAppend(done, r);
        table := NoteFields(table, r.kind, r.txn, r.path, r.existed, r.data);
        done := done + [r];
        pos := pos + length;
      }
      assert done + [] == done;
    }

    /** Reads the record at a position field by field; None as soon as the log runs out. */
    static method ReadRecord(bytes: Blob, pos: nat) returns (read: Option<(Record, nat)>)
      requires pos <= |bytes|
      ensures read == ParseOne(bytes[pos..])
    {
      if pos + HEADER > |bytes| { return None; }
      ParseOneAt(bytes, pos);
      var kind := bytes[pos];
      var txn := Decode(bytes[pos + 1..pos + 9]);
      var pathSize := Decode(bytes[pos + 9..pos + 13]);
      var dataSize := Decode(bytes[pos + 13..pos + 21]);
      var existed := bytes[pos + 21] != 0;
      var at := pos + HEADER;
      if at + pathSize > |bytes| { return None; }
      var path := bytes[at..at + pathSize];
      at := at + pathSize;
      if at + dataSize > |bytes| { return None; }
      var data := bytes[at..at + dataSize];
      return Some((Record(kind, txn, path, existed, data), HEADER + pathSize + dataSize));
    }

    /** The bookkeeping of one record that was read completely. */
    static method NoteFields(table: Table, kind: byte, txn: nat, path: Path, existed: bool, data: Blob)
      returns (next: Table)
      ensures next == Note(table, Record(kind, txn, path, existed, data))
    {
      var t := if txn in table then table[txn] else Transaction(false, map[]);
      if kind == COMMIT {
        t := t.(committed := true);
      } else if kind == FILE_BEFORE && path != [] {
        if path !in t.images {
          t := t.(images := t.images[path := Image(existed, data)]);
        }
      }
      next := table[txn := t];
    }

    /** Restores one transaction's images; the paths are distinct, so their order is free. */
    method RestoreImages(images: map<Path, Image>)
      modifies this`files
      ensures files == Restore(old(files), images)
    {
      var left := images.Keys;
      assert files == Restore(files, images - left);
      while left != {}
        invariant left <= images.Keys
        invariant files == Restore(old(files), images - left)
        decreases left
      {
        var path :| path in left;
        RestoreFile(path, images[path]);
        RestoreTwice(old(files), images - left, map[path := images[path]]);
        assert images - (left - {path}) == (images - left) + map[path := images[path]];
        left := left - {path};
      }
      assert images - left == images;
    }

    method Recover()
      modifies this
      ensures files == Recovered(old(files), old(log))
      ensures log == None
    {
      if log == None { return; }
      var table := ReadLog(log.value);
      var left := table.Keys;
      while left != {}
        invariant left <= table.Keys
        invariant log == old(log)
        invariant Undo(files, table, left) == Recovered(old(files), old(log))
        decreases left
      {
        LeastExists(left);
        var id :| id in left && forall j :: j in left ==> id <= j;
        assert id == Least(left);
        if !table[id].committed {
          RestoreImages(table[id].images);
        }
        left := left - {id};
      }
      Checkpoint();
    }
  }
}
