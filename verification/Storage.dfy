/**
  A table over a keyed store: the primary maps key bytes to row bytes, and each
  secondary index maps the bytes of one field to the primary keys filed under
  them, in the order they were filed.
*/
module Storage {
  import opened Basics

  type Key = Bytes
  type Row = Bytes
  type Index = map<Bytes, seq<Key>>

  datatype Column = Column(offset: nat, size: nat)

  /** The columns of a row by name, the fields of the primary key in key order, the
      names of these as cursors look for them, and the fields with an index.  A table
      described by an element keeps the same names twice; one made from the catalog
      fills in only the fields and leaves lookupNames empty. */
  datatype Layout = Layout(columns: map<string, Column>, rowSize: nat, keyNames: seq<string>, lookupNames: seq<string>,
                           indexNames: seq<string>)

  ghost predicate ValidLayout(layout: Layout) {
    && (forall f :: f in layout.columns ==> layout.columns[f].offset + layout.columns[f].size <= layout.rowSize)
    && (forall f :: f in layout.keyNames ==> f in layout.columns)
    && (forall f :: f in layout.indexNames ==> f in layout.columns)
  }

  ghost predicate IsRow(layout: Layout, row: Row) {
    ValidLayout(layout) && |row| == layout.rowSize
  }

  function FieldOf(layout: Layout, row: Row, f: string): (r: Bytes)
    requires IsRow(layout, row) && f in layout.columns
    ensures |r| == layout.columns[f].size && forall i :: 0 <= i < |r| ==> r[i] == row[layout.columns[f].offset + i]
  {
    var c := layout.columns[f];
    row[c.offset..c.offset + c.size]
  }

  /** The bytes of the fields named, one after the other. */
  function Concat(layout: Layout, row: Row, names: seq<string>): Bytes
    requires IsRow(layout, row) && forall f :: f in names ==> f in layout.columns
  {
    if names == [] then []
    else
      assert names[|names| - 1] in names;
      Concat(layout, row, names[..|names| - 1]) + FieldOf(layout, row, names[|names| - 1])
  }

  ghost function Width(layout: Layout, names: seq<string>): nat
    requires forall f :: f in names ==> f in layout.columns
  {
    if names == [] then 0
    else
      assert names[0] in names;
      layout.columns[names[0]].size + Width(layout, names[1..])
  }

  lemma {:induction false} ConcatFirst(layout: Layout, row: Row, names: seq<string>)
    requires IsRow(layout, row) && (forall f :: f in names ==> f in layout.columns) && names != []
    ensures names[0] in names && Concat(layout, row, names) == FieldOf(layout, row, names[0]) + Concat(layout, row, names[1..])
  {
    hide ValidLayout, FieldOf;
    var n := |names| - 1;
    if n > 0 {
      var rest := names[1..];
      ConcatFirst(layout, row, names[..n]);
      assert names[..n][1..] == rest[..n - 1] && rest[n - 1] == names[n];
    }
  }

  /** Behind the fields before it, field i stands in the bytes as it stands in the row. */
  lemma {:induction false} ConcatAt(layout: Layout, row: Row, names: seq<string>, i: nat, j: nat)
    requires IsRow(layout, row) && (forall f :: f in names ==> f in layout.columns)
    requires i < |names| && names[i] in layout.columns && j < layout.columns[names[i]].size
    ensures |Concat(layout, row, names)| == Width(layout, names)
    ensures var p := Width(layout, names[..i]) + j;
            p < Width(layout, names) && Concat(layout, row, names)[p] == row[layout.columns[names[i]].offset + j]
    decreases |names|
  {
    hide ValidLayout;
    ConcatFirst(layout, row, names);
    ConcatWidth(layout, row, names);
    ConcatWidth(layout, row, names[1..]);
    var field, rest := FieldOf(layout, row, names[0]), Concat(layout, row, names[1..]);
    if i == 0 {
      assert (field + rest)[j] == field[j];
    } else {
      ConcatAt(layout, row, names[1..], i - 1, j);
      assert names[..i][1..] == names[1..][..i - 1];
      hide Concat, FieldOf;
      JoinAt(field, rest, Width(layout, names[1..][..i - 1]) + j);
    }
  }

  lemma JoinAt(a: Bytes, b: Bytes, p: nat)
    requires p < |b|
    ensures (a + b)[|a| + p] == b[p]
  {
  }

  lemma {:induction false} ConcatWidth(layout: Layout, row: Row, names: seq<string>)
    requires IsRow(layout, row) && forall f :: f in names ==> f in layout.columns
    ensures |Concat(layout, row, names)| == Width(layout, names)
    decreases |names|
  {
    if names != [] {
      ConcatFirst(layout, row, names);
      ConcatWidth(layout, row, names[1..]);
    }
  }

  function KeyOf(layout: Layout, row: Row): Key
    requires IsRow(layout, row)
  {
    Concat(layout, row, layout.keyNames)
  }

  // ----- one index

  function Filed(ix: Index, s: Bytes): seq<Key> {
    if s in ix then ix[s] else []
  }

  function IndexPut(ix: Index, s: Bytes, k: Key): Index {
    ix[s := Filed(ix, s) + [k]]
  }

  /** The position of the first k, or the length when there is none. */
  function FindKey(keys: seq<Key>, k: Key): (p: nat)
    ensures p <= |keys|
    ensures p < |keys| ==> keys[p] == k
    ensures k !in keys[..p]
    ensures p == |keys| <==> k !in keys
  {
    if keys == [] then 0
    else if keys[0] == k then 0
    else 1 + FindKey(keys[1..], k)
  }

  function RemoveAt(keys: seq<Key>, p: nat): seq<Key> {
    if p < |keys| then keys[..p] + keys[p + 1..] else keys
  }

  /** Takes out the first pair (s, k); without one nothing happens. */
  function IndexDelete(ix: Index, s: Bytes, k: Key): Index {
    if s in ix then ix[s := RemoveAt(ix[s], FindKey(ix[s], k))] else ix
  }

  ghost function Count(ix: Index, s: Bytes, k: Key): nat {
    multiset(Filed(ix, s))[k]
  }

  lemma IndexPutCounts(ix: Index, s: Bytes, k: Key)
    ensures forall s', k' :: Count(IndexPut(ix, s, k), s', k') ==
                             Count(ix, s', k') + if s' == s && k' == k then 1 else 0
  {
  }

  lemma IndexDeleteCounts(ix: Index, s: Bytes, k: Key)
    ensures forall s', k' :: Count(IndexDelete(ix, s, k), s', k') ==
                             if s' == s && k' == k && Count(ix, s, k) > 0 then Count(ix, s, k) - 1 else Count(ix, s', k')
  {
    var keys := Filed(ix, s);
    var p := FindKey(keys, k);
    if p < |keys| {
      assert keys == keys[..p] + [k] + keys[p + 1..];
      assert multiset(keys) == multiset(keys[..p]) + multiset{k} + multiset(keys[p + 1..]);
    } else {
      assert multiset(keys)[k] == 0;
    }
  }

  // ----- the table

  datatype Db = Db(rows: map<Key, Row>, indexes: seq<Index>)

  function FileRow(layout: Layout, indexes: seq<Index>, names: seq<string>, k: Key, row: Row): (r: seq<Index>)
    requires IsRow(layout, row) && |indexes| == |names| && forall f :: f in names ==> f in layout.columns
    ensures |r| == |indexes|
    ensures forall i :: 0 <= i < |r| ==> names[i] in layout.columns
                                         && r[i] == IndexPut(indexes[i], FieldOf(layout, row, names[i]), k)
  {
    seq(|indexes|, i requires 0 <= i < |indexes| =>
      assert names[i] in names; IndexPut(indexes[i], FieldOf(layout, row, names[i]), k))
  }

  function UnfileRow(layout: Layout, indexes: seq<Index>, names: seq<string>, k: Key, row: Row): (r: seq<Index>)
    requires IsRow(layout, row) && |indexes| == |names| && forall f :: f in names ==> f in layout.columns
    ensures |r| == |indexes|
    ensures forall i :: 0 <= i < |r| ==> names[i] in layout.columns
                                         && r[i] == IndexDelete(indexes[i], FieldOf(layout, row, names[i]), k)
  {
    seq(|indexes|, i requires 0 <= i < |indexes| =>
      assert names[i] in names; IndexDelete(indexes[i], FieldOf(layout, row, names[i]), k))
  }

  /** Every row is filed under its own key. */
  ghost predicate ValidRows(layout: Layout, rows: map<Key, Row>) {
    && ValidLayout(layout)
    && forall k :: k in rows ==> IsRow(layout, rows[k]) && KeyOf(layout, rows[k]) == k
  }

  ghost predicate ValidDb(layout: Layout, db: Db) {
    ValidRows(layout, db.rows) && |db.indexes| == |layout.indexNames|
  }

  /** The row replaces any row with its key; the indexes only gain. */
  function Insert(layout: Layout, db: Db, row: Row): Db
    requires ValidDb(layout, db) && IsRow(layout, row)
  {
    var k := KeyOf(layout, row);
    Db(db.rows[k := row], FileRow(layout, db.indexes, layout.indexNames, k, row))
  }

  /** Deleting the row a cursor stands on. */
  function DeleteRow(layout: Layout, db: Db, k: Key): Db
    requires ValidDb(layout, db) && k in db.rows
  {
    Db(db.rows - {k}, UnfileRow(layout, db.indexes, layout.indexNames, k, db.rows[k]))
  }

  lemma InsertValid(layout: Layout, db: Db, row: Row)
    requires ValidDb(layout, db) && IsRow(layout, row)
    ensures ValidDb(layout, Insert(layout, db, row))
  {
  }

  // ----- agreement of indexes and table

  /** How often the rows ask for the pair (s, k) in the index on f: once or not at all. */
  ghost function Wanted(layout: Layout, rows: map<Key, Row>, f: string, s: Bytes, k: Key): nat
    requires ValidRows(layout, rows) && f in layout.columns
  {
    if k in rows && FieldOf(layout, rows[k], f) == s then 1 else 0
  }

  /** Every row is filed in the index on f. */
  ghost predicate IndexCovers(layout: Layout, rows: map<Key, Row>, f: string, ix: Index)
    requires ValidRows(layout, rows) && f in layout.columns
  {
    forall s, k :: Count(ix, s, k) >= Wanted(layout, rows, f, s, k)
  }

  /** The index on f holds exactly the pairs of the rows. */
  ghost predicate IndexExact(layout: Layout, rows: map<Key, Row>, f: string, ix: Index)
    requires ValidRows(layout, rows) && f in layout.columns
  {
    forall s, k :: Count(ix, s, k) == Wanted(layout, rows, f, s, k)
  }

  ghost predicate Covered(layout: Layout, db: Db)
    requires ValidDb(layout, db)
  {
    forall i :: 0 <= i < |db.indexes| ==> IndexCovers(layout, db.rows, layout.indexNames[i], db.indexes[i])
  }

  ghost predicate Exact(layout: Layout, db: Db)
    requires ValidDb(layout, db)
  {
    forall i :: 0 <= i < |db.indexes| ==> IndexExact(layout, db.rows, layout.indexNames[i], db.indexes[i])
  }

  lemma InsertCovers(layout: Layout, db: Db, row: Row)
    requires ValidDb(layout, db) && IsRow(layout, row) && Covered(layout, db)
    ensures ValidDb(layout, Insert(layout, db, row)) && Covered(layout, Insert(layout, db, row))
  {
    var k, db' := KeyOf(layout, row), Insert(layout, db, row);
    forall i | 0 <= i < |db'.indexes|
      ensures IndexCovers(layout, db'.rows, layout.indexNames[i], db'.indexes[i])
    {
      IndexPutCounts(db.indexes[i], FieldOf(layout, row, layout.indexNames[i]), k);
      assert IndexCovers(layout, db.rows, layout.indexNames[i], db.indexes[i]);
    }
  }

  lemma DeleteCovers(layout: Layout, db: Db, k: Key)
    requires ValidDb(layout, db) && k in db.rows && Covered(layout, db)
    ensures ValidDb(layout, DeleteRow(layout, db, k)) && Covered(layout, DeleteRow(layout, db, k))
  {
    var db' := DeleteRow(layout, db, k);
    forall i | 0 <= i < |db'.indexes|
      ensures IndexCovers(layout, db'.rows, layout.indexNames[i], db'.indexes[i])
    {
      IndexDeleteCounts(db.indexes[i], FieldOf(layout, db.rows[k], layout.indexNames[i]), k);
      assert IndexCovers(layout, db.rows, layout.indexNames[i], db.indexes[i]);
    }
  }

  lemma DeleteKeepsExact(layout: Layout, db: Db, k: Key)
    requires ValidDb(layout, db) && k in db.rows && Exact(layout, db)
    ensures ValidDb(layout, DeleteRow(layout, db, k)) && Exact(layout, DeleteRow(layout, db, k))
  {
    var db' := DeleteRow(layout, db, k);
    forall i | 0 <= i < |db'.indexes|
      ensures IndexExact(layout, db'.rows, layout.indexNames[i], db'.indexes[i])
    {
      IndexDeleteCounts(db.indexes[i], FieldOf(layout, db.rows[k], layout.indexNames[i]), k);
      assert IndexExact(layout, db.rows, layout.indexNames[i], db.indexes[i]);
    }
  }

  lemma PutKeepsExact(layout: Layout, rows: map<Key, Row>, f: string, ix: Index, k: Key, row: Row)
    requires ValidRows(layout, rows) && f in layout.columns && IndexExact(layout, rows, f, ix)
    requires IsRow(layout, row) && KeyOf(layout, row) == k && k !in rows
    ensures ValidRows(layout, rows[k := row])
    ensures IndexExact(layout, rows[k := row], f, IndexPut(ix, FieldOf(layout, row, f), k))
  {
    hide Count, IndexPut, KeyOf, FieldOf;
    IndexPutCounts(ix, FieldOf(layout, row, f), k);
  }

  lemma FreshInsertKeepsExact(layout: Layout, db: Db, row: Row)
    requires ValidDb(layout, db) && IsRow(layout, row) && Exact(layout, db)
    requires KeyOf(layout, row) !in db.rows
    ensures ValidDb(layout, Insert(layout, db, row)) && Exact(layout, Insert(layout, db, row))
  {
    hide IndexExact;
    var k, db' := KeyOf(layout, row), Insert(layout, db, row);
    InsertValid(layout, db, row);
    forall i | 0 <= i < |db'.indexes|
      ensures IndexExact(layout, db'.rows, layout.indexNames[i], db'.indexes[i])
    {
      PutKeepsExact(layout, db.rows, layout.indexNames[i], db.indexes[i], k, row);
    }
  }

  lemma OverwriteLeavesPair(layout: Layout, db: Db, row: Row)
    requires ValidDb(layout, db) && IsRow(layout, row) && Exact(layout, db)
    requires KeyOf(layout, row) in db.rows && layout.indexNames != []
    ensures ValidDb(layout, Insert(layout, db, row)) && !Exact(layout, Insert(layout, db, row))
  {
    var k, db' := KeyOf(layout, row), Insert(layout, db, row);
    var f := layout.indexNames[0];
    var s, s' := FieldOf(layout, db.rows[k], f), FieldOf(layout, row, f);
    assert IndexExact(layout, db.rows, f, db.indexes[0]);
    IndexPutCounts(db.indexes[0], s', k);
    assert Count(db'.indexes[0], s, k) == if s == s' then 2 else 1;
    assert Wanted(layout, db'.rows, f, s, k) == if s == s' then 1 else 0;
  }

  /** An insert keeps the indexes exact exactly when its key is not in the table
      (or there is no index): over an existing key the old pair stays behind. */
  lemma InsertKeepsExactIff(layout: Layout, db: Db, row: Row)
    requires ValidDb(layout, db) && IsRow(layout, row) && Exact(layout, db)
    ensures ValidDb(layout, Insert(layout, db, row))
    ensures Exact(layout, Insert(layout, db, row)) <==> KeyOf(layout, row) !in db.rows || layout.indexNames == []
  {
    if layout.indexNames != [] {
      if KeyOf(layout, row) in db.rows {
        OverwriteLeavesPair(layout, db, row);
      } else {
        FreshInsertKeepsExact(layout, db, row);
      }
    }
  }

  // ----- whole runs

  datatype Op = InsertOp(row: Row) | DeleteOp(key: Key)

  ghost predicate ValidOps(layout: Layout, ops: seq<Op>) {
    forall op :: op in ops && op.InsertOp? ==> IsRow(layout, op.row)
  }

  ghost function ApplyOp(layout: Layout, db: Db, op: Op): Db
    requires ValidDb(layout, db) && (op.InsertOp? ==> IsRow(layout, op.row))
  {
    match op
    case InsertOp(row) => Insert(layout, db, row)
    case DeleteOp(k) => if k in db.rows then DeleteRow(layout, db, k) else db
  }

  /** The table after ops; a delete acts only where there is a row to stand on. */
  ghost function Apply(layout: Layout, db: Db, ops: seq<Op>): (db': Db)
    requires ValidDb(layout, db) && ValidOps(layout, ops)
    ensures ValidDb(layout, db')
  {
    if ops == [] then db
    else
      assert ops[|ops| - 1] in ops;
      ApplyOp(layout, Apply(layout, db, ops[..|ops| - 1]), ops[|ops| - 1])
  }

  /** Every insert of the run brings a key the table does not hold. */
  ghost predicate FreshInserts(layout: Layout, db: Db, ops: seq<Op>)
    requires ValidDb(layout, db) && ValidOps(layout, ops)
  {
    ops == [] ||
    var n := |ops| - 1;
    assert ops[n] in ops;
    && FreshInserts(layout, db, ops[..n])
    && (ops[n].InsertOp? ==> KeyOf(layout, ops[n].row) !in Apply(layout, db, ops[..n]).rows)
  }

  ghost predicate ExactThroughout(layout: Layout, db: Db, ops: seq<Op>)
    requires ValidDb(layout, db) && ValidOps(layout, ops)
  {
    Exact(layout, Apply(layout, db, ops)) && (ops != [] ==> ExactThroughout(layout, db, ops[..|ops| - 1]))
  }

  /** After any run of inserts and deletes every row is in every index. */
  lemma {:induction false} RunCovers(layout: Layout, db: Db, ops: seq<Op>)
    requires ValidDb(layout, db) && ValidOps(layout, ops) && Covered(layout, db)
    ensures Covered(layout, Apply(layout, db, ops))
  {
    if ops != [] {
      var n := |ops| - 1;
      assert ops[n] in ops;
      RunCovers(layout, db, ops[..n]);
      var before := Apply(layout, db, ops[..n]);
      match ops[n]
      case InsertOp(row) => InsertCovers(layout, before, row);
      case DeleteOp(k) => if k in before.rows { DeleteCovers(layout, before, k); }
    }
  }

  lemma StepKeepsExactIff(layout: Layout, db: Db, op: Op)
    requires ValidDb(layout, db) && (op.InsertOp? ==> IsRow(layout, op.row)) && Exact(layout, db)
    ensures ValidDb(layout, ApplyOp(layout, db, op))
    ensures Exact(layout, ApplyOp(layout, db, op)) <==>
              (op.InsertOp? ==> KeyOf(layout, op.row) !in db.rows || layout.indexNames == [])
  {
    match op
    case InsertOp(row) => InsertKeepsExactIff(layout, db, row);
    case DeleteOp(k) => if k in db.rows { DeleteKeepsExact(layout, db, k); }
  }

  /** The indexes are exact at every moment of a run exactly when every insert brings
      a key the table does not hold (or there is no index). */
  lemma {:induction false} ExactThroughoutIff(layout: Layout, db: Db, ops: seq<Op>)
    requires ValidDb(layout, db) && ValidOps(layout, ops) && Exact(layout, db)
    ensures ExactThroughout(layout, db, ops) <==> FreshInserts(layout, db, ops) || layout.indexNames == []
  {
    if ops != [] {
      var n := |ops| - 1;
      assert ops[n] in ops;
      ExactThroughoutIff(layout, db, ops[..n]);
      if ExactThroughout(layout, db, ops[..n]) {
        StepKeepsExactIff(layout, Apply(layout, db, ops[..n]), ops[n]);
      }
    }
  }
}
