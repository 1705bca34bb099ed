/**
  Select, delete and update statements: a cursor on the path the factory picks, and a
  loop that takes one row at a time.
*/
module Statements {
  import opened Basics
  import opened Storage
  import opened WhereClause
  import opened AccessPaths
  import opened TableCursors

  /** out holds the rows at these keys, each once, and nothing else. */
  ghost predicate EachOnce(layout: Layout, rows: map<Key, Row>, keys: set<Key>, out: seq<Row>)
    requires ValidRows(layout, rows)
  {
    && Distinct(out)
    && (forall k :: k in keys ==> k in rows && rows[k] in out)
    && forall i :: 0 <= i < |out| ==> IsRow(layout, out[i]) && KeyOf(layout, out[i]) in keys * rows.Keys
                                      && rows[KeyOf(layout, out[i])] == out[i]
  }

  lemma NoneYet(layout: Layout, rows: map<Key, Row>)
    requires ValidRows(layout, rows)
    ensures EachOnce(layout, rows, {}, [])
  {
  }

  lemma OneMore(layout: Layout, rows: map<Key, Row>, keys: set<Key>, out: seq<Row>, k: Key)
    requires ValidRows(layout, rows) && EachOnce(layout, rows, keys, out) && k in rows && k !in keys
    ensures EachOnce(layout, rows, keys + {k}, out + [rows[k]])
  {
    var more := out + [rows[k]];
    assert more[|out|] == rows[k];
    forall j | j in keys + {k}
      ensures j in rows && rows[j] in more
    {
    }
    forall i, j | 0 <= i < j < |more|
      ensures more[i] != more[j]
    {
      assert KeyOf(layout, more[i]) in keys;
    }
  }

  /** What the loop has handled and what is still to come make up all the keys. */
  ghost predicate Split(c: Cursor, all: set<Key>, done: set<Key>)
    requires c.Valid()
    reads c, c.table
  {
    c.Delivers(all - done) && done <= all
  }

  lemma SplitStep(c: Cursor, all: set<Key>, done: set<Key>)
    requires c.Valid() && Split(c, all, done) && c.avail
    ensures c.Here() && c.key in c.table.rows && c.key in all && c.key !in done
    ensures c.Ahead() == all - (done + {c.key})
  {
  }

  method SelectAll(c: Cursor, t: Tuple) returns (out: seq<Row>)
    requires c.Valid()
    modifies c
    ensures c.Valid() && EachOnce(c.table.layout, c.table.rows, PathKeys(c.table.layout, c.sem, t, c.path, c.table.rows), out)
  {
    c.Reset(t);
    out := [];
    ghost var all, done := c.OnThisPath(), {};
    assert all - done == all;
    while c.avail
      invariant c.Valid() && Split(c, all, done)
      invariant EachOnce(c.table.layout, c.table.rows, done, out)
      decreases all - done
    {
      SplitStep(c, all, done);
      OneMore(c.table.layout, c.table.rows, done, out, c.key);
      out, done := out + [c.row], done + {c.key};
      c.Advance();
    }
    assert done == all;
  }

  /** One turn of the delete loop: the row is copied out, deleted, and left behind. */
  method DeleteOne(c: Cursor) returns (deleted: Row)
    requires c.Valid() && c.Here()
    modifies c, c.table
    ensures c.Valid() && c.tuple == old(c.tuple)
    ensures old(Exact(c.table.layout, c.table.Now())) ==> Exact(c.table.layout, c.table.Now())
    ensures deleted == old(c.table.rows[c.key]) && c.table.rows == old(c.table.rows) - {old(c.key)}
    ensures c.Delivers(old(c.Ahead()))
  {
    deleted := c.row;
    c.DeleteRow();
    c.Advance();
  }

  /** Deletes the rows of the path one by one and hands them back. */
  method DeleteAll(c: Cursor, t: Tuple) returns (deleted: seq<Row>)
    requires c.Valid()
    modifies c, c.table
    ensures c.Valid() && (old(Exact(c.table.layout, c.table.Now())) ==> Exact(c.table.layout, c.table.Now()))
    ensures var keys := old(PathKeys(c.table.layout, c.sem, t, c.path, c.table.rows));
            && EachOnce(c.table.layout, old(c.table.rows), keys, deleted)
            && c.table.rows == old(c.table.rows) - keys
  {
    hide EachOnce, Exact, PathKeys, Cursor.Ahead, Cursor.Here, Cursor.Placed, KeyOf;
    NoneYet(c.table.layout, c.table.rows);
    c.Reset(t);
    deleted := [];
    ghost var rows, all, done := c.table.rows, c.OnThisPath(), {};
    assert all - done == all;
    while c.avail
      invariant c.Valid() && (old(Exact(c.table.layout, c.table.Now())) ==> Exact(c.table.layout, c.table.Now()))
      invariant Split(c, all, done) && c.table.rows == rows - done
      invariant EachOnce(c.table.layout, rows, done, deleted)
      decreases all - done
    {
      SplitStep(c, all, done);
      OneMore(c.table.layout, rows, done, deleted, c.key);
      done := done + {c.key};
      var row := DeleteOne(c);
      deleted := deleted + [row];
    }
    assert done == all;
  }

  // ----- updates by scan or primary key

  /** The update makes rows of the rows at these keys... */
  ghost predicate MakesRows(layout: Layout, rows: map<Key, Row>, keys: set<Key>, update: (Tuple, Row) -> Row, t: Tuple) {
    forall k :: k in keys && k in rows ==> IsRow(layout, update(t, rows[k]))
  }

  /** ...gives each a key of its own... */
  ghost predicate NewKeysDistinct(layout: Layout, rows: map<Key, Row>, keys: set<Key>, update: (Tuple, Row) -> Row, t: Tuple)
    requires MakesRows(layout, rows, keys, update, t)
  {
    forall j, k :: j in keys && k in keys && j in rows && k in rows && j != k ==>
      KeyOf(layout, update(t, rows[j])) != KeyOf(layout, update(t, rows[k]))
  }

  /** A scan at k that puts the new row under its key does not meet it again, and does
      not lose a row it has yet to meet: the row stays, or goes back, or goes ahead to
      where nothing matches and does not match itself. */
  ghost predicate OutOfTheWay(layout: Layout, sem: Meaning, t: Tuple, where: Option<Clause>, keys: set<Key>, k: Key, row: Row)
    requires IsRow(layout, row) && (where.Some? ==> FieldsKnown(layout, where.value))
  {
    var k' := KeyOf(layout, row);
    k' == k || Less(k', k) || (k' !in keys && !Satisfies(layout, sem, t, where, row))
  }

  ghost predicate AllOutOfTheWay(layout: Layout, sem: Meaning, t: Tuple, where: Option<Clause>, rows: map<Key, Row>,
                                 keys: set<Key>, update: (Tuple, Row) -> Row)
    requires MakesRows(layout, rows, keys, update, t) && (where.Some? ==> FieldsKnown(layout, where.value))
  {
    forall k :: k in keys && k in rows ==> OutOfTheWay(layout, sem, t, where, keys, k, update(t, rows[k]))
  }

  /** The row does not take the key of a row that stays, or there is no index. */
  ghost predicate Spares(layout: Layout, rows: map<Key, Row>, keys: set<Key>, row: Row)
    requires IsRow(layout, row)
  {
    KeyOf(layout, row) in keys || KeyOf(layout, row) !in rows || layout.indexNames == []
  }

  /** ...takes none of them to the key of a row that stays. */
  ghost predicate TakesNoKey(layout: Layout, rows: map<Key, Row>, keys: set<Key>, update: (Tuple, Row) -> Row, t: Tuple)
    requires MakesRows(layout, rows, keys, update, t)
  {
    forall k :: k in keys && k in rows ==> Spares(layout, rows, keys, update(t, rows[k]))
  }

  ghost function NewKeys(layout: Layout, rows: map<Key, Row>, keys: set<Key>, update: (Tuple, Row) -> Row, t: Tuple): set<Key>
    requires MakesRows(layout, rows, keys, update, t)
  {
    set k | k in keys && k in rows :: KeyOf(layout, update(t, rows[k]))
  }

  /** rows' is the table with the rows at these keys updated, each under its new key,
      and every other row as it was unless its key was taken. */
  ghost predicate IsUpdated(layout: Layout, rows: map<Key, Row>, keys: set<Key>, update: (Tuple, Row) -> Row, t: Tuple,
                            rows': map<Key, Row>)
    requires MakesRows(layout, rows, keys, update, t)
  {
    && rows'.Keys == rows.Keys - keys + NewKeys(layout, rows, keys, update, t)
    && (forall k :: k in rows && k !in keys && k !in NewKeys(layout, rows, keys, update, t) ==> rows'[k] == rows[k])
    && forall k :: k in keys && k in rows ==>
         KeyOf(layout, update(t, rows[k])) in rows' && rows'[KeyOf(layout, update(t, rows[k]))] == update(t, rows[k])
  }

  lemma NothingUpdated(layout: Layout, rows: map<Key, Row>, update: (Tuple, Row) -> Row, t: Tuple)
    ensures IsUpdated(layout, rows, {}, update, t, rows)
  {
  }

  lemma OneMoreKey(layout: Layout, rows: map<Key, Row>, keys: set<Key>, k: Key, update: (Tuple, Row) -> Row, t: Tuple)
    requires k in rows && MakesRows(layout, rows, keys + {k}, update, t)
    ensures NewKeys(layout, rows, keys + {k}, update, t) ==
            NewKeys(layout, rows, keys, update, t) + {KeyOf(layout, update(t, rows[k]))}
    ensures forall j :: j in keys && j in rows ==> KeyOf(layout, update(t, rows[j])) in NewKeys(layout, rows, keys, update, t)
  {
    hide KeyOf;
  }

  /** One more row is updated that none of the rows before has been moved onto. */
  lemma OneMoreUpdated(layout: Layout, rows: map<Key, Row>, keys: set<Key>, k: Key, update: (Tuple, Row) -> Row, t: Tuple,
                       rows': map<Key, Row>)
    requires k in rows && k !in keys && MakesRows(layout, rows, keys + {k}, update, t)
    requires NewKeysDistinct(layout, rows, keys + {k}, update, t) && k !in NewKeys(layout, rows, keys, update, t)
    requires IsUpdated(layout, rows, keys, update, t, rows')
    ensures k in rows' && rows'[k] == rows[k]
    ensures var row := update(t, rows[k]);
            IsUpdated(layout, rows, keys + {k}, update, t, (rows' - {k})[KeyOf(layout, row) := row])
  {
    OthersStay(layout, rows, keys, k, update, t, rows');
    BeforeStays(layout, rows, keys, k, update, t, rows');
    hide KeyOf, NewKeys, NewKeysDistinct, IsRow, ValidLayout;
    var row := update(t, rows[k]);
    var next := (rows' - {k})[KeyOf(layout, row) := row];
    assert KeyOf(layout, row) in next && next[KeyOf(layout, row)] == row;
    forall j | j in keys + {k} && j in rows
      ensures KeyOf(layout, update(t, rows[j])) in next && next[KeyOf(layout, update(t, rows[j]))] == update(t, rows[j])
    {
      assert j == k || j in keys;
    }
  }

  lemma OthersStay(layout: Layout, rows: map<Key, Row>, keys: set<Key>, k: Key, update: (Tuple, Row) -> Row, t: Tuple,
                   rows': map<Key, Row>)
    requires k in rows && k !in keys && MakesRows(layout, rows, keys + {k}, update, t)
    requires k !in NewKeys(layout, rows, keys, update, t) && IsUpdated(layout, rows, keys, update, t, rows')
    ensures k in rows' && rows'[k] == rows[k]
    ensures var row := update(t, rows[k]);
            var next, after := (rows' - {k})[KeyOf(layout, row) := row], NewKeys(layout, rows, keys + {k}, update, t);
            && next.Keys == rows.Keys - (keys + {k}) + after
            && forall j :: j in rows && j !in keys + {k} && j !in after ==> next[j] == rows[j]
  {
    OneMoreKey(layout, rows, keys, k, update, t);
    hide KeyOf, NewKeys;
    var row := update(t, rows[k]);
    var before, after := NewKeys(layout, rows, keys, update, t), NewKeys(layout, rows, keys + {k}, update, t);
    var next := (rows' - {k})[KeyOf(layout, row) := row];
    assert next.Keys == rows'.Keys - {k} + {KeyOf(layout, row)};
    assert rows.Keys - (keys + {k}) == rows.Keys - keys - {k};
    forall j | j in rows && j !in keys + {k} && j !in after
      ensures next[j] == rows[j]
    {
      assert j in rows' && rows'[j] == rows[j];
    }
  }

  lemma BeforeStays(layout: Layout, rows: map<Key, Row>, keys: set<Key>, k: Key, update: (Tuple, Row) -> Row, t: Tuple,
                    rows': map<Key, Row>)
    requires k in rows && k !in keys && MakesRows(layout, rows, keys + {k}, update, t)
    requires NewKeysDistinct(layout, rows, keys + {k}, update, t) && k !in NewKeys(layout, rows, keys, update, t)
    requires IsUpdated(layout, rows, keys, update, t, rows')
    ensures var row := update(t, rows[k]);
            var next := (rows' - {k})[KeyOf(layout, row) := row];
            forall j :: j in keys && j in rows ==>
              KeyOf(layout, update(t, rows[j])) in next && next[KeyOf(layout, update(t, rows[j]))] == update(t, rows[j])
  {
    OneMoreKey(layout, rows, keys, k, update, t);
    hide KeyOf, NewKeys;
    forall j | j in keys && j in rows
      ensures KeyOf(layout, update(t, rows[j])) != KeyOf(layout, update(t, rows[k])) && KeyOf(layout, update(t, rows[j])) != k
    {
    }
  }

  lemma ReplaceRow(layout: Layout, db: Db, k: Key, row: Row)
    requires ValidDb(layout, db) && k in db.rows && IsRow(layout, row)
    ensures ValidDb(layout, Storage.DeleteRow(layout, db, k))
    ensures var k', db' := KeyOf(layout, row), Insert(layout, Storage.DeleteRow(layout, db, k), row);
            && ValidDb(layout, db') && db'.rows == (db.rows - {k})[k' := row]
            && (Exact(layout, db) ==> (Exact(layout, db') <==> k' == k || k' !in db.rows || layout.indexNames == []))
  {
    if Exact(layout, db) {
      DeleteKeepsExact(layout, db, k);
      InsertKeepsExactIff(layout, Storage.DeleteRow(layout, db, k), row);
    }
  }

  /** A row out of the way leaves what is ahead of the scan as it was. */
  lemma SameAhead(layout: Layout, sem: Meaning, t: Tuple, where: Option<Clause>, rows: map<Key, Row>, k: Key, row: Row)
    requires ValidRows(layout, rows) && (where.Some? ==> FieldsKnown(layout, where.value)) && IsRow(layout, row)
    requires OutOfTheWay(layout, sem, t, where, Beyond(layout, sem, t, where, rows, Some(k)), k, row)
    ensures ValidRows(layout, (rows - {k})[KeyOf(layout, row) := row])
    ensures Beyond(layout, sem, t, where, (rows - {k})[KeyOf(layout, row) := row], Some(k)) ==
            Beyond(layout, sem, t, where, rows, Some(k))
  {
    hide Less, Satisfies, KeyOf;
    LessTotal(k, k);
    LessTotal(k, KeyOf(layout, row));
  }

  /** One turn of the update loop: the old row is deleted, the new one inserted, and the
      cursor goes on from its key. */
  method UpdateOne(c: Cursor, update: (Tuple, Row) -> Row)
    requires c.Valid() && c.Here() && !c.path.IndexPath? && IsRow(c.table.layout, update(c.tuple, c.row))
    modifies c, c.table
    ensures c.Valid() && c.tuple == old(c.tuple)
    ensures var row := update(c.tuple, old(c.row));
            var k' := KeyOf(c.table.layout, row);
            && c.table.rows == (old(c.table.rows) - {old(c.key)})[k' := row]
            && (old(Exact(c.table.layout, c.table.Now())) ==>
                  (Exact(c.table.layout, c.table.Now()) <==>
                   k' == old(c.key) || k' !in old(c.table.rows) || c.table.layout.indexNames == []))
    ensures c.table.Now() == Insert(c.table.layout, Storage.DeleteRow(c.table.layout, old(c.table.Now()), old(c.key)),
                                    update(c.tuple, old(c.row)))
    ensures c.Delivers(if c.path.ScanPath?
                       then Beyond(c.table.layout, c.sem, c.tuple, c.path.where, c.table.rows, Some(old(c.key))) else {})
  {
    hide Exact, KeyOf, Insert, Storage.DeleteRow, Beyond, EachOnce, PathKeys, OnPath;
    var row := update(c.tuple, c.row);
    ghost var layout, db := c.table.layout, c.table.Now();
    ReplaceRow(layout, db, c.key, row);
    c.DeleteRow();
    c.table.InsertRow(row);
    c.Advance();
  }

  /** Nothing done lies ahead of anything left. */
  ghost predicate InOrder(all: set<Key>, done: set<Key>) {
    forall j, k :: j in done && k in all && k !in done ==> Less(j, k)
  }

  /** When an update does what it is to do: always by key path, by scan when rows get
      distinct keys that are out of its way. */
  ghost predicate UpdateIsRight(layout: Layout, sem: Meaning, t: Tuple, path: Path, rows: map<Key, Row>, keys: set<Key>,
                             update: (Tuple, Row) -> Row)
    requires ValidPath(layout, path) && MakesRows(layout, rows, keys, update, t)
  {
    path.ScanPath? ==>
      NewKeysDistinct(layout, rows, keys, update, t) && AllOutOfTheWay(layout, sem, t, path.where, rows, keys, update)
  }

  /** Where a scan stands: done is behind, k is next, the rest is ahead; and rows' is
      the table with done updated. */
  ghost predicate Midway(layout: Layout, sem: Meaning, rows: map<Key, Row>, where: Option<Clause>, all: set<Key>, done: set<Key>,
                         k: Key, update: (Tuple, Row) -> Row, t: Tuple, rows': map<Key, Row>)
    requires (where.Some? ==> FieldsKnown(layout, where.value)) && MakesRows(layout, rows, all, update, t)
  {
    && ValidRows(layout, rows') && all <= rows.Keys && done <= all && k in all && k !in done && InOrder(all, done)
    && NewKeysDistinct(layout, rows, all, update, t) && AllOutOfTheWay(layout, sem, t, where, rows, all, update)
    && IsUpdated(layout, rows, done, update, t, rows')
    && Beyond(layout, sem, t, where, rows', Some(k)) == all - (done + {k})
  }

  lemma NotMovedOnto(layout: Layout, sem: Meaning, rows: map<Key, Row>, where: Option<Clause>, all: set<Key>, done: set<Key>, k: Key,
                     update: (Tuple, Row) -> Row, t: Tuple, rows': map<Key, Row>)
    requires (where.Some? ==> FieldsKnown(layout, where.value)) && MakesRows(layout, rows, all, update, t)
    requires Midway(layout, sem, rows, where, all, done, k, update, t, rows')
    ensures k !in NewKeys(layout, rows, done, update, t)
  {
    hide KeyOf, Beyond, IsUpdated, Less, Satisfies;
    forall j | j in done
      ensures KeyOf(layout, update(t, rows[j])) != k
    {
      assert Less(j, k) && OutOfTheWay(layout, sem, t, where, all, j, update(t, rows[j]));
      LessTotal(j, k);
    }
  }

  lemma InOrderMore(layout: Layout, sem: Meaning, t: Tuple, where: Option<Clause>, rows: map<Key, Row>, all: set<Key>, done: set<Key>, k: Key)
    requires ValidRows(layout, rows) && (where.Some? ==> FieldsKnown(layout, where.value))
    requires InOrder(all, done) && Beyond(layout, sem, t, where, rows, Some(k)) == all - (done + {k})
    ensures InOrder(all, done + {k})
  {
    forall j | j in all && j !in done + {k}
      ensures Less(k, j)
    {
      assert j in Beyond(layout, sem, t, where, rows, Some(k));
    }
  }

  /** The new row has a key of its own, unless it takes that of a row that stays. */
  lemma KeyIsFree(layout: Layout, sem: Meaning, rows: map<Key, Row>, where: Option<Clause>, all: set<Key>, done: set<Key>, k: Key,
                  update: (Tuple, Row) -> Row, t: Tuple, rows': map<Key, Row>)
    requires (where.Some? ==> FieldsKnown(layout, where.value)) && MakesRows(layout, rows, all, update, t)
    requires Midway(layout, sem, rows, where, all, done, k, update, t, rows')
    ensures var k' := KeyOf(layout, update(t, rows[k]));
            k' !in NewKeys(layout, rows, done, update, t) && (k' == k || (k' in rows' <==> k' in rows && k' !in all))
  {
    hide KeyOf, Satisfies;
    var k' := KeyOf(layout, update(t, rows[k]));
    assert OutOfTheWay(layout, sem, t, where, all, k, update(t, rows[k]));
    assert k' !in NewKeys(layout, rows, done, update, t);
    if k' != k && k' in all {
      LessTotal(k, k');
      assert k' !in Beyond(layout, sem, t, where, rows', Some(k));
    }
  }

  lemma ScanTurn(layout: Layout, sem: Meaning, rows: map<Key, Row>, where: Option<Clause>, all: set<Key>, done: set<Key>, k: Key,
                 update: (Tuple, Row) -> Row, t: Tuple, rows': map<Key, Row>)
    requires (where.Some? ==> FieldsKnown(layout, where.value)) && MakesRows(layout, rows, all, update, t)
    requires Midway(layout, sem, rows, where, all, done, k, update, t, rows')
    ensures k in rows' && rows'[k] == rows[k] && InOrder(all, done + {k})
    ensures var row := update(t, rows[k]);
            var next := (rows' - {k})[KeyOf(layout, row) := row];
            && IsUpdated(layout, rows, done + {k}, update, t, next)
            && ValidRows(layout, next) && Beyond(layout, sem, t, where, next, Some(k)) == all - (done + {k})
  {
    InOrderMore(layout, sem, t, where, rows', all, done, k);
    ScanTurnUpdates(layout, sem, rows, where, all, done, k, update, t, rows');
    var row := update(t, rows[k]);
    assert OutOfTheWay(layout, sem, t, where, Beyond(layout, sem, t, where, rows', Some(k)), k, row);
    hide KeyOf, IsUpdated, Beyond, Less, Satisfies, InOrder, NewKeysDistinct, AllOutOfTheWay, OutOfTheWay, ValidRows, MakesRows;
    SameAhead(layout, sem, t, where, rows', k, row);
  }

  lemma FewerKeys(layout: Layout, rows: map<Key, Row>, all: set<Key>, keys: set<Key>, update: (Tuple, Row) -> Row, t: Tuple)
    requires keys <= all && MakesRows(layout, rows, all, update, t) && NewKeysDistinct(layout, rows, all, update, t)
    ensures MakesRows(layout, rows, keys, update, t) && NewKeysDistinct(layout, rows, keys, update, t)
  {
    hide KeyOf, IsRow;
  }

  lemma ScanTurnUpdates(layout: Layout, sem: Meaning, rows: map<Key, Row>, where: Option<Clause>, all: set<Key>, done: set<Key>,
                        k: Key, update: (Tuple, Row) -> Row, t: Tuple, rows': map<Key, Row>)
    requires (where.Some? ==> FieldsKnown(layout, where.value)) && MakesRows(layout, rows, all, update, t)
    requires Midway(layout, sem, rows, where, all, done, k, update, t, rows')
    ensures k in rows' && rows'[k] == rows[k]
    ensures var row := update(t, rows[k]);
            IsUpdated(layout, rows, done + {k}, update, t, (rows' - {k})[KeyOf(layout, row) := row])
  {
    NotMovedOnto(layout, sem, rows, where, all, done, k, update, t, rows');
    FewerKeys(layout, rows, all, done + {k}, update, t);
    hide KeyOf, IsUpdated, Beyond, AllOutOfTheWay, NewKeys, InOrder, NewKeysDistinct, MakesRows, ValidRows;
    OneMoreUpdated(layout, rows, done, k, update, t, rows');
  }

  lemma KeyTurn(layout: Layout, sem: Meaning, rows: map<Key, Row>, path: Path, all: set<Key>, done: set<Key>, k: Key,
                update: (Tuple, Row) -> Row, t: Tuple, rows': map<Key, Row>)
    requires ValidRows(layout, rows) && ValidPath(layout, path) && path.KeyPath?
    requires all == PathKeys(layout, sem, t, path, rows) && done <= all && k in all && k !in done
    requires MakesRows(layout, rows, all, update, t) && IsUpdated(layout, rows, done, update, t, rows')
    ensures all == {k} && all - (done + {k}) == {} && rows' == rows && InOrder(all, done + {k})
    ensures NewKeys(layout, rows, done, update, t) == {}
    ensures var row := update(t, rows[k]);
            IsUpdated(layout, rows, done + {k}, update, t, (rows' - {k})[KeyOf(layout, row) := row])
  {
    assert forall j :: j in all ==> j == k;
    assert done == {} && all == {k};
    assert NewKeys(layout, rows, {}, update, t) == {};
    assert rows' == rows;
    hide KeyOf, PathKeys;
    OneMoreUpdated(layout, rows, {}, k, update, t, rows);
  }

  lemma ScanAhead(c: Cursor)
    requires c.Valid() && c.path.ScanPath?
    ensures c.Ahead() == Beyond(c.table.layout, c.sem, c.tuple, c.path.where, c.table.rows, Some(c.key))
  {
  }

  lemma PathKeysIn(layout: Layout, sem: Meaning, t: Tuple, path: Path, rows: map<Key, Row>)
    requires ValidRows(layout, rows) && ValidPath(layout, path)
    ensures PathKeys(layout, sem, t, path, rows) <= rows.Keys
  {
  }

  // ----- pairs an update leaves behind

  /** The first index does not hold the pairs of key m as the rows ask for them. */
  ghost predicate StaleAt(layout: Layout, db: Db, m: Key)
    requires ValidDb(layout, db)
  {
    && layout.indexNames != []
    && exists s :: Count(db.indexes[0], s, m) != Wanted(layout, db.rows, layout.indexNames[0], s, m)
  }

  lemma ExactIsNotStale(layout: Layout, db: Db, m: Key)
    requires ValidDb(layout, db) && Exact(layout, db)
    ensures !StaleAt(layout, db, m)
  {
    hide Count, Wanted;
    if layout.indexNames != [] {
      assert IndexExact(layout, db.rows, layout.indexNames[0], db.indexes[0]);
    }
  }

  lemma OverwriteIsStale(layout: Layout, db: Db, row: Row)
    requires ValidDb(layout, db) && IsRow(layout, row) && Exact(layout, db)
    requires KeyOf(layout, row) in db.rows && layout.indexNames != []
    ensures ValidDb(layout, Insert(layout, db, row)) && StaleAt(layout, Insert(layout, db, row), KeyOf(layout, row))
  {
    var k, db' := KeyOf(layout, row), Insert(layout, db, row);
    var f := layout.indexNames[0];
    var s, s' := FieldOf(layout, db.rows[k], f), FieldOf(layout, row, f);
    assert IndexExact(layout, db.rows, f, db.indexes[0]);
    IndexPutCounts(db.indexes[0], s', k);
    assert Count(db'.indexes[0], s, k) == if s == s' then 2 else 1;
    assert Wanted(layout, db'.rows, f, s, k) == if s == s' then 1 else 0;
  }

  /** Turns about other keys leave it so. */
  lemma StaysStale(layout: Layout, db: Db, k: Key, row: Row, m: Key)
    requires ValidDb(layout, db) && k in db.rows && IsRow(layout, row) && m != k && m != KeyOf(layout, row)
    requires StaleAt(layout, db, m)
    ensures ValidDb(layout, Storage.DeleteRow(layout, db, k))
    ensures var db' := Insert(layout, Storage.DeleteRow(layout, db, k), row); ValidDb(layout, db') && StaleAt(layout, db', m)
  {
    hide Count, KeyOf, FieldOf;
    var f := layout.indexNames[0];
    assert f in layout.indexNames;
    var s :| Count(db.indexes[0], s, m) != Wanted(layout, db.rows, f, s, m);
    SameCount(layout, db, k, row, m, s);
    ReplaceRow(layout, db, k, row);
    hide Storage.DeleteRow, Insert;
    var db' := Insert(layout, Storage.DeleteRow(layout, db, k), row);
    assert Wanted(layout, db'.rows, f, s, m) == Wanted(layout, db.rows, f, s, m);
  }

  lemma SameCount(layout: Layout, db: Db, k: Key, row: Row, m: Key, s: Bytes)
    requires ValidDb(layout, db) && k in db.rows && IsRow(layout, row) && m != k && m != KeyOf(layout, row)
    requires layout.indexNames != []
    ensures ValidDb(layout, Storage.DeleteRow(layout, db, k))
    ensures Count(Insert(layout, Storage.DeleteRow(layout, db, k), row).indexes[0], s, m) == Count(db.indexes[0], s, m)
  {
    var f := layout.indexNames[0];
    assert f in layout.indexNames;
    var without := Storage.DeleteRow(layout, db, k);
    IndexDeleteCounts(db.indexes[0], FieldOf(layout, db.rows[k], f), k);
    IndexPutCounts(without.indexes[0], FieldOf(layout, row, f), KeyOf(layout, row));
    hide KeyOf, FieldOf, Count, IndexPut, IndexDelete;
  }

  /** One turn from exact indexes: exact again, or a pair left behind at the new key. */
  lemma TurnFromExact(layout: Layout, db: Db, k: Key, row: Row)
    requires ValidDb(layout, db) && k in db.rows && IsRow(layout, row) && Exact(layout, db)
    requires KeyOf(layout, row) != k && KeyOf(layout, row) in db.rows && layout.indexNames != []
    ensures ValidDb(layout, Storage.DeleteRow(layout, db, k))
    ensures var db' := Insert(layout, Storage.DeleteRow(layout, db, k), row);
            ValidDb(layout, db') && StaleAt(layout, db', KeyOf(layout, row))
  {
    DeleteKeepsExact(layout, db, k);
    OverwriteIsStale(layout, Storage.DeleteRow(layout, db, k), row);
  }

  ghost predicate SparedBy(layout: Layout, rows: map<Key, Row>, all: set<Key>, done: set<Key>, update: (Tuple, Row) -> Row, t: Tuple)
    requires done <= all && MakesRows(layout, rows, all, update, t)
  {
    forall k :: k in done && k in rows ==> Spares(layout, rows, all, update(t, rows[k]))
  }

  /** The indexes after the rows of done: exact, or with a pair left behind at a key
      that no other turn is about. */
  ghost predicate IndexesAfter(layout: Layout, rows: map<Key, Row>, all: set<Key>, done: set<Key>, update: (Tuple, Row) -> Row,
                               t: Tuple, db: Db)
    requires ValidDb(layout, db) && done <= all && MakesRows(layout, rows, all, update, t)
  {
    if SparedBy(layout, rows, all, done, update, t) then Exact(layout, db)
    else exists m :: StaleAt(layout, db, m) && m !in all && m in NewKeys(layout, rows, done, update, t)
  }

  /** While every row has spared the others... */
  lemma IndexesStillExact(layout: Layout, rows: map<Key, Row>, all: set<Key>, k: Key, row: Row, db: Db)
    requires ValidDb(layout, db) && k in all && k in db.rows && IsRow(layout, row) && Exact(layout, db)
    requires KeyOf(layout, row) == k || (KeyOf(layout, row) in db.rows <==> KeyOf(layout, row) in rows && KeyOf(layout, row) !in all)
    ensures ValidDb(layout, Storage.DeleteRow(layout, db, k))
    ensures var db' := Insert(layout, Storage.DeleteRow(layout, db, k), row);
            && ValidDb(layout, db')
            && if Spares(layout, rows, all, row) then Exact(layout, db')
               else StaleAt(layout, db', KeyOf(layout, row)) && KeyOf(layout, row) !in all
  {
    ReplaceRow(layout, db, k, row);
    if !Spares(layout, rows, all, row) {
      hide KeyOf, Exact, StaleAt, Insert, Storage.DeleteRow;
      TurnFromExact(layout, db, k, row);
    }
  }

  lemma SparedMore(layout: Layout, rows: map<Key, Row>, all: set<Key>, done: set<Key>, k: Key, update: (Tuple, Row) -> Row, t: Tuple)
    requires done <= all && k in all && k in rows && MakesRows(layout, rows, all, update, t)
    ensures SparedBy(layout, rows, all, done + {k}, update, t) <==>
            SparedBy(layout, rows, all, done, update, t) && Spares(layout, rows, all, update(t, rows[k]))
  {
    hide Spares;
  }

  lemma IndexesMore(layout: Layout, rows: map<Key, Row>, all: set<Key>, done: set<Key>, k: Key, update: (Tuple, Row) -> Row,
                    t: Tuple, db: Db)
    requires ValidDb(layout, db) && done <= all && k in all && k in rows && MakesRows(layout, rows, all, update, t)
    requires k in db.rows && IndexesAfter(layout, rows, all, done, update, t, db)
    requires var k' := KeyOf(layout, update(t, rows[k]));
             && k' !in NewKeys(layout, rows, done, update, t)
             && (k' == k || (k' in db.rows <==> k' in rows && k' !in all))
    ensures ValidDb(layout, Storage.DeleteRow(layout, db, k))
    ensures var db' := Insert(layout, Storage.DeleteRow(layout, db, k), update(t, rows[k]));
            ValidDb(layout, db') && IndexesAfter(layout, rows, all, done + {k}, update, t, db')
  {
    var row := update(t, rows[k]);
    OneMoreKey(layout, rows, done, k, update, t);
    SparedMore(layout, rows, all, done, k, update, t);
    hide KeyOf, Exact, StaleAt, Insert, Storage.DeleteRow, NewKeys, Spares, SparedBy, IsRow, ValidDb;
    if SparedBy(layout, rows, all, done, update, t) {
      IndexesStillExact(layout, rows, all, k, row, db);
    } else {
      var m :| StaleAt(layout, db, m) && m !in all && m in NewKeys(layout, rows, done, update, t);
      StaysStale(layout, db, k, row, m);
    }
  }

  method WholeUpdate(c: Cursor, update: (Tuple, Row) -> Row, t: Tuple) returns (replaced: seq<Row>)
    requires c.Valid() && !c.path.IndexPath?
    requires var layout, keys := c.table.layout, PathKeys(c.table.layout, c.sem, t, c.path, c.table.rows);
             && MakesRows(layout, c.table.rows, keys, update, t)
             && UpdateIsRight(layout, c.sem, t, c.path, c.table.rows, keys, update)
    modifies c, c.table
    ensures c.Valid()
    ensures var layout, keys := c.table.layout, old(PathKeys(c.table.layout, c.sem, t, c.path, c.table.rows));
            && EachOnce(layout, old(c.table.rows), keys, replaced)
            && IsUpdated(layout, old(c.table.rows), keys, update, t, c.table.rows)
            && (old(Exact(layout, c.table.Now())) ==>
                  (Exact(layout, c.table.Now()) <==> TakesNoKey(layout, old(c.table.rows), keys, update, t)))
  {
    hide EachOnce, Exact, PathKeys, Cursor.Ahead, Cursor.Here, Cursor.Placed, KeyOf, IsUpdated;
    NoneYet(c.table.layout, c.table.rows);
    c.Reset(t);
    replaced := [];
    ghost var layout, rows, all, done := c.table.layout, c.table.rows, c.OnThisPath(), {};
    ghost var exact := Exact(layout, c.table.Now());
    assert all - done == all;
    assert all <= rows.Keys by {
      PathKeysIn(layout, c.sem, t, c.path, rows);
    }
    NothingUpdated(layout, rows, update, t);
    while c.avail
      invariant c.Valid() && Split(c, all, done) && c.tuple == t && InOrder(all, done)
      invariant exact ==> IndexesAfter(layout, rows, all, done, update, t, c.table.Now())
      invariant IsUpdated(layout, rows, done, update, t, c.table.rows)
      invariant EachOnce(layout, rows, done, replaced)
      decreases all - done
    {
      SplitStep(c, all, done);
      if c.path.ScanPath? {
        ScanAhead(c);
        ScanTurn(layout, c.sem, rows, c.path.where, all, done, c.key, update, t, c.table.rows);
        KeyIsFree(layout, c.sem, rows, c.path.where, all, done, c.key, update, t, c.table.rows);
      } else {
        KeyTurn(layout, c.sem, rows, c.path, all, done, c.key, update, t, c.table.rows);
      }
      OneMore(layout, rows, done, replaced, c.key);
      if exact {
        IndexesMore(layout, rows, all, done, c.key, update, t, c.table.Now());
      }
      replaced, done := replaced + [c.row], done + {c.key};
      UpdateOne(c, update);
    }
    assert done == all;
    if exact {
      IndexesAtLast(layout, rows, all, update, t, c.table.Now());
    }
  }

  lemma IndexesAtLast(layout: Layout, rows: map<Key, Row>, all: set<Key>, update: (Tuple, Row) -> Row, t: Tuple, db: Db)
    requires ValidDb(layout, db) && MakesRows(layout, rows, all, update, t)
    requires IndexesAfter(layout, rows, all, all, update, t, db)
    ensures Exact(layout, db) <==> TakesNoKey(layout, rows, all, update, t)
  {
    hide Exact, StaleAt, Spares;
    if !TakesNoKey(layout, rows, all, update, t) {
      var m :| StaleAt(layout, db, m) && m !in all && m in NewKeys(layout, rows, all, update, t);
      if Exact(layout, db) {
        ExactIsNotStale(layout, db, m);
      }
    }
  }

  /** What one turn of the loop does when the update may move the row to another key:
      a scan meets the new row again exactly when it lies ahead and satisfies the where
      clause; another row is lost exactly when its key is taken; and then, if there is
      an index, its entry stays behind. */
  lemma MovedRow(layout: Layout, sem: Meaning, t: Tuple, where: Option<Clause>, db: Db, k: Key, row: Row)
    requires ValidDb(layout, db) && Exact(layout, db) && k in db.rows && IsRow(layout, row)
    requires where.Some? ==> FieldsKnown(layout, where.value)
    ensures var k', db' := KeyOf(layout, row), Insert(layout, Storage.DeleteRow(layout, db, k), row);
            && ValidDb(layout, db')
            && (k' in Beyond(layout, sem, t, where, db'.rows, Some(k)) <==>
                Less(k, k') && Satisfies(layout, sem, t, where, row))
            && (|db'.rows| == |db.rows| <==> k' == k || k' !in db.rows)
            && (Exact(layout, db') <==> k' == k || k' !in db.rows || layout.indexNames == [])
  {
    var k', without := KeyOf(layout, row), Storage.DeleteRow(layout, db, k);
    DeleteKeepsExact(layout, db, k);
    InsertKeepsExactIff(layout, without, row);
    var db' := Insert(layout, without, row);
    assert db.rows.Keys == without.rows.Keys + {k};
    assert db'.rows.Keys == without.rows.Keys + {k'};
    assert |without.rows.Keys| == |db.rows.Keys| - 1;
  }

  // ----- statements

  ghost predicate ValidWhere(layout: Layout, sem: Meaning, t: Tuple, where: Option<Clause>) {
    && Distinct(layout.keyNames) && NamesKnown(layout, where)
    && (where.Some? ==> FieldsKnown(layout, where.value) && WidthsFit(layout, sem, t, where.value))
  }

  /** The where clauses for which the factory picks an index. */
  ghost predicate ByIndex(layout: Layout, where: Option<Clause>) {
    && where.Some? && where.value.FieldEq?
    && where.value.field in layout.indexNames && layout.lookupNames != [where.value.field]
  }

  /** The where clauses for which it picks the primary key. */
  ghost predicate ByKey(layout: Layout, where: Option<Clause>) {
    where.Some? && FillsKeyAlone(layout, where.value)
  }

  /** Whatever cursor is picked, a select delivers each row that meets all leaves of the
      where clause exactly once, and without a where clause every row. */
  method Select(table: Table, sem: Meaning, where: Option<Clause>, t: Tuple) returns (out: seq<Row>)
    requires table.Valid() && ValidWhere(table.layout, sem, t, where)
    requires ByIndex(table.layout, where) ==> Exact(table.layout, table.Now())
    ensures EachOnce(table.layout, table.rows, MeetingKeys(table.layout, sem, t, where, table.rows), out)
    ensures where.None? ==> EachOnce(table.layout, table.rows, table.rows.Keys, out)
  {
    assert where.None? ==> MeetingKeys(table.layout, sem, t, where, table.rows) == table.rows.Keys;
    hide EachOnce, Exact;
    var path := CursorFactory(table.layout, where);
    PathFindsMatches(table.layout, sem, t, where, path, table.rows);
    var c := new Cursor(table, sem, path);
    out := SelectAll(c, t);
  }

  /** Whatever cursor is picked, a delete removes exactly the rows that meet all leaves of
      the where clause, hands back each once, and leaves exact indexes exact. */
  method Delete(table: Table, sem: Meaning, where: Option<Clause>, t: Tuple) returns (deleted: seq<Row>)
    requires table.Valid() && ValidWhere(table.layout, sem, t, where)
    requires ByIndex(table.layout, where) ==> Exact(table.layout, table.Now())
    modifies table
    ensures table.Valid() && (old(Exact(table.layout, table.Now())) ==> Exact(table.layout, table.Now()))
    ensures var keys := old(MeetingKeys(table.layout, sem, t, where, table.rows));
            && EachOnce(table.layout, old(table.rows), keys, deleted)
            && table.rows == old(table.rows) - keys
  {
    var path := CursorFactory(table.layout, where);
    PathFindsMatches(table.layout, sem, t, where, path, table.rows);
    var c := new Cursor(table, sem, path);
    deleted := DeleteAll(c, t);
  }

  /** By primary key an update is right wherever it moves its one row; by scan when the
      matching rows get distinct keys that are out of its way.  It ends, replaces each
      row that satisfies the where clause exactly once, and leaves exact indexes exact
      unless a row takes the key of one that stays. */
  method Update(table: Table, sem: Meaning, where: Option<Clause>, update: (Tuple, Row) -> Row, t: Tuple)
    returns (replaced: seq<Row>)
    requires table.Valid() && ValidWhere(table.layout, sem, t, where) && !ByIndex(table.layout, where)
    requires var layout, keys := table.layout, MeetingKeys(table.layout, sem, t, where, table.rows);
             && MakesRows(layout, table.rows, keys, update, t)
             && (!ByKey(layout, where) ==>
                   && NewKeysDistinct(layout, table.rows, keys, update, t)
                   && AllOutOfTheWay(layout, sem, t, where, table.rows, keys, update))
    modifies table
    ensures table.Valid()
    ensures var layout, keys := table.layout, old(MeetingKeys(table.layout, sem, t, where, table.rows));
            && EachOnce(layout, old(table.rows), keys, replaced)
            && IsUpdated(layout, old(table.rows), keys, update, t, table.rows)
            && (old(Exact(layout, table.Now())) ==>
                  (Exact(layout, table.Now()) <==> TakesNoKey(layout, old(table.rows), keys, update, t)))
  {
    hide EachOnce, Exact, MatchingKeys, MeetingKeys, PathKeys, KeyOf, IsUpdated, NewKeysDistinct, AllOutOfTheWay;
    var path := CursorFactory(table.layout, where);
    PathFindsMatches(table.layout, sem, t, where, path, table.rows);
    var c := new Cursor(table, sem, path);
    replaced := WholeUpdate(c, update, t);
  }

  // ----- the delete box

  /** The keys of the rows that meet the where clause of some input tuple. */
  ghost function MetByAny(layout: Layout, sem: Meaning, inputs: seq<Tuple>, where: Option<Clause>, rows: map<Key, Row>): set<Key>
    requires ValidRows(layout, rows)
  {
    set k | k in rows && exists i :: 0 <= i < |inputs| && Meets(layout, sem, inputs[i], where, rows[k])
  }

  lemma OneMoreInput(layout: Layout, sem: Meaning, inputs: seq<Tuple>, n: nat, where: Option<Clause>, rows: map<Key, Row>)
    requires ValidRows(layout, rows) && n < |inputs|
    ensures MetByAny(layout, sem, inputs[..n + 1], where, rows) ==
            MetByAny(layout, sem, inputs[..n], where, rows) + MeetingKeys(layout, sem, inputs[n], where, rows)
  {
    hide Meets;
    var some, more := inputs[..n], inputs[..n + 1];
    assert more[n] == inputs[n] && forall i :: 0 <= i < n ==> some[i] == more[i];
  }

  lemma EachOnceJoin(layout: Layout, rows: map<Key, Row>, keys: set<Key>, out: seq<Row>, keys': set<Key>, out': seq<Row>)
    requires ValidRows(layout, rows) && EachOnce(layout, rows, keys, out)
    requires ValidRows(layout, rows - keys) && EachOnce(layout, rows - keys, keys', out')
    ensures EachOnce(layout, rows, keys + keys', out + out')
  {
    var both := out + out';
    forall k | k in keys + keys'
      ensures k in rows && rows[k] in both
    {
    }
    forall i, j | 0 <= i < j < |both|
      ensures both[i] != both[j]
    {
      if i < |out| <= j {
        assert KeyOf(layout, both[i]) in keys && KeyOf(layout, out'[j - |out|]) !in keys;
      }
    }
  }

  /** The rows deleted so far, and those one more tuple deletes of what is left. */
  lemma DeletedMore(layout: Layout, sem: Meaning, inputs: seq<Tuple>, n: nat, where: Option<Clause>, rows: map<Key, Row>,
                    keys: set<Key>, more: set<Key>, pass: bool, deletions: seq<Row>, deleted: seq<Row>)
    requires ValidRows(layout, rows) && n < |inputs| && (where.Some? ==> FieldsKnown(layout, where.value))
    requires keys == MetByAny(layout, sem, inputs[..n], where, rows)
    requires ValidRows(layout, rows - keys) && more == MeetingKeys(layout, sem, inputs[n], where, rows - keys)
    requires EachOnce(layout, rows - keys, more, deleted)
    requires if pass then EachOnce(layout, rows, keys, deletions) else deletions == []
    ensures keys + more == MetByAny(layout, sem, inputs[..n + 1], where, rows)
    ensures rows - keys - more == rows - (keys + more)
    ensures pass ==> EachOnce(layout, rows, keys + more, deletions + deleted)
  {
    OneMoreInput(layout, sem, inputs, n, where, rows);
    FewerMatch(layout, sem, inputs[n], where, rows, keys);
    hide EachOnce, MeetingKeys, MetByAny;
    if pass {
      EachOnceJoin(layout, rows, keys, deletions, more, deleted);
    }
  }

  /** Over a whole batch of input tuples the rows deleted are those that meet the where
      clause of some tuple, and each is passed on once. */
  method DeleteBox(table: Table, sem: Meaning, where: Option<Clause>, inputs: seq<Tuple>, passDeletions: bool, passInput: bool)
    returns (deletions: seq<Row>, passed: seq<Tuple>)
    requires table.Valid() && (ByIndex(table.layout, where) ==> Exact(table.layout, table.Now()))
    requires forall t :: t in inputs ==> ValidWhere(table.layout, sem, t, where)
    requires where.Some? ==> FieldsKnown(table.layout, where.value)
    modifies table
    ensures table.Valid() && (old(Exact(table.layout, table.Now())) ==> Exact(table.layout, table.Now()))
    ensures var keys := old(MetByAny(table.layout, sem, inputs, where, table.rows));
            && table.rows == old(table.rows) - keys
            && (if passDeletions then EachOnce(table.layout, old(table.rows), keys, deletions) else deletions == [])
    ensures passed == if passInput then inputs else []
  {
    assert MetByAny(table.layout, sem, inputs[..0], where, table.rows) == {};
    hide EachOnce, Exact, MatchingKeys, MeetingKeys, MetByAny, ValidWhere;
    deletions, passed := [], [];
    ghost var layout, rows, keys := table.layout, table.rows, {};
    NoneYet(layout, rows);
    var i := 0;
    while i < |inputs|
      invariant 0 <= i <= |inputs|
      invariant table.Valid() && (old(Exact(layout, table.Now())) ==> Exact(layout, table.Now()))
      invariant keys == MetByAny(layout, sem, inputs[..i], where, rows) && table.rows == rows - keys
      invariant if passDeletions then EachOnce(layout, rows, keys, deletions) else deletions == []
      invariant passed == if passInput then inputs[..i] else []
    {
      assert inputs[..i + 1] == inputs[..i] + [inputs[i]];
      if passInput {
        passed := passed + [inputs[i]];
      }
      ghost var more := MeetingKeys(layout, sem, inputs[i], where, table.rows);
      var deleted := Delete(table, sem, where, inputs[i]);
      DeletedMore(layout, sem, inputs, i, where, rows, keys, more, passDeletions, deletions, deleted);
      if passDeletions {
        deletions := deletions + deleted;
      }
      keys := keys + more;
      i := i + 1;
    }
    assert inputs[..i] == inputs;
  }

  lemma FewerMatch(layout: Layout, sem: Meaning, t: Tuple, where: Option<Clause>, rows: map<Key, Row>, keys: set<Key>)
    requires ValidRows(layout, rows) && (where.Some? ==> FieldsKnown(layout, where.value))
    ensures ValidRows(layout, rows - keys)
    ensures MeetingKeys(layout, sem, t, where, rows - keys) == MeetingKeys(layout, sem, t, where, rows) - keys
  {
  }
}
