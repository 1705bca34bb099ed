/**
  Updates by scan, turn by turn: a run of the loop goes from one matching row to the
  next, whatever rows it has moved on the way, and may not end.
*/
module ScanUpdates {
  import opened Basics
  import opened Storage
  import opened WhereClause
  import opened AccessPaths
  import opened TableCursors
  import opened Statements

  /** What an update by scan is about. */
  datatype Scan = Scan(layout: Layout, sem: Meaning, t: Tuple, where: Option<Clause>, update: (Tuple, Row) -> Row)
  {
    ghost predicate Valid() {
      where.Some? ==> FieldsKnown(layout, where.value)
    }

    /** The rows ahead of a position that match. */
    ghost function Ahead(rows: map<Key, Row>, after: Option<Key>): set<Key>
      requires Valid() && ValidRows(layout, rows)
    {
      Beyond(layout, sem, t, where, rows, after)
    }
  }

  ghost function KeyAt(layout: Layout, row: Row): Key {
    if IsRow(layout, row) then KeyOf(layout, row) else []
  }

  /** Where the scan stands after n turns. */
  ghost function Position(layout: Layout, out: seq<Row>, n: nat): Option<Key>
    requires n <= |out|
  {
    if n == 0 then None else Some(KeyAt(layout, out[n - 1]))
  }

  /** Turn i takes the next row that matches and puts the new row under its key. */
  ghost predicate Turn(scan: Scan, rows: map<Key, Row>, after: Option<Key>, row: Row, rows': map<Key, Row>)
    requires scan.Valid()
  {
    && ValidRows(scan.layout, rows) && IsRow(scan.layout, row) && IsRow(scan.layout, scan.update(scan.t, row))
    && var k, row' := KeyAt(scan.layout, row), scan.update(scan.t, row);
       && IsLeast(k, scan.Ahead(rows, after)) && rows[k] == row
       && rows' == (rows - {k})[KeyAt(scan.layout, row') := row']
  }

  /** A run of turns: tables are the table before each and after the last. */
  ghost predicate Turns(scan: Scan, out: seq<Row>, tables: seq<map<Key, Row>>)
    requires scan.Valid()
  {
    && |tables| == |out| + 1 && (forall i :: 0 <= i < |out| ==> IsRow(scan.layout, out[i]))
    && (forall i :: 0 <= i < |tables| ==> ValidRows(scan.layout, tables[i]))
    && forall i :: 0 <= i < |out| ==> Turn(scan, tables[i], Position(scan.layout, out, i), out[i], tables[i + 1])
  }

  /** The run has come to its end: nothing that matches is ahead. */
  ghost predicate Over(scan: Scan, out: seq<Row>, tables: seq<map<Key, Row>>)
    requires scan.Valid() && Turns(scan, out, tables)
  {
    scan.Ahead(tables[|out|], Position(scan.layout, out, |out|)) == {}
  }

  ghost function Keys(scan: Scan, rows: map<Key, Row>): set<Key>
    requires scan.Valid() && ValidRows(scan.layout, rows)
  {
    MatchingKeys(scan.layout, scan.sem, scan.t, scan.where, rows)
  }

  /** Each matching row replaced once, and the table updated. */
  ghost predicate RightResult(scan: Scan, rows: map<Key, Row>, out: seq<Row>, rows': map<Key, Row>)
    requires scan.Valid() && ValidRows(scan.layout, rows) && MakesRows(scan.layout, rows, Keys(scan, rows), scan.update, scan.t)
  {
    && EachOnce(scan.layout, rows, Keys(scan, rows), out)
    && IsUpdated(scan.layout, rows, Keys(scan, rows), scan.update, scan.t, rows')
  }

  // ----- a row in the way

  lemma NextIsAhead(scan: Scan, out: seq<Row>, tables: seq<map<Key, Row>>, i: nat)
    requires scan.Valid() && Turns(scan, out, tables) && i + 1 < |out|
    ensures Less(KeyAt(scan.layout, out[i]), KeyAt(scan.layout, out[i + 1]))
  {
    assert Turn(scan, tables[i + 1], Position(scan.layout, out, i + 1), out[i + 1], tables[i + 2]);
  }

  lemma {:induction false} Ascending(scan: Scan, out: seq<Row>, tables: seq<map<Key, Row>>, i: nat, j: nat)
    requires scan.Valid() && Turns(scan, out, tables) && i < j < |out|
    ensures Less(KeyAt(scan.layout, out[i]), KeyAt(scan.layout, out[j]))
    decreases j
  {
    NextIsAhead(scan, out, tables, j - 1);
    if i < j - 1 {
      Ascending(scan, out, tables, i, j - 1);
      LessTransitive(KeyAt(scan.layout, out[i]), KeyAt(scan.layout, out[j - 1]), KeyAt(scan.layout, out[j]));
    }
  }

  /** A run that replaced each matching row once, with distinct new keys, in which turn i
      took the row at k. */
  ghost predicate OnceEach(scan: Scan, out: seq<Row>, tables: seq<map<Key, Row>>, i: nat, k: Key)
    requires scan.Valid()
  {
    && Turns(scan, out, tables) && i < |out| && KeyAt(scan.layout, out[i]) == k
    && var rows := tables[0]; var keys := Keys(scan, rows);
       && MakesRows(scan.layout, rows, keys, scan.update, scan.t)
       && NewKeysDistinct(scan.layout, rows, keys, scan.update, scan.t)
       && EachOnce(scan.layout, rows, keys, out)
  }

  lemma Took(scan: Scan, out: seq<Row>, tables: seq<map<Key, Row>>, i: nat, k: Key, m: nat)
    requires scan.Valid() && OnceEach(scan, out, tables, i, k) && m < |out|
    ensures var j := KeyAt(scan.layout, out[m]);
            j in Keys(scan, tables[0]) && j in tables[0] && tables[0][j] == out[m]
    ensures IsRow(scan.layout, scan.update(scan.t, out[m]))
  {
    hide KeyOf, Satisfies, NewKeysDistinct;
    assert IsRow(scan.layout, out[m]);
  }

  /** Another turn puts its row elsewhere. */
  lemma PutElsewhere(scan: Scan, out: seq<Row>, tables: seq<map<Key, Row>>, i: nat, k: Key, m: nat)
    requires scan.Valid() && OnceEach(scan, out, tables, i, k) && i < m < |out|
    ensures KeyAt(scan.layout, out[m]) != k
    ensures IsRow(scan.layout, scan.update(scan.t, out[i])) && IsRow(scan.layout, scan.update(scan.t, out[m]))
    ensures KeyAt(scan.layout, scan.update(scan.t, out[i])) != KeyAt(scan.layout, scan.update(scan.t, out[m]))
  {
    Ascending(scan, out, tables, i, m);
    LessTotal(k, KeyAt(scan.layout, out[m]));
    Took(scan, out, tables, i, k, i);
    Took(scan, out, tables, i, k, m);
    hide KeyOf, KeyAt, Less, Satisfies, MatchingKeys, EachOnce, Turns;
    var rows, j := tables[0], KeyAt(scan.layout, out[m]);
    assert KeyAt(scan.layout, scan.update(scan.t, rows[j])) != KeyAt(scan.layout, scan.update(scan.t, rows[k]));
  }

  lemma TurnPuts(scan: Scan, rows: map<Key, Row>, after: Option<Key>, row: Row, rows': map<Key, Row>, k': Key)
    requires scan.Valid() && Turn(scan, rows, after, row, rows')
    ensures var new' := KeyAt(scan.layout, scan.update(scan.t, row));
            && (k' == new' ==> k' in rows' && rows'[k'] == scan.update(scan.t, row))
            && (k' != new' && k' == KeyAt(scan.layout, row) ==> k' !in rows')
            && (k' != new' && k' != KeyAt(scan.layout, row) ==>
                  (k' in rows' <==> k' in rows) && (k' in rows ==> rows'[k'] == rows[k']))
  {
    hide KeyOf, KeyAt, IsLeast, ValidRows;
  }

  lemma TurnAt(scan: Scan, out: seq<Row>, tables: seq<map<Key, Row>>, n: nat)
    requires scan.Valid() && Turns(scan, out, tables) && n < |out|
    ensures Turn(scan, tables[n], Position(scan.layout, out, n), out[n], tables[n + 1])
  {
  }

  /** What turn m does to a key that row k was moved to before. */
  lemma LaterTurn(scan: Scan, out: seq<Row>, tables: seq<map<Key, Row>>, i: nat, k: Key, m: nat)
    requires scan.Valid() && OnceEach(scan, out, tables, i, k) && i < m < |out|
    ensures IsRow(scan.layout, scan.update(scan.t, out[i]))
    ensures var k' := KeyAt(scan.layout, scan.update(scan.t, out[i]));
            if KeyAt(scan.layout, out[m]) == k' then k' !in tables[m + 1]
            else (k' in tables[m + 1] <==> k' in tables[m]) && (k' in tables[m] ==> tables[m + 1][k'] == tables[m][k'])
  {
    PutElsewhere(scan, out, tables, i, k, m);
    TurnAt(scan, out, tables, m);
    var k' := KeyAt(scan.layout, scan.update(scan.t, out[i]));
    hide KeyOf, KeyAt, Turns, OnceEach, Turn;
    TurnPuts(scan, tables[m], Position(scan.layout, out, m), out[m], tables[m + 1], k');
  }

  /** Turn m, after turn i, takes the row at k'. */
  ghost predicate Retaken(layout: Layout, out: seq<Row>, i: nat, n: nat, k': Key)
    requires n <= |out|
  {
    exists m :: i < m < n && KeyAt(layout, out[m]) == k'
  }

  /** Until a later turn takes it, the new row stays where it was put; once taken,
      nothing comes back there. */
  ghost predicate StayedOrGone(scan: Scan, out: seq<Row>, tables: seq<map<Key, Row>>, i: nat, n: nat)
    requires i < |out| && n <= |out| < |tables|
  {
    var row' := scan.update(scan.t, out[i]);
    var k' := KeyAt(scan.layout, row');
    if Retaken(scan.layout, out, i, n, k') then k' !in tables[n] else k' in tables[n] && tables[n][k'] == row'
  }

  lemma {:induction false} StaysOrGoes(scan: Scan, out: seq<Row>, tables: seq<map<Key, Row>>, i: nat, k: Key, n: nat)
    requires scan.Valid() && OnceEach(scan, out, tables, i, k) && i < n <= |out|
    ensures StayedOrGone(scan, out, tables, i, n)
    decreases n
  {
    hide KeyOf, KeyAt, Satisfies, Turn, Beyond, EachOnce, MakesRows, NewKeysDistinct, Position, ValidRows, MatchingKeys;
    assert Turns(scan, out, tables);
    var row' := scan.update(scan.t, out[i]);
    if i + 1 == n {
      TurnAt(scan, out, tables, i);
      hide OnceEach, Turns;
      TurnPuts(scan, tables[i], Position(scan.layout, out, i), out[i], tables[n], KeyAt(scan.layout, row'));
    } else {
      StaysOrGoes(scan, out, tables, i, k, n - 1);
      LaterTurn(scan, out, tables, i, k, n - 1);
      hide Retaken, OnceEach, Turns;
      RetakenMore(scan.layout, out, i, n - 1, KeyAt(scan.layout, row'));
    }
  }

  lemma RetakenMore(layout: Layout, out: seq<Row>, i: nat, n: nat, k': Key)
    requires i < n < |out|
    ensures Retaken(layout, out, i, n + 1, k') <==> Retaken(layout, out, i, n, k') || KeyAt(layout, out[n]) == k'
  {
    hide KeyOf, KeyAt;
  }

  /** Every matching row has a turn, those ahead of k after that of k. */
  lemma TakenLater(scan: Scan, out: seq<Row>, tables: seq<map<Key, Row>>, i: nat, k: Key, k': Key)
    requires scan.Valid() && OnceEach(scan, out, tables, i, k) && k' in Keys(scan, tables[0]) && Less(k, k')
    ensures Retaken(scan.layout, out, i, |out|, k')
  {
    var m :| 0 <= m < |out| && out[m] == tables[0][k'];
    assert KeyAt(scan.layout, out[m]) == k';
    LessTotal(k, k');
    if m < i {
      Ascending(scan, out, tables, m, i);
    }
  }

  lemma NotRetaken(scan: Scan, out: seq<Row>, tables: seq<map<Key, Row>>, i: nat, k: Key, k': Key)
    requires scan.Valid() && OnceEach(scan, out, tables, i, k) && k' !in Keys(scan, tables[0])
    ensures !Retaken(scan.layout, out, i, |out|, k')
  {
    forall m | i < m < |out|
      ensures KeyAt(scan.layout, out[m]) != k'
    {
      Took(scan, out, tables, i, k, m);
    }
  }

  /** A matching row that was moved ahead is still ahead if no turn takes it. */
  lemma {:induction false} StaysAhead(scan: Scan, out: seq<Row>, tables: seq<map<Key, Row>>, i: nat, k: Key, n: nat)
    requires scan.Valid() && OnceEach(scan, out, tables, i, k) && i < n <= |out|
    requires IsRow(scan.layout, scan.update(scan.t, out[i]))
    requires var row' := scan.update(scan.t, out[i]); var k' := KeyAt(scan.layout, row');
             && Less(k, k') && !Retaken(scan.layout, out, i, n, k') && Satisfies(scan.layout, scan.sem, scan.t, scan.where, row')
    ensures KeyAt(scan.layout, scan.update(scan.t, out[i])) in scan.Ahead(tables[n], Position(scan.layout, out, n))
    decreases n
  {
    hide KeyOf, KeyAt, Satisfies, Turn, Less, Beyond, EachOnce, Retaken, MakesRows, NewKeysDistinct, Position, ValidRows;
    var row' := scan.update(scan.t, out[i]);
    var k' := KeyAt(scan.layout, row');
    StaysOrGoes(scan, out, tables, i, k, n);
    assert k' in tables[n] && tables[n][k'] == row';
    if i + 1 < n {
      RetakenMore(scan.layout, out, i, n - 1, k');
      StaysAhead(scan, out, tables, i, k, n - 1);
      TurnAt(scan, out, tables, n - 1);
      LeastFirst(scan, tables[n - 1], Position(scan.layout, out, n - 1), out[n - 1], tables[n], k');
    }
    assert Less(KeyAt(scan.layout, out[n - 1]), k') && ValidRows(scan.layout, tables[n]);
    IsAhead(scan, tables[n], KeyAt(scan.layout, out[n - 1]), k');
    PositionAfter(scan.layout, out, n);
  }

  lemma PositionAfter(layout: Layout, out: seq<Row>, n: nat)
    requires 0 < n <= |out|
    ensures Position(layout, out, n) == Some(KeyAt(layout, out[n - 1]))
  {
  }

  lemma IsAhead(scan: Scan, rows: map<Key, Row>, j: Key, k': Key)
    requires scan.Valid() && ValidRows(scan.layout, rows) && k' in rows && Less(j, k')
    requires Satisfies(scan.layout, scan.sem, scan.t, scan.where, rows[k'])
    ensures k' in scan.Ahead(rows, Some(j))
  {
  }

  /** The turn takes the least key ahead, so any other is still ahead of it. */
  lemma LeastFirst(scan: Scan, rows: map<Key, Row>, after: Option<Key>, row: Row, rows': map<Key, Row>, k': Key)
    requires scan.Valid() && Turn(scan, rows, after, row, rows')
    requires k' in scan.Ahead(rows, after) && KeyAt(scan.layout, row) != k'
    ensures Less(KeyAt(scan.layout, row), k')
  {
    hide KeyOf, KeyAt, Satisfies;
  }

  /** A row in the way of the scan is met again, or its place is lost: no run of turns
      comes to the right result. */
  lemma InTheWay(scan: Scan, out: seq<Row>, tables: seq<map<Key, Row>>, i: nat, k: Key)
    requires scan.Valid() && OnceEach(scan, out, tables, i, k) && Over(scan, out, tables)
    requires IsUpdated(scan.layout, tables[0], Keys(scan, tables[0]), scan.update, scan.t, tables[|out|])
    ensures IsRow(scan.layout, scan.update(scan.t, out[i]))
    ensures OutOfTheWay(scan.layout, scan.sem, scan.t, scan.where, Keys(scan, tables[0]), k, scan.update(scan.t, out[i]))
  {
    var n, row' := |out|, scan.update(scan.t, out[i]);
    Took(scan, out, tables, i, k, i);
    StaysOrGoes(scan, out, tables, i, k, n);
    var k' := KeyAt(scan.layout, row');
    assert k' in tables[n];
    LessTotal(k, k');
    if Less(k, k') {
      if k' in Keys(scan, tables[0]) {
        TakenLater(scan, out, tables, i, k, k');
      } else {
        NotRetaken(scan, out, tables, i, k, k');
        if Satisfies(scan.layout, scan.sem, scan.t, scan.where, row') {
          StaysAhead(scan, out, tables, i, k, n);
        }
      }
    }
  }

  // ----- otherwise the run comes to the right result

  lemma BeyondLeast(scan: Scan, rows: map<Key, Row>, after: Option<Key>, k: Key)
    requires scan.Valid() && ValidRows(scan.layout, rows) && IsLeast(k, scan.Ahead(rows, after))
    ensures k in rows && scan.Ahead(rows, Some(k)) == scan.Ahead(rows, after) - {k}
  {
    forall j | j in rows
      ensures j in scan.Ahead(rows, Some(k)) <==> j in scan.Ahead(rows, after) && j != k
    {
      LessTotal(k, j);
      if after.Some? && Less(k, j) {
        LessTransitive(after.value, k, j);
      }
    }
  }

  lemma TurnsMore(scan: Scan, out: seq<Row>, tables: seq<map<Key, Row>>, row: Row, rows': map<Key, Row>)
    requires scan.Valid() && Turns(scan, out, tables) && ValidRows(scan.layout, rows')
    requires Turn(scan, tables[|out|], Position(scan.layout, out, |out|), row, rows')
    ensures Turns(scan, out + [row], tables + [rows'])
    ensures Position(scan.layout, out + [row], |out| + 1) == Some(KeyAt(scan.layout, row))
  {
    assert IsRow(scan.layout, row);
    hide Turn, ValidRows, IsRow, KeyAt, KeyOf, Beyond;
    assert forall i :: 0 <= i < |out| ==> IsRow(scan.layout, out[i]);
    assert forall i :: 0 <= i < |tables| ==> ValidRows(scan.layout, tables[i]);
    var out', tables' := out + [row], tables + [rows'];
    forall i | 0 <= i < |out'|
      ensures Turn(scan, tables'[i], Position(scan.layout, out', i), out'[i], tables'[i + 1])
    {
      TurnOfMore(scan, out, tables, row, rows', i);
    }
    forall i | 0 <= i < |out'|
      ensures IsRow(scan.layout, out'[i])
    {
      AppendedAt(out, row, i);
    }
    forall i | 0 <= i < |tables'|
      ensures ValidRows(scan.layout, tables'[i])
    {
      AppendedAt(tables, rows', i);
    }
    AppendedAt(out, row, |out|);
  }

  lemma TurnOfMore(scan: Scan, out: seq<Row>, tables: seq<map<Key, Row>>, row: Row, rows': map<Key, Row>, i: nat)
    requires scan.Valid() && Turns(scan, out, tables) && i <= |out|
    requires Turn(scan, tables[|out|], Position(scan.layout, out, |out|), row, rows')
    ensures Turn(scan, (tables + [rows'])[i], Position(scan.layout, out + [row], i), (out + [row])[i], (tables + [rows'])[i + 1])
  {
    assert |tables| == |out| + 1;
    SamePosition(scan.layout, out, row, i);
    if i < |out| {
      TurnAt(scan, out, tables, i);
    }
    hide Turn, Position, Turns;
    AppendedAt(out, row, i);
    AppendedAt(tables, rows', i);
    AppendedAt(tables, rows', i + 1);
  }

  lemma AppendedAt<T>(s: seq<T>, x: T, i: nat)
    requires i <= |s|
    ensures (s + [x])[i] == if i < |s| then s[i] else x
  {
  }

  lemma SamePosition(layout: Layout, out: seq<Row>, row: Row, i: nat)
    requires i <= |out|
    ensures Position(layout, out + [row], i) == Position(layout, out, i)
  {
    hide KeyAt;
  }

  /** Where a run stands that has done the rows at these keys and has the others ahead. */
  ghost predicate OnTheWay(scan: Scan, rows: map<Key, Row>, done: set<Key>, out: seq<Row>, tables: seq<map<Key, Row>>)
    requires scan.Valid() && ValidRows(scan.layout, rows)
    requires MakesRows(scan.layout, rows, Keys(scan, rows), scan.update, scan.t)
  {
    && Turns(scan, out, tables) && tables[0] == rows
    && done <= Keys(scan, rows) && InOrder(Keys(scan, rows), done)
    && scan.Ahead(tables[|out|], Position(scan.layout, out, |out|)) == Keys(scan, rows) - done
    && EachOnce(scan.layout, rows, done, out)
    && IsUpdated(scan.layout, rows, done, scan.update, scan.t, tables[|out|])
  }

  lemma {:induction false} GoOn(scan: Scan, rows: map<Key, Row>, done: set<Key>, out: seq<Row>, tables: seq<map<Key, Row>>)
    returns (out': seq<Row>, tables': seq<map<Key, Row>>)
    requires scan.Valid() && ValidRows(scan.layout, rows)
    requires MakesRows(scan.layout, rows, Keys(scan, rows), scan.update, scan.t)
    requires NewKeysDistinct(scan.layout, rows, Keys(scan, rows), scan.update, scan.t)
    requires AllOutOfTheWay(scan.layout, scan.sem, scan.t, scan.where, rows, Keys(scan, rows), scan.update)
    requires OnTheWay(scan, rows, done, out, tables)
    ensures OnTheWay(scan, rows, Keys(scan, rows), out', tables')
    decreases Keys(scan, rows) - done
  {
    if Keys(scan, rows) - done == {} {
      assert forall k :: k in Keys(scan, rows) ==> k !in Keys(scan, rows) - done;
      assert done == Keys(scan, rows);
      out', tables' := out, tables;
    } else {
      LeastExists(Keys(scan, rows) - done);
      var k :| IsLeast(k, Keys(scan, rows) - done);
      var next := OneTurnOn(scan, rows, done, out, tables, k);
      out', tables' := GoOn(scan, rows, done + {k}, out + [rows[k]], tables + [next]);
    }
  }

  lemma OneTurnOn(scan: Scan, rows: map<Key, Row>, done: set<Key>, out: seq<Row>, tables: seq<map<Key, Row>>, k: Key)
    returns (next: map<Key, Row>)
    requires scan.Valid() && ValidRows(scan.layout, rows)
    requires MakesRows(scan.layout, rows, Keys(scan, rows), scan.update, scan.t)
    requires NewKeysDistinct(scan.layout, rows, Keys(scan, rows), scan.update, scan.t)
    requires AllOutOfTheWay(scan.layout, scan.sem, scan.t, scan.where, rows, Keys(scan, rows), scan.update)
    requires OnTheWay(scan, rows, done, out, tables) && IsLeast(k, Keys(scan, rows) - done)
    ensures k in rows && OnTheWay(scan, rows, done + {k}, out + [rows[k]], tables + [next])
  {
    next := NextTable(scan, rows, done, out, tables, k);
    OneMore(scan.layout, rows, done, out, k);
    hide KeyOf, KeyAt, Beyond, EachOnce, IsUpdated, InOrder, Position, MatchingKeys, Turns, Turn, ValidRows;
    TurnsMore(scan, out, tables, rows[k], next);
    Extended(out, tables, rows[k], next);
  }

  lemma NextTable(scan: Scan, rows: map<Key, Row>, done: set<Key>, out: seq<Row>, tables: seq<map<Key, Row>>, k: Key)
    returns (next: map<Key, Row>)
    requires scan.Valid() && ValidRows(scan.layout, rows)
    requires MakesRows(scan.layout, rows, Keys(scan, rows), scan.update, scan.t)
    requires NewKeysDistinct(scan.layout, rows, Keys(scan, rows), scan.update, scan.t)
    requires AllOutOfTheWay(scan.layout, scan.sem, scan.t, scan.where, rows, Keys(scan, rows), scan.update)
    requires OnTheWay(scan, rows, done, out, tables) && IsLeast(k, Keys(scan, rows) - done)
    ensures k in rows && KeyAt(scan.layout, rows[k]) == k && InOrder(Keys(scan, rows), done + {k})
    ensures Turn(scan, tables[|out|], Position(scan.layout, out, |out|), rows[k], next) && ValidRows(scan.layout, next)
    ensures IsUpdated(scan.layout, rows, done + {k}, scan.update, scan.t, next)
    ensures scan.Ahead(next, Some(k)) == Keys(scan, rows) - (done + {k})
  {
    var all, now, after := Keys(scan, rows), tables[|out|], Position(scan.layout, out, |out|);
    assert ValidRows(scan.layout, now) && all <= rows.Keys;
    BeyondLeast(scan, now, after, k);
    assert all - done - {k} == all - (done + {k});
    hide KeyOf, Satisfies, Beyond, EachOnce, IsUpdated, NewKeysDistinct, AllOutOfTheWay, InOrder, Position, MatchingKeys, Turns,
      Turn;
    ScanTurn(scan.layout, scan.sem, rows, scan.where, all, done, k, scan.update, scan.t, now);
    var row := scan.update(scan.t, rows[k]);
    next := (now - {k})[KeyOf(scan.layout, row) := row];
    TurnTaken(scan, now, after, rows[k], k, next);
  }

  lemma Extended<A, B>(a: seq<A>, b: seq<B>, x: A, y: B)
    requires |b| == |a| + 1
    ensures (b + [y])[0] == b[0] && (b + [y])[|a + [x]|] == y
  {
  }

  /** The result an update by scan is to come to. */
  ghost predicate ComesRight(scan: Scan, rows: map<Key, Row>)
    requires scan.Valid() && ValidRows(scan.layout, rows)
    requires MakesRows(scan.layout, rows, Keys(scan, rows), scan.update, scan.t)
  {
    exists out, tables :: Turns(scan, out, tables) && tables[0] == rows && Over(scan, out, tables)
                          && RightResult(scan, rows, out, tables[|out|])
  }

  /** An update that gives matching rows distinct keys comes to its end with each
      replaced once and put under its new key, exactly when none is put in the way of
      the scan: ahead of its old key, where a row matches or as one that matches. */
  lemma ComesRightIff(scan: Scan, rows: map<Key, Row>)
    requires scan.Valid() && ValidRows(scan.layout, rows)
    requires MakesRows(scan.layout, rows, Keys(scan, rows), scan.update, scan.t)
    requires NewKeysDistinct(scan.layout, rows, Keys(scan, rows), scan.update, scan.t)
    ensures ComesRight(scan, rows) <==>
            AllOutOfTheWay(scan.layout, scan.sem, scan.t, scan.where, rows, Keys(scan, rows), scan.update)
  {
    if ComesRight(scan, rows) {
      var out, tables :| Turns(scan, out, tables) && tables[0] == rows && Over(scan, out, tables)
                         && RightResult(scan, rows, out, tables[|out|]);
      forall k | k in Keys(scan, rows)
        ensures OutOfTheWay(scan.layout, scan.sem, scan.t, scan.where, Keys(scan, rows), k, scan.update(scan.t, rows[k]))
      {
        var i := TurnOf(scan, rows, out, tables, k);
        InTheWay(scan, out, tables, i, k);
      }
    } else if AllOutOfTheWay(scan.layout, scan.sem, scan.t, scan.where, rows, Keys(scan, rows), scan.update) {
      var out, tables := WholeRun(scan, rows);
    }
  }

  lemma TurnOf(scan: Scan, rows: map<Key, Row>, out: seq<Row>, tables: seq<map<Key, Row>>, k: Key) returns (i: nat)
    requires scan.Valid() && ValidRows(scan.layout, rows) && Turns(scan, out, tables) && tables[0] == rows
    requires MakesRows(scan.layout, rows, Keys(scan, rows), scan.update, scan.t)
    requires NewKeysDistinct(scan.layout, rows, Keys(scan, rows), scan.update, scan.t)
    requires EachOnce(scan.layout, rows, Keys(scan, rows), out) && k in Keys(scan, rows)
    ensures OnceEach(scan, out, tables, i, k) && out[i] == rows[k]
  {
    i :| 0 <= i < |out| && out[i] == rows[k];
  }

  lemma WholeRun(scan: Scan, rows: map<Key, Row>) returns (out: seq<Row>, tables: seq<map<Key, Row>>)
    requires scan.Valid() && ValidRows(scan.layout, rows)
    requires MakesRows(scan.layout, rows, Keys(scan, rows), scan.update, scan.t)
    requires NewKeysDistinct(scan.layout, rows, Keys(scan, rows), scan.update, scan.t)
    requires AllOutOfTheWay(scan.layout, scan.sem, scan.t, scan.where, rows, Keys(scan, rows), scan.update)
    ensures Turns(scan, out, tables) && tables[0] == rows && Over(scan, out, tables)
    ensures RightResult(scan, rows, out, tables[|out|])
  {
    NoneYet(scan.layout, rows);
    NothingUpdated(scan.layout, rows, scan.update, scan.t);
    assert scan.Ahead(rows, None) == Keys(scan, rows) == Keys(scan, rows) - {};
    assert OnTheWay(scan, rows, {}, [], [rows]);
    out, tables := GoOn(scan, rows, {}, [], [rows]);
  }

  // ----- the loop makes such runs

  lemma StartOfScan(c: Cursor, scan: Scan)
    requires c.Valid() && c.path.ScanPath? && scan.layout == c.table.layout && scan.sem == c.sem && scan.where == c.path.where
    requires scan.t == c.tuple
    ensures scan.Valid() && Turns(scan, [], [c.table.rows])
    ensures c.OnThisPath() == scan.Ahead(c.table.rows, Position(scan.layout, [], 0))
  {
  }

  lemma LeastDelivered(c: Cursor, scan: Scan, after: Option<Key>)
    requires c.Valid() && c.path.ScanPath? && scan.layout == c.table.layout && scan.sem == c.sem && scan.where == c.path.where
    requires scan.t == c.tuple && scan.Valid() && c.avail && c.Delivers(scan.Ahead(c.table.rows, after))
    ensures c.Here() && IsLeast(c.key, scan.Ahead(c.table.rows, after))
    ensures c.key in c.table.rows && c.table.rows[c.key] == c.row && IsRow(scan.layout, c.row) && KeyOf(scan.layout, c.row) == c.key
  {
    hide KeyOf, Satisfies;
  }

  lemma TurnTaken(scan: Scan, rows: map<Key, Row>, after: Option<Key>, row: Row, k: Key, rows': map<Key, Row>)
    requires scan.Valid() && ValidRows(scan.layout, rows) && IsRow(scan.layout, row) && IsRow(scan.layout, scan.update(scan.t, row))
    requires IsLeast(k, scan.Ahead(rows, after)) && k in rows && rows[k] == row && KeyOf(scan.layout, row) == k
    requires rows' == (rows - {k})[KeyOf(scan.layout, scan.update(scan.t, row)) := scan.update(scan.t, row)]
    ensures Turn(scan, rows, after, row, rows') && KeyAt(scan.layout, row) == k
  {
    hide KeyOf;
  }

  /** The update loop by scan for at most n turns. */
  method TakeTurns(c: Cursor, update: (Tuple, Row) -> Row, t: Tuple, n: nat)
    returns (replaced: seq<Row>, ghost tables: seq<map<Key, Row>>)
    requires c.Valid() && c.path.ScanPath?
    requires forall r :: IsRow(c.table.layout, r) ==> IsRow(c.table.layout, update(t, r))
    modifies c, c.table
    ensures c.Valid() && |replaced| <= n
    ensures var scan := Scan(c.table.layout, c.sem, t, c.path.where, update);
            && Turns(scan, replaced, tables)
            && tables[0] == old(c.table.rows) && tables[|replaced|] == c.table.rows
            && (c.avail <==> !Over(scan, replaced, tables)) && (c.avail ==> |replaced| == n)
  {
    hide KeyOf, Satisfies, Beyond, PathKeys, Turns, Turn, Exact;
    c.Reset(t);
    ghost var scan := Scan(c.table.layout, c.sem, t, c.path.where, update);
    replaced, tables := [], [c.table.rows];
    StartOfScan(c, scan);
    while c.avail && |replaced| < n
      invariant c.Valid() && c.tuple == t && |replaced| <= n
      invariant Turns(scan, replaced, tables) && |tables| == |replaced| + 1
      invariant tables[0] == old(c.table.rows) && tables[|replaced|] == c.table.rows
      invariant c.Delivers(scan.Ahead(c.table.rows, Position(scan.layout, replaced, |replaced|)))
      decreases n - |replaced|
    {
      LeastDelivered(c, scan, Position(scan.layout, replaced, |replaced|));
      ghost var rows, row, k := c.table.rows, c.row, c.key;
      replaced := replaced + [c.row];
      UpdateOne(c, update);
      TurnTaken(scan, rows, Position(scan.layout, replaced[..|replaced| - 1], |replaced| - 1), row, k, c.table.rows);
      assert replaced[..|replaced| - 1] + [row] == replaced;
      TurnsMore(scan, replaced[..|replaced| - 1], tables, row, c.table.rows);
      tables := tables + [c.table.rows];
    }
  }
}
