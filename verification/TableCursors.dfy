/**
  Tables and their cursors: select, delete and update statements walk a cursor on
  whichever path the factory picked.
*/
module TableCursors {
  import opened Basics
  import opened Storage
  import opened WhereClause
  import opened AccessPaths

  // ----- the order of keys

  /** Byte strings in the order a btree keeps them. */
  predicate Less(a: Key, b: Key) {
    if b == [] then false
    else if a == [] then true
    else a[0] < b[0] || (a[0] == b[0] && Less(a[1..], b[1..]))
  }

  /** One is less than the other when it is its beginning, or has the lesser byte where
      they first differ. */
  lemma {:induction false} LessIff(a: Key, b: Key)
    ensures Less(a, b) <==>
            exists i :: 0 <= i <= |a| && i < |b| && a[..i] == b[..i] && (i < |a| ==> a[i] < b[i])
    decreases |a|
  {
    if a == [] {
      if b != [] {
        assert a[..0] == b[..0];
      }
    } else if b != [] {
      LessIff(a[1..], b[1..]);
      if a[0] == b[0] {
        if i :| 0 <= i <= |a[1..]| && i < |b[1..]| && a[1..][..i] == b[1..][..i] && (i < |a[1..]| ==> a[1..][i] < b[1..][i]) {
          assert a[..i + 1] == [a[0]] + a[1..][..i] && b[..i + 1] == [b[0]] + b[1..][..i];
        }
        if i :| 0 <= i <= |a| && i < |b| && a[..i] == b[..i] && (i < |a| ==> a[i] < b[i]) {
          assert i > 0 ==> a[1..][..i - 1] == a[..i][1..] && b[1..][..i - 1] == b[..i][1..];
        }
      } else {
        assert a[..0] == b[..0];
        assert forall i :: 0 < i <= |a| && i < |b| ==> a[..i][0] != b[..i][0];
      }
    }
  }

  lemma LessTransitive(a: Key, b: Key, c: Key)
    requires Less(a, b) && Less(b, c)
    ensures Less(a, c)
  {
    if a != [] && a[0] == b[0] && b[0] == c[0] {
      LessTransitive(a[1..], b[1..], c[1..]);
    }
  }

  lemma {:induction false} LessTotal(a: Key, b: Key)
    ensures a == b || Less(a, b) || Less(b, a)
    ensures !(Less(a, b) && Less(b, a)) && !Less(a, a)
    decreases |a|
  {
    if a != [] {
      if b != [] {
        LessTotal(a[1..], b[1..]);
        assert a == [a[0]] + a[1..] && b == [b[0]] + b[1..];
      }
      LessTotal(a[1..], a[1..]);
    }
  }

  ghost predicate IsLeast(k: Key, keys: set<Key>) {
    k in keys && forall j :: j in keys && j != k ==> Less(k, j)
  }

  lemma LeastExists(keys: set<Key>)
    requires keys != {}
    ensures exists k :: IsLeast(k, keys)
    decreases keys
  {
    var x :| x in keys;
    var rest := keys - {x};
    if rest == {} {
      assert keys == {x};
      assert IsLeast(x, keys);
    } else {
      LeastExists(rest);
      var k :| IsLeast(k, rest);
      LessTotal(x, k);
      var least := if Less(x, k) then x else k;
      forall j | j in keys && j != least
        ensures Less(least, j)
      {
        if Less(x, k) && j != k && j != x {
          LessTransitive(x, k, j);
        }
      }
      assert IsLeast(least, keys);
    }
  }

  function KeysAfter(rows: map<Key, Row>, k: Option<Key>): set<Key> {
    set j | j in rows && (k.None? || Less(k.value, j))
  }

  // ----- tables

  class Table {
    const layout: Layout
    var rows: map<Key, Row>
    var indexes: seq<Index>

    ghost function Now(): Db
      reads this
    {
      Db(rows, indexes)
    }

    ghost predicate Valid()
      reads this
    {
      ValidDb(layout, Now())
    }

    constructor (layout: Layout)
      requires ValidLayout(layout)
      ensures this.layout == layout && Valid() && Exact(layout, Now()) && rows == map[]
    {
      this.layout := layout;
      rows := map[];
      indexes := seq(|layout.indexNames|, _ => map[]);
    }

    /** The fields of the key, copied one after the other. */
    method EvalKey(row: Row) returns (key: Key)
      requires IsRow(layout, row)
      ensures key == KeyOf(layout, row)
    {
      key := [];
      var i := 0;
      while i < |layout.keyNames|
        invariant 0 <= i <= |layout.keyNames|
        invariant key == Concat(layout, row, layout.keyNames[..i])
      {
        var f := layout.keyNames[i];
        assert layout.keyNames[..i + 1][..i] == layout.keyNames[..i];
        key := key + FieldOf(layout, row, f);
        i := i + 1;
      }
      assert layout.keyNames[..i] == layout.keyNames;
    }

    method InsertRow(row: Row)
      requires Valid() && IsRow(layout, row)
      modifies this
      ensures Valid() && Now() == Insert(layout, old(Now()), row)
    {
      var k := EvalKey(row);
      rows := rows[k := row];
      var i := 0;
      while i < |indexes|
        invariant 0 <= i <= |indexes| == |old(indexes)| && rows == old(rows)[k := row]
        invariant forall j :: 0 <= j < |indexes| ==>
                    indexes[j] == if j < i then FileRow(layout, old(indexes), layout.indexNames, k, row)[j] else old(indexes)[j]
      {
        indexes := indexes[i := IndexPut(indexes[i], FieldOf(layout, row, layout.indexNames[i]), k)];
        i := i + 1;
      }
      assert indexes == FileRow(layout, old(indexes), layout.indexNames, k, row);
    }

    method DeleteFromIndexes(k: Key, row: Row)
      requires Valid() && IsRow(layout, row)
      modifies this`indexes
      ensures Valid() && indexes == UnfileRow(layout, old(indexes), layout.indexNames, k, row)
    {
      var i := 0;
      while i < |indexes|
        invariant 0 <= i <= |indexes| == |old(indexes)|
        invariant forall j :: 0 <= j < |indexes| ==>
                    indexes[j] == if j < i then UnfileRow(layout, old(indexes), layout.indexNames, k, row)[j] else old(indexes)[j]
      {
        indexes := indexes[i := IndexDelete(indexes[i], FieldOf(layout, row, layout.indexNames[i]), k)];
        i := i + 1;
      }
      assert indexes == UnfileRow(layout, old(indexes), layout.indexNames, k, row);
    }

    /** The first key after position k, or the first of all. */
    method NextKey(k: Option<Key>) returns (next: Option<Key>)
      ensures next.Some? ==> IsLeast(next.value, KeysAfter(rows, k))
      ensures next.None? ==> KeysAfter(rows, k) == {}
    {
      var after := KeysAfter(rows, k);
      if after == {} {
        next := None;
      } else {
        LeastExists(after);
        var least :| least in after && forall j :: j in after && j != least ==> Less(least, j);
        next := Some(least);
      }
    }
  }

  // ----- entries of an exact index

  /** In an exact index the keys filed under s are those of the rows with s in the
      field, each once. */
  lemma ExactEntries(layout: Layout, rows: map<Key, Row>, f: string, ix: Index, s: Bytes)
    requires ValidRows(layout, rows) && f in layout.columns && IndexExact(layout, rows, f, ix)
    ensures Distinct(Filed(ix, s))
    ensures forall k :: k in Filed(ix, s) <==> k in rows && FieldOf(layout, rows[k], f) == s
  {
    var keys := Filed(ix, s);
    forall k
      ensures k in keys <==> k in rows && FieldOf(layout, rows[k], f) == s
      ensures multiset(keys)[k] <= 1
    {
      assert Count(ix, s, k) == Wanted(layout, rows, f, s, k);
    }
    OnceEachDistinct(keys);
  }

  lemma OnceEachDistinct(keys: seq<Key>)
    requires forall k :: multiset(keys)[k] <= 1
    ensures Distinct(keys)
  {
    forall i, j | 0 <= i < j < |keys|
      ensures keys[i] != keys[j]
    {
      assert keys == keys[..j] + keys[j..];
      assert keys[i] in multiset(keys[..j]) && keys[j] in multiset(keys[j..]);
      assert multiset(keys)[keys[i]] <= 1;
      assert multiset(keys) == multiset(keys[..j]) + multiset(keys[j..]);
    }
  }

  lemma FindKeyAt(keys: seq<Key>, p: nat)
    requires Distinct(keys) && p < |keys|
    ensures FindKey(keys, keys[p]) == p
  {
    var q := FindKey(keys, keys[p]);
    assert keys[p] in keys;
    assert q <= p by {
      assert forall i :: 0 <= i < q ==> keys[..q][i] == keys[i];
    }
    assert keys[q] == keys[p];
  }

  /** The keys of s from position n on. */
  ghost function From(keys: seq<Key>, n: nat): set<Key> {
    if n <= |keys| then set k | k in keys[n..] else {}
  }

  lemma FromNext(keys: seq<Key>, n: nat)
    requires Distinct(keys) && n < |keys|
    ensures From(keys, n) == From(keys, n + 1) + {keys[n]}
    ensures keys[n] !in From(keys, n + 1)
  {
    assert keys[n..] == [keys[n]] + keys[n + 1..];
  }

  /** When entry p goes, the entries behind it close up. */
  lemma EntryRemoved(ix: Index, s: Bytes, p: nat)
    requires Distinct(Filed(ix, s)) && p < |Filed(ix, s)|
    ensures p <= |Filed(IndexDelete(ix, s, Filed(ix, s)[p]), s)|
    ensures From(Filed(IndexDelete(ix, s, Filed(ix, s)[p]), s), p) == From(Filed(ix, s), p + 1)
  {
    var keys := Filed(ix, s);
    FindKeyAt(keys, p);
    assert RemoveAt(keys, p)[p..] == keys[p + 1..];
  }

  // ----- keys a scan still meets

  /** The keys after a position whose rows satisfy the where clause. */
  ghost function Beyond(layout: Layout, sem: Meaning, t: Tuple, where: Option<Clause>, rows: map<Key, Row>, after: Option<Key>)
    : set<Key>
    requires ValidRows(layout, rows) && (where.Some? ==> FieldsKnown(layout, where.value))
  {
    set k | k in KeysAfter(rows, after) && Satisfies(layout, sem, t, where, rows[k])
  }

  /** Passing over the next key of all loses only that key. */
  lemma PassOver(layout: Layout, sem: Meaning, t: Tuple, where: Option<Clause>, rows: map<Key, Row>, after: Option<Key>, next: Key)
    requires ValidRows(layout, rows) && (where.Some? ==> FieldsKnown(layout, where.value))
    requires IsLeast(next, KeysAfter(rows, after))
    ensures next in KeysAfter(rows, after) && KeysAfter(rows, Some(next)) == KeysAfter(rows, after) - {next}
    ensures next in rows
    ensures next in Beyond(layout, sem, t, where, rows, after) <==> Satisfies(layout, sem, t, where, rows[next])
    ensures Beyond(layout, sem, t, where, rows, Some(next)) == Beyond(layout, sem, t, where, rows, after) - {next}
  {
    forall k | k in rows
      ensures k in KeysAfter(rows, Some(next)) <==> k in KeysAfter(rows, after) && k != next
    {
      LessTotal(next, k);
      if after.Some? && Less(next, k) {
        LessTransitive(after.value, next, k);
      }
    }
  }

  /** What becomes of the row at a key is nothing to a scan that has reached it. */
  lemma BeyondIgnoresKey(layout: Layout, sem: Meaning, t: Tuple, where: Option<Clause>,
                         rows: map<Key, Row>, rows': map<Key, Row>, k: Key)
    requires ValidRows(layout, rows) && ValidRows(layout, rows') && (where.Some? ==> FieldsKnown(layout, where.value))
    requires forall j :: j != k ==> (j in rows <==> j in rows') && (j in rows ==> rows[j] == rows'[j])
    ensures Beyond(layout, sem, t, where, rows, Some(k)) == Beyond(layout, sem, t, where, rows', Some(k))
  {
    LessTotal(k, k);
  }

  lemma NothingBeyond(layout: Layout, sem: Meaning, t: Tuple, where: Option<Clause>, rows: map<Key, Row>, after: Option<Key>)
    requires ValidRows(layout, rows) && (where.Some? ==> FieldsKnown(layout, where.value))
    requires KeysAfter(rows, after) == {}
    ensures Beyond(layout, sem, t, where, rows, after) == {}
  {
    assert forall k :: k in Beyond(layout, sem, t, where, rows, after) ==> k in KeysAfter(rows, after);
  }

  // ----- cursors

  class Cursor {
    const table: Table
    const sem: Meaning
    const path: Path

    var tuple: Tuple
    var avail: bool
    var key: Key
    var row: Row

    // Where an index path stands among the entries of skey; when that entry has been
    // deleted under the cursor, the next entry has moved to its place.
    var skey: Bytes
    var pos: nat
    var onDeleted: bool

    constructor (table: Table, sem: Meaning, path: Path)
      ensures this.table == table && this.sem == sem && this.path == path && !avail
    {
      this.table, this.sem, this.path := table, sem, path;
      tuple, avail, key, row, skey, pos, onDeleted := [], false, [], [], [], 0, false;
    }

    ghost predicate Valid()
      reads this, table
    {
      table.Valid() && ValidPath(table.layout, path) && (path.IndexPath? ==> Exact(table.layout, table.Now()))
    }

    /** The entries an index path walks. */
    function Entries(): seq<Key>
      reads this, table
    {
      if path.IndexPath? && path.index < |table.indexes| then Filed(table.indexes[path.index], skey) else []
    }

    /** An index cursor stands on the entry of its key, or on the gap it left. */
    ghost predicate Placed()
      reads this, table
    {
      path.IndexPath? ==>
        && skey == sem.value(path.value, tuple)
        && pos <= |Entries()|
        && (!onDeleted ==> pos < |Entries()| && Entries()[pos] == key)
    }

    /** The cursor stands on a row of the table. */
    ghost predicate Here()
      reads this, table
    {
      && avail && !onDeleted && Placed()
      && key in table.rows && row == table.rows[key]
    }

    /** The keys still to come after the current one. */
    ghost function Ahead(): set<Key>
      requires Valid()
      reads this, table
    {
      match path
      case ScanPath(where) => Beyond(table.layout, sem, tuple, where, table.rows, Some(key))
      case KeyPath(_) => {}
      case IndexPath(_, _) => From(Entries(), if onDeleted then pos else pos + 1)
    }

    /** The cursor stands on the first of these keys, with the others still to come. */
    ghost predicate Delivers(keys: set<Key>)
      requires Valid()
      reads this, table
    {
      if avail then Here() && key !in Ahead() && keys == Ahead() + {key} else keys == {}
    }

    ghost function OnThisPath(): set<Key>
      requires Valid()
      reads this, table
    {
      PathKeys(table.layout, sem, tuple, path, table.rows)
    }

    lemma EntriesAreThePath()
      requires Valid() && path.IndexPath? && skey == sem.value(path.value, tuple)
      ensures Distinct(Entries()) && OnThisPath() == From(Entries(), 0)
      ensures forall k :: k in Entries() ==>
                k in table.rows && FieldOf(table.layout, table.rows[k], table.layout.indexNames[path.index]) == skey
    {
      var f := table.layout.indexNames[path.index];
      assert IndexExact(table.layout, table.rows, f, table.indexes[path.index]);
      ExactEntries(table.layout, table.rows, f, table.indexes[path.index], skey);
      assert Entries()[0..] == Entries();
    }

    /** Goes to the first key of the path for the input tuple t. */
    method Reset(t: Tuple)
      requires Valid()
      modifies this
      ensures Valid() && tuple == t && Delivers(OnThisPath())
    {
      tuple, onDeleted := t, false;
      match path {
        case ScanPath(where) =>
          ResetScan(where);
        case KeyPath(values) =>
          key := ConcatValues(sem, t, values);
          avail := key in table.rows;
          if avail {
            row := table.rows[key];
          }
        case IndexPath(i, v) =>
          skey, pos := sem.value(v, t), 0;
          EntriesAreThePath();
          FetchEntry();
      }
    }

    method ResetScan(where: Option<Clause>)
      requires Valid() && path == ScanPath(where) && !onDeleted
      modifies this`avail, this`key, this`row
      ensures Valid() && Delivers(OnThisPath())
    {
      assert OnThisPath() == Beyond(table.layout, sem, tuple, where, table.rows, None);
      var first := table.NextKey(None);
      if first.None? {
        avail := false;
      } else {
        key, row := first.value, table.rows[first.value];
        PassOver(table.layout, sem, tuple, where, table.rows, None, key);
        if Satisfies(table.layout, sem, tuple, where, row) {
          avail := true;
        } else {
          NextMatch(where);
        }
      }
    }

    /** Goes on to the next key whose row satisfies the where clause. */
    method NextMatch(where: Option<Clause>)
      requires Valid() && path == ScanPath(where) && !onDeleted
      modifies this`avail, this`key, this`row
      ensures Valid() && Delivers(old(Ahead()))
    {
      hide Exact, Beyond, KeysAfter, IsLeast, Satisfies;
      ghost var layout, rows, ahead := table.layout, table.rows, Ahead();
      var next := table.NextKey(Some(key));
      while next.Some?
        invariant Beyond(layout, sem, tuple, where, rows, Some(key)) == ahead
        invariant next.Some? ==> IsLeast(next.value, KeysAfter(table.rows, Some(key)))
        invariant next.None? ==> KeysAfter(table.rows, Some(key)) == {}
        decreases KeysAfter(table.rows, Some(key))
      {
        PassOver(table.layout, sem, tuple, where, table.rows, Some(key), next.value);
        key, row := next.value, table.rows[next.value];
        if Satisfies(table.layout, sem, tuple, where, row) {
          avail := true;
          return;
        }
        next := table.NextKey(Some(key));
      }
      NothingBeyond(layout, sem, tuple, where, rows, Some(key));
      avail := false;
    }

    /** Takes the row of the entry at pos, if there is one. */
    method FetchEntry()
      requires Valid() && path.IndexPath? && skey == sem.value(path.value, tuple) && !onDeleted && pos <= |Entries()|
      modifies this`avail, this`key, this`row
      ensures Valid() && Delivers(From(Entries(), pos))
    {
      EntriesAreThePath();
      avail := pos < |Entries()|;
      if avail {
        // The row is there: the missing-row branch is dead.
        key := Entries()[pos];
        row := table.rows[key];
        FromNext(Entries(), pos);
      }
    }

    method Advance()
      requires Valid() && avail && Placed() && (path.ScanPath? ==> !onDeleted)
      modifies this
      ensures Valid() && tuple == old(tuple) && Delivers(old(Ahead()))
    {
      match path {
        case ScanPath(where) =>
          NextMatch(where);
        case KeyPath(_) =>
          avail := false;
        case IndexPath(_, _) =>
          pos, onDeleted := if onDeleted then pos else pos + 1, false;
          FetchEntry();
      }
    }

    /** Deletes the row the cursor stands on, under it. */
    method DeleteRow()
      requires Valid() && Here()
      modifies table, this`onDeleted
      ensures Valid() && avail && Placed() && onDeleted == path.IndexPath?
      ensures table.Now() == Storage.DeleteRow(table.layout, old(table.Now()), key)
      ensures Ahead() == old(Ahead())
      ensures old(Exact(table.layout, table.Now())) ==> Exact(table.layout, table.Now())
    {
      ghost var before, layout := table.Now(), table.layout;
      if Exact(layout, before) {
        DeleteKeepsExact(layout, before, key);
      }
      if path.IndexPath? {
        EntriesAreThePath();
        EntryRemoved(table.indexes[path.index], skey, pos);
      }
      table.DeleteFromIndexes(key, row);
      table.rows := table.rows - {key};
      onDeleted := path.IndexPath?;
      if path.ScanPath? {
        BeyondIgnoresKey(layout, sem, tuple, path.where, before.rows, table.rows, key);
      }
    }
  }
}
