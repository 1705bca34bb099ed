/**
  Choosing a cursor for a where clause, and the keys each kind of cursor is to
  deliver.
*/
module AccessPaths {
  import opened Basics
  import opened Storage
  import opened WhereClause

  /** Scan everything and test each row; look up the primary key these values make
      up; or walk the entries of one index under a value. */
  datatype Path =
    | ScanPath(where: Option<Clause>)
    | KeyPath(values: seq<Expr>)
    | IndexPath(index: nat, value: Expr)

  // ----- the factories

  /** What the factory's loops test: only equalities, as many as key fields, no key
      field named twice and none left out. */
  ghost predicate FillsKey(keyNames: seq<string>, clauses: seq<Clause>) {
    && |clauses| == |keyNames|
    && (forall c :: 0 <= c < |clauses| ==> clauses[c].FieldEq?)
    && (forall c, d, i :: 0 <= c < d < |clauses| && 0 <= i < |keyNames| && clauses[c].field == keyNames[i] ==>
                            clauses[d].field != keyNames[i])
    && forall i :: 0 <= i < |keyNames| ==> Names(clauses, keyNames[i])
  }

  /** Some clause is an equality with field f... */
  ghost predicate Names(clauses: seq<Clause>, f: string) {
    exists c :: 0 <= c < |clauses| && clauses[c].FieldEq? && clauses[c].field == f
  }

  /** ...some clause is exactly the equality of f and v. */
  ghost predicate Gives(clauses: seq<Clause>, f: string, v: Expr) {
    exists c :: 0 <= c < |clauses| && clauses[c] == FieldEq(f, v)
  }

  /** values[i] is the value some clause gives for key field i. */
  ghost predicate ValuesFrom(keyNames: seq<string>, clauses: seq<Clause>, values: seq<Expr>) {
    && |values| == |keyNames|
    && forall i :: 0 <= i < |keyNames| ==> Gives(clauses, keyNames[i], values[i])
  }

  /** After the clauses before n: what each key field has been given. */
  ghost predicate Given(keyNames: seq<string>, clauses: seq<Clause>, n: nat, values: seq<Option<Expr>>)
    requires n <= |clauses|
  {
    && |values| == |keyNames|
    && forall i :: 0 <= i < |keyNames| ==>
         && (values[i].Some? ==> Gives(clauses[..n], keyNames[i], values[i].value))
         && (values[i].None? ==> !Names(clauses[..n], keyNames[i]))
  }

  /** So far only equalities, and no key field given twice. */
  ghost predicate CleanUpTo(keyNames: seq<string>, clauses: seq<Clause>, n: nat)
    requires n <= |clauses|
  {
    && (forall c :: 0 <= c < n ==> clauses[c].FieldEq?)
    && forall c, d, i :: 0 <= c < d < n && 0 <= i < |keyNames| && clauses[c].field == keyNames[i] ==>
                           clauses[d].field != keyNames[i]
  }

  /** The where clauses the primary key will do for... */
  ghost predicate FillsKeyAlone(layout: Layout, where: Clause) {
    match where
    case FieldEq(f, _) => layout.lookupNames == [f]
    case Conjunction(clauses) => FillsKey(layout.lookupNames, clauses)
    case Condition(_) => false
  }

  /** ...and those an index will do for. */
  ghost predicate OnIndex(layout: Layout, where: Clause) {
    where.FieldEq? && where.field in layout.indexNames
  }

  method KeyEqualFactory(layout: Layout, where: Clause) returns (path: Option<Path>)
    ensures path.Some? <==> FillsKeyAlone(layout, where)
    ensures path.Some? ==>
              && path.value.KeyPath?
              && (where.FieldEq? ==> path.value.values == [where.value])
              && (where.Conjunction? ==> ValuesFrom(layout.lookupNames, where.clauses, path.value.values))
  {
    path := None;
    match where {
      case FieldEq(f, v) =>
        if |layout.lookupNames| == 1 && f == layout.lookupNames[0] {
          path := Some(KeyPath([v]));
        }
      case Conjunction(clauses) =>
        if |layout.lookupNames| == |clauses| {
          var success, values := CollectValues(layout.lookupNames, clauses);
          if success {
            path := Some(KeyPath(values));
          }
        }
      case Condition(_) =>
    }
  }

  method CollectValues(keyNames: seq<string>, clauses: seq<Clause>) returns (success: bool, r: seq<Expr>)
    requires |keyNames| == |clauses|
    ensures success <==> FillsKey(keyNames, clauses)
    ensures success ==> ValuesFrom(keyNames, clauses, r)
  {
    var values: seq<Option<Expr>> := seq(|keyNames|, _ => None);
    success, r := true, [];
    var c := 0;
    while c < |clauses|
      invariant 0 <= c <= |clauses|
      invariant Given(keyNames, clauses, c, values)
      invariant success <==> CleanUpTo(keyNames, clauses, c)
    {
      if clauses[c].FieldEq? {
        var once;
        values, once := GiveValue(keyNames, clauses, c, values);
        success := success && once;
      } else {
        success := false;
      }
      c := c + 1;
    }
    // Make sure all of values is filled in.
    var i := 0;
    while i < |values|
      invariant 0 <= i <= |values|
      invariant |r| == i
      invariant success <==> CleanUpTo(keyNames, clauses, c) && forall j :: 0 <= j < i ==> values[j].Some?
      invariant forall j :: 0 <= j < i && values[j].Some? ==> r[j] == values[j].value
    {
      if values[i].None? {
        success := false;
        r := r + [Expr("", 0)];
      } else {
        r := r + [values[i].value];
      }
      i := i + 1;
    }
    AllGiven(keyNames, clauses, values, r);
  }

  lemma AllGiven(keyNames: seq<string>, clauses: seq<Clause>, values: seq<Option<Expr>>, r: seq<Expr>)
    requires |keyNames| == |clauses| && Given(keyNames, clauses, |clauses|, values) && |r| == |values|
    requires forall i :: 0 <= i < |r| && values[i].Some? ==> r[i] == values[i].value
    ensures FillsKey(keyNames, clauses) <==>
              CleanUpTo(keyNames, clauses, |clauses|) && forall i :: 0 <= i < |values| ==> values[i].Some?
    ensures FillsKey(keyNames, clauses) ==> ValuesFrom(keyNames, clauses, r)
  {
    assert clauses[..|clauses|] == clauses;
    forall i | 0 <= i < |keyNames|
      ensures values[i].Some? <==> Names(clauses, keyNames[i])
    {
      if values[i].Some? {
        var c :| 0 <= c < |clauses| && clauses[c] == FieldEq(keyNames[i], values[i].value);
        assert clauses[c].FieldEq? && clauses[c].field == keyNames[i];
      }
    }
  }

  /** Enters the value of clause c at every key field it names; once says that none
      of these had a value. */
  method GiveValue(keyNames: seq<string>, clauses: seq<Clause>, c: nat, values: seq<Option<Expr>>)
    returns (r: seq<Option<Expr>>, once: bool)
    requires c < |clauses| && clauses[c].FieldEq? && Given(keyNames, clauses, c, values)
    ensures Given(keyNames, clauses, c + 1, r)
    ensures once <==> forall d, i :: (0 <= d < c && 0 <= i < |keyNames| && clauses[d].FieldEq?
                                      && clauses[d].field == keyNames[i]) ==> clauses[c].field != keyNames[i]
  {
    r, once := values, true;
    var i := 0;
    while i < |keyNames|
      invariant 0 <= i <= |keyNames| == |r|
      invariant once <==> forall j :: 0 <= j < i && keyNames[j] == clauses[c].field ==> values[j].None?
      invariant forall j :: 0 <= j < |r| ==>
                  r[j] == if j < i && keyNames[j] == clauses[c].field then Some(clauses[c].value) else values[j]
    {
      if clauses[c].field == keyNames[i] {
        if r[i].Some? {
          once := false;
        }
        r := r[i := Some(clauses[c].value)];
      }
      i := i + 1;
    }
  }

  method IndexKeyEqualFactory(layout: Layout, where: Clause) returns (path: Option<Path>)
    ensures path.Some? <==> OnIndex(layout, where)
    ensures path.Some? ==>
              && path.value.IndexPath? && path.value.value == where.value
              && path.value.index < |layout.indexNames| && layout.indexNames[path.value.index] == where.field
              && where.field !in layout.indexNames[..path.value.index]
  {
    path := None;
    if where.FieldEq? {
      var i := 0;
      while i < |layout.indexNames|
        invariant 0 <= i <= |layout.indexNames|
        invariant where.field !in layout.indexNames[..i]
      {
        if layout.indexNames[i] == where.field {
          return Some(IndexPath(i, where.value));
        }
        i := i + 1;
      }
    }
  }

  /** The primary key if it will do, then an index, then a scan. */
  method CursorFactory(layout: Layout, where: Option<Clause>) returns (path: Path)
    ensures ChosenPath(layout, where, path)
  {
    if where.None? {
      return ScanPath(None);
    }
    var r := KeyEqualFactory(layout, where.value);
    if r.None? {
      r := IndexKeyEqualFactory(layout, where.value);
    }
    path := if r.Some? then r.value else ScanPath(where);
  }

  /** The path the factory picks for a where clause. */
  ghost predicate ChosenPath(layout: Layout, where: Option<Clause>, path: Path) {
    match path
    case ScanPath(w) => w == where && (where.Some? ==> !FillsKeyAlone(layout, where.value) && !OnIndex(layout, where.value))
    case IndexPath(i, v) =>
      && i < |layout.indexNames| && where == Some(FieldEq(layout.indexNames[i], v))
      && layout.indexNames[i] !in layout.indexNames[..i] && !FillsKeyAlone(layout, where.value)
    case KeyPath(values) =>
      && where.Some?
      && match where.value
         case FieldEq(f, v) => layout.lookupNames == [f] && values == [v]
         case Conjunction(clauses) =>
           FillsKey(layout.lookupNames, clauses) && ValuesFrom(layout.lookupNames, clauses, values)
         case Condition(_) => false
  }

  // ----- a conjunction that fills the key is a permutation of the key fields

  ghost function Elements<T>(s: seq<T>): set<T> {
    set x | x in s
  }

  lemma {:induction false} ElementsCount<T>(s: seq<T>)
    ensures |Elements(s)| <= |s|
    ensures Distinct(s) <==> |Elements(s)| == |s|
  {
    if s != [] {
      var n := |s| - 1;
      ElementsCount(s[..n]);
      assert s == s[..n] + [s[n]];
      assert Elements(s) == Elements(s[..n]) + {s[n]};
      if s[n] in s[..n] {
        assert Elements(s) == Elements(s[..n]);
      } else if Distinct(s[..n]) {
        assert Distinct(s);
      } else {
        var i, j :| 0 <= i < j < |s[..n]| && s[..n][i] == s[..n][j];
        assert s[i] == s[j];
      }
    }
  }

  lemma SubsetSameSize<T>(a: set<T>, b: set<T>)
    requires a <= b && |a| == |b|
    ensures a == b
  {
    if a != b {
      var x :| x in b && x !in a;
      assert a <= b - {x};
      SubsetSize(a, b - {x});
    }
  }

  lemma SubsetSize<T>(a: set<T>, b: set<T>)
    requires a <= b
    ensures |a| <= |b|
  {
    assert b == a + (b - a);
  }

  function FieldNames(clauses: seq<Clause>): (r: seq<string>)
    requires forall c :: 0 <= c < |clauses| ==> clauses[c].FieldEq?
    ensures |r| == |clauses| && forall c :: 0 <= c < |clauses| ==> r[c] == clauses[c].field
  {
    seq(|clauses|, c requires 0 <= c < |clauses| => clauses[c].field)
  }

  /** When the key fields are distinct the factory accepts a conjunction exactly when
      its fields are those of the key, each once, in any order. */
  lemma AcceptedIffPermutation(keyNames: seq<string>, clauses: seq<Clause>)
    requires Distinct(keyNames)
    ensures FillsKey(keyNames, clauses) <==>
              && |clauses| == |keyNames|
              && (forall c :: 0 <= c < |clauses| ==> clauses[c].FieldEq?)
              && Distinct(FieldNames(clauses)) && Elements(FieldNames(clauses)) == Elements(keyNames)
  {
    if |clauses| == |keyNames| && forall c :: 0 <= c < |clauses| ==> clauses[c].FieldEq? {
      var names := FieldNames(clauses);
      ElementsCount(keyNames);
      ElementsCount(names);
      if FillsKey(keyNames, clauses) {
        forall f | f in keyNames
          ensures f in names
        {
          var i :| 0 <= i < |keyNames| && keyNames[i] == f;
          assert Names(clauses, keyNames[i]);
          var c :| 0 <= c < |clauses| && clauses[c].field == keyNames[i];
          assert names[c] == f;
        }
        SubsetSize(Elements(keyNames), Elements(names));
        SubsetSameSize(Elements(keyNames), Elements(names));
      } else if Distinct(names) && Elements(names) == Elements(keyNames) {
        forall i | 0 <= i < |keyNames|
          ensures Names(clauses, keyNames[i])
        {
          assert keyNames[i] in Elements(names);
          var c :| 0 <= c < |names| && names[c] == keyNames[i];
          assert clauses[c].field == keyNames[i];
        }
      }
    }
  }

  /** Of an accepted conjunction every clause is about a key field exactly when no key
      field is named twice; otherwise some clause is dropped. */
  lemma RepeatedKeyFieldDropsClause(keyNames: seq<string>, clauses: seq<Clause>)
    requires FillsKey(keyNames, clauses)
    ensures Distinct(keyNames) <==> forall c :: 0 <= c < |clauses| ==> clauses[c].FieldEq? && clauses[c].field in keyNames
  {
    var names := FieldNames(clauses);
    if Distinct(keyNames) {
      AcceptedIffPermutation(keyNames, clauses);
      forall c | 0 <= c < |clauses|
        ensures clauses[c].field in keyNames
      {
        assert names[c] in Elements(names);
      }
    } else if forall c :: 0 <= c < |clauses| ==> clauses[c].field in keyNames {
      AllDistinct(keyNames, clauses);
      ElementsCount(names);
      ElementsCount(keyNames);
      assert Elements(names) <= Elements(keyNames);
      SubsetSize(Elements(names), Elements(keyNames));
    }
  }

  lemma AllDistinct(keyNames: seq<string>, clauses: seq<Clause>)
    requires FillsKey(keyNames, clauses) && forall c :: 0 <= c < |clauses| ==> clauses[c].field in keyNames
    ensures Distinct(FieldNames(clauses))
  {
    forall c, d | 0 <= c < d < |clauses|
      ensures clauses[c].field != clauses[d].field
    {
      var i :| 0 <= i < |keyNames| && keyNames[i] == clauses[c].field;
    }
  }

  // ----- the keys a path delivers

  /** The values one after the other, as the key buffer holds them. */
  function ConcatValues(sem: Meaning, t: Tuple, values: seq<Expr>): Bytes {
    if values == [] then []
    else ConcatValues(sem, t, values[..|values| - 1]) + sem.value(values[|values| - 1], t)
  }

  predicate Satisfies(layout: Layout, sem: Meaning, t: Tuple, where: Option<Clause>, row: Row)
    requires IsRow(layout, row) && (where.Some? ==> FieldsKnown(layout, where.value))
  {
    where.None? || Matches(layout, sem, t, where.value, row)
  }

  /** The keys of the rows that satisfy the where clause: the filtered scan. */
  ghost function MatchingKeys(layout: Layout, sem: Meaning, t: Tuple, where: Option<Clause>, rows: map<Key, Row>): set<Key>
    requires ValidRows(layout, rows) && (where.Some? ==> FieldsKnown(layout, where.value))
  {
    set k | k in rows && Satisfies(layout, sem, t, where, rows[k])
  }

  /** The row meets every leaf of the where clause; without one every row does. */
  ghost predicate Meets(layout: Layout, sem: Meaning, t: Tuple, where: Option<Clause>, row: Row)
    requires IsRow(layout, row)
  {
    where.None? || AllHold(layout, sem, t, Leaves(where.value), row)
  }

  ghost function MeetingKeys(layout: Layout, sem: Meaning, t: Tuple, where: Option<Clause>, rows: map<Key, Row>): set<Key>
    requires ValidRows(layout, rows)
  {
    set k | k in rows && Meets(layout, sem, t, where, rows[k])
  }

  lemma MatchingMeet(layout: Layout, sem: Meaning, t: Tuple, where: Option<Clause>, rows: map<Key, Row>)
    requires ValidRows(layout, rows) && (where.Some? ==> FieldsKnown(layout, where.value))
    ensures MatchingKeys(layout, sem, t, where, rows) == MeetingKeys(layout, sem, t, where, rows)
  {
    if where.Some? {
      forall k | k in rows
        ensures Satisfies(layout, sem, t, where, rows[k]) <==> Meets(layout, sem, t, where, rows[k])
      {
        MatchesIff(layout, sem, t, where.value, rows[k]);
      }
    }
  }

  /** The keys a cursor on path is to deliver. */
  ghost predicate OnPath(layout: Layout, sem: Meaning, t: Tuple, path: Path, k: Key, row: Row)
    requires IsRow(layout, row) && ValidPath(layout, path)
  {
    match path
    case ScanPath(where) => Satisfies(layout, sem, t, where, row)
    case KeyPath(values) => k == ConcatValues(sem, t, values)
    case IndexPath(i, v) => FieldOf(layout, row, layout.indexNames[i]) == sem.value(v, t)
  }

  ghost predicate ValidPath(layout: Layout, path: Path) {
    && (path.ScanPath? && path.where.Some? ==> FieldsKnown(layout, path.where.value))
    && (path.IndexPath? ==> path.index < |layout.indexNames|
                            && layout.indexNames[path.index] in layout.columns)
  }

  ghost function PathKeys(layout: Layout, sem: Meaning, t: Tuple, path: Path, rows: map<Key, Row>): set<Key>
    requires ValidRows(layout, rows) && ValidPath(layout, path)
  {
    set k | k in rows && OnPath(layout, sem, t, path, k, rows[k])
  }

  /** A value compared with a field is as wide as the field. */
  ghost predicate WidthsFit(layout: Layout, sem: Meaning, t: Tuple, c: Clause)
    requires FieldsKnown(layout, c)
  {
    match c
    case Condition(_) => true
    case FieldEq(f, v) => |sem.value(v, t)| == layout.columns[f].size
    case Conjunction(clauses) => forall i :: 0 <= i < |clauses| ==> WidthsFit(layout, sem, t, clauses[i])
  }

  /** The fields named hold the values, one by one. */
  ghost predicate FieldsHold(layout: Layout, sem: Meaning, t: Tuple, row: Row, names: seq<string>, values: seq<Expr>)
    requires IsRow(layout, row) && |names| == |values|
  {
    forall i :: 0 <= i < |names| ==> names[i] in layout.columns && FieldOf(layout, row, names[i]) == sem.value(values[i], t)
  }

  lemma LastHolds(layout: Layout, sem: Meaning, t: Tuple, row: Row, names: seq<string>, values: seq<Expr>)
    requires IsRow(layout, row) && |names| == |values| > 0 && names[|names| - 1] in layout.columns
    ensures var n := |names| - 1;
            FieldsHold(layout, sem, t, row, names, values) <==>
              FieldsHold(layout, sem, t, row, names[..n], values[..n]) && FieldOf(layout, row, names[n]) == sem.value(values[n], t)
  {
    hide FieldOf, ValidLayout;
    var n := |names| - 1;
    var fewer, fewerValues := names[..n], values[..n];
    assert forall i :: 0 <= i < n ==> fewer[i] == names[i] && fewerValues[i] == values[i];
  }

  ghost predicate SameWidths(layout: Layout, sem: Meaning, t: Tuple, names: seq<string>, values: seq<Expr>) {
    && |names| == |values|
    && forall i :: 0 <= i < |names| ==> names[i] in layout.columns && |sem.value(values[i], t)| == layout.columns[names[i]].size
  }

  lemma FewerSameWidths(layout: Layout, sem: Meaning, t: Tuple, names: seq<string>, values: seq<Expr>)
    requires SameWidths(layout, sem, t, names, values) && names != []
    ensures var n := |names| - 1;
            SameWidths(layout, sem, t, names[..n], values[..n])
            && names[n] in layout.columns && |sem.value(values[n], t)| == layout.columns[names[n]].size
  {
    var fewer, fewerValues := names[..|names| - 1], values[..|names| - 1];
    assert forall i :: 0 <= i < |fewer| ==> fewer[i] == names[i] && fewerValues[i] == values[i];
  }

  /** Concatenation of fields of fixed widths is injective, field by field. */
  lemma {:induction false} ConcatInjective(layout: Layout, sem: Meaning, t: Tuple, row: Row, names: seq<string>, values: seq<Expr>)
    requires IsRow(layout, row) && (forall f :: f in names ==> f in layout.columns)
    requires SameWidths(layout, sem, t, names, values)
    ensures Concat(layout, row, names) == ConcatValues(sem, t, values) <==> FieldsHold(layout, sem, t, row, names, values)
    ensures |Concat(layout, row, names)| == |ConcatValues(sem, t, values)|
  {
    if names != [] {
      var n := |names| - 1;
      FewerSameWidths(layout, sem, t, names, values);
      LastHolds(layout, sem, t, row, names, values);
      ConcatInjective(layout, sem, t, row, names[..n], values[..n]);
      FieldWidth(layout, row, names[n]);
      hide FieldOf, ValidLayout, FieldsHold, SameWidths;
      SplitEqual(Concat(layout, row, names[..n]), FieldOf(layout, row, names[n]),
                 ConcatValues(sem, t, values[..n]), sem.value(values[n], t));
    }
  }

  lemma FieldWidth(layout: Layout, row: Row, f: string)
    requires IsRow(layout, row) && f in layout.columns
    ensures |FieldOf(layout, row, f)| == layout.columns[f].size
  {
  }

  lemma SplitEqual(a: Bytes, b: Bytes, c: Bytes, d: Bytes)
    requires |a| == |c| && |b| == |d|
    ensures a + b == c + d <==> a == c && b == d
  {
    if a + b == c + d {
      assert a == (a + b)[..|a|] && c == (c + d)[..|c|];
      assert b == (a + b)[|a|..] && d == (c + d)[|c|..];
    }
  }

  lemma KeyPathSelects(layout: Layout, sem: Meaning, t: Tuple, clauses: seq<Clause>, values: seq<Expr>, row: Row)
    requires IsRow(layout, row) && Distinct(layout.keyNames)
    requires FieldsKnown(layout, Conjunction(clauses)) && WidthsFit(layout, sem, t, Conjunction(clauses))
    requires FillsKey(layout.keyNames, clauses) && ValuesFrom(layout.keyNames, clauses, values)
    ensures Matches(layout, sem, t, Conjunction(clauses), row) <==> KeyOf(layout, row) == ConcatValues(sem, t, values)
  {
    var names := layout.keyNames;
    forall i | 0 <= i < |names|
      ensures |sem.value(values[i], t)| == layout.columns[names[i]].size
      ensures Matches(layout, sem, t, Conjunction(clauses), row) ==> FieldOf(layout, row, names[i]) == sem.value(values[i], t)
    {
      assert Gives(clauses, names[i], values[i]);
      var c :| 0 <= c < |clauses| && clauses[c] == FieldEq(names[i], values[i]);
      assert WidthsFit(layout, sem, t, clauses[c]);
      assert Matches(layout, sem, t, Conjunction(clauses), row) ==> Matches(layout, sem, t, clauses[c], row);
    }
    ConcatInjective(layout, sem, t, row, names, values);
    AcceptedIffPermutation(names, clauses);
    if forall i :: 0 <= i < |names| ==> FieldOf(layout, row, names[i]) == sem.value(values[i], t) {
      forall c | 0 <= c < |clauses|
        ensures Matches(layout, sem, t, clauses[c], row)
      {
        assert FieldNames(clauses)[c] in Elements(names);
        var i :| 0 <= i < |names| && names[i] == clauses[c].field;
        SameClause(names, clauses, values, c, i);
      }
    }
  }

  lemma SameClause(names: seq<string>, clauses: seq<Clause>, values: seq<Expr>, c: nat, i: nat)
    requires FillsKey(names, clauses) && ValuesFrom(names, clauses, values)
    requires c < |clauses| && i < |names| && clauses[c].field == names[i]
    ensures clauses[c] == FieldEq(names[i], values[i])
  {
    assert Gives(clauses, names[i], values[i]);
    var d :| 0 <= d < |clauses| && clauses[d] == FieldEq(names[i], values[i]);
    assert c == d;
  }

  /** The cursor factory knows the key by name, or not at all; a conjunction has parts. */
  ghost predicate NamesKnown(layout: Layout, where: Option<Clause>) {
    && (layout.lookupNames == layout.keyNames || layout.lookupNames == [])
    && (where.Some? && where.value.Conjunction? ==> where.value.clauses != [])
  }

  /** A table made from the catalog never gets a key cursor: an equality on its one key
      field goes to an index, if there is one, and otherwise to a scan. */
  lemma NoLookupNoKeyPath(layout: Layout, where: Option<Clause>, path: Path)
    requires layout.lookupNames == [] && NamesKnown(layout, where) && ChosenPath(layout, where, path)
    ensures !path.KeyPath?
    ensures path.IndexPath? <==> where.Some? && OnIndex(layout, where.value)
  {
    if path.IndexPath? {
      assert layout.indexNames[path.index] in layout.indexNames;
    }
  }

  /** Whichever path the factory picks, it leads to exactly the rows the filtered scan
      finds, provided key fields are not repeated and values are as wide as fields. */
  lemma PathFindsMatches(layout: Layout, sem: Meaning, t: Tuple, where: Option<Clause>, path: Path, rows: map<Key, Row>)
    requires ValidRows(layout, rows) && Distinct(layout.keyNames)
    requires where.Some? ==> FieldsKnown(layout, where.value) && WidthsFit(layout, sem, t, where.value)
    requires NamesKnown(layout, where) && ChosenPath(layout, where, path)
    ensures ValidPath(layout, path)
    ensures PathKeys(layout, sem, t, path, rows) == MatchingKeys(layout, sem, t, where, rows)
                                                 == MeetingKeys(layout, sem, t, where, rows)
  {
    MatchingMeet(layout, sem, t, where, rows);
    forall k | k in rows
      ensures OnPath(layout, sem, t, path, k, rows[k]) <==> Satisfies(layout, sem, t, where, rows[k])
    {
      if path.KeyPath? {
        if where.value.FieldEq? {
          SingleKeyPathSelects(layout, sem, t, where.value, path.values, rows[k]);
        } else {
          KeyPathSelects(layout, sem, t, where.value.clauses, path.values, rows[k]);
        }
      }
    }
  }

  lemma SingleKeyPathSelects(layout: Layout, sem: Meaning, t: Tuple, c: Clause, values: seq<Expr>, row: Row)
    requires IsRow(layout, row) && FieldsKnown(layout, c) && WidthsFit(layout, sem, t, c)
    requires c.FieldEq? && layout.keyNames == [c.field] && values == [c.value]
    ensures Matches(layout, sem, t, c, row) <==> KeyOf(layout, row) == ConcatValues(sem, t, values)
  {
    ConcatInjective(layout, sem, t, row, layout.keyNames, values);
  }

  // ----- that a key without repeated fields is needed

  /** Values are as long as the fields they are compared with... */
  ghost predicate LengthsFit(layout: Layout, clauses: seq<Clause>) {
    forall c :: 0 <= c < |clauses| && clauses[c].FieldEq? ==>
      clauses[c].field in layout.columns && clauses[c].value.length == layout.columns[clauses[c].field].size
  }

  /** ...and the columns of a row do not overlap and are not empty. */
  ghost predicate ColumnsApart(layout: Layout) {
    forall f, g :: f in layout.columns && g in layout.columns && f != g ==>
      layout.columns[f].size > 0 && (Before(layout.columns[f], layout.columns[g]) || Before(layout.columns[g], layout.columns[f]))
  }

  predicate Before(a: Column, b: Column) {
    a.offset + a.size <= b.offset
  }

  function Zeros(n: nat): (r: Bytes)
    ensures |r| == n && forall i :: 0 <= i < n ==> r[i] == 0
  {
    seq(n, _ => 0)
  }

  /** A row with ones in field f and zeros elsewhere. */
  function OnlyField(layout: Layout, f: string): (r: Row)
    requires f in layout.columns
    ensures |r| == layout.rowSize
  {
    var c := layout.columns[f];
    seq(layout.rowSize, i => if c.offset <= i < c.offset + c.size then 1 else 0)
  }

  function AllZeros(): Meaning {
    Meaning((e: Expr, t) => Zeros(e.length), (text, t, row) => false)
  }

  lemma FieldsOfOnly(layout: Layout, f: string, g: string)
    requires ValidLayout(layout) && ColumnsApart(layout) && f in layout.columns && g in layout.columns && f != g
    ensures FieldOf(layout, OnlyField(layout, f), g) == Zeros(layout.columns[g].size)
    ensures FieldOf(layout, OnlyField(layout, f), f) != Zeros(layout.columns[f].size)
  {
    assert FieldOf(layout, OnlyField(layout, f), f)[0] == 1;
  }

  lemma RowOnKeyPath(layout: Layout, clauses: seq<Clause>, values: seq<Expr>, f: string)
    requires ValidLayout(layout) && ColumnsApart(layout) && LengthsFit(layout, clauses) && f in layout.columns
    requires FillsKey(layout.keyNames, clauses) && ValuesFrom(layout.keyNames, clauses, values) && f !in layout.keyNames
    ensures KeyOf(layout, OnlyField(layout, f)) == ConcatValues(AllZeros(), [], values)
  {
    var names, row := layout.keyNames, OnlyField(layout, f);
    forall i | 0 <= i < |names|
      ensures names[i] in names && |AllZeros().value(values[i], [])| == layout.columns[names[i]].size
      ensures FieldOf(layout, row, names[i]) == AllZeros().value(values[i], [])
    {
      assert Gives(clauses, names[i], values[i]);
      FieldsOfOnly(layout, f, names[i]);
    }
    ConcatInjective(layout, AllZeros(), [], row, names, values);
  }

  /** For every meaning, tuple and table the path of values finds the rows that satisfy
      the conjunction. */
  ghost predicate AlwaysFindsMatches(layout: Layout, clauses: seq<Clause>, values: seq<Expr>)
    requires ValidLayout(layout) && FieldsKnown(layout, Conjunction(clauses))
  {
    forall sem: Meaning, t, rows :: ValidRows(layout, rows) && WidthsFit(layout, sem, t, Conjunction(clauses)) ==>
      PathKeys(layout, sem, t, KeyPath(values), rows) == MatchingKeys(layout, sem, t, Some(Conjunction(clauses)), rows)
  }

  /** The key path of an accepted conjunction always finds the right rows exactly when
      no key field is named twice. */
  lemma DistinctNeeded(layout: Layout, clauses: seq<Clause>, values: seq<Expr>)
    requires ValidLayout(layout) && ColumnsApart(layout) && LengthsFit(layout, clauses)
    requires FieldsKnown(layout, Conjunction(clauses))
    requires FillsKey(layout.keyNames, clauses) && ValuesFrom(layout.keyNames, clauses, values)
    ensures AlwaysFindsMatches(layout, clauses, values) <==> Distinct(layout.keyNames)
  {
    if Distinct(layout.keyNames) {
      forall sem: Meaning, t, rows | ValidRows(layout, rows) && WidthsFit(layout, sem, t, Conjunction(clauses))
        ensures PathKeys(layout, sem, t, KeyPath(values), rows) == MatchingKeys(layout, sem, t, Some(Conjunction(clauses)), rows)
      {
        forall k | k in rows
          ensures OnPath(layout, sem, t, KeyPath(values), k, rows[k]) <==> Matches(layout, sem, t, Conjunction(clauses), rows[k])
        {
          KeyPathSelects(layout, sem, t, clauses, values, rows[k]);
        }
      }
    } else {
      RepeatedKeyFieldDropsClause(layout.keyNames, clauses);
      var c :| 0 <= c < |clauses| && clauses[c].field !in layout.keyNames;
      WrongRow(layout, clauses, values, c);
    }
  }

  lemma WrongRow(layout: Layout, clauses: seq<Clause>, values: seq<Expr>, c: nat)
    requires ValidLayout(layout) && ColumnsApart(layout) && LengthsFit(layout, clauses)
    requires FieldsKnown(layout, Conjunction(clauses))
    requires FillsKey(layout.keyNames, clauses) && ValuesFrom(layout.keyNames, clauses, values)
    requires c < |clauses| && clauses[c].field !in layout.keyNames
    ensures !AlwaysFindsMatches(layout, clauses, values)
  {
    var f, sem := clauses[c].field, AllZeros();
    var row := OnlyField(layout, f);
    var k := KeyOf(layout, row);
    var rows: map<Key, Row> := map[k := row];
    var g := layout.keyNames[0];
    FieldsOfOnly(layout, f, g);
    RowOnKeyPath(layout, clauses, values, f);
    assert WidthsFit(layout, sem, [], Conjunction(clauses));
    assert !Matches(layout, sem, [], clauses[c], row);
    assert k in PathKeys(layout, sem, [], KeyPath(values), rows);
    assert k !in MatchingKeys(layout, sem, [], Some(Conjunction(clauses)), rows);
  }
}
