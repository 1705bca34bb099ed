/** Where clauses: conditions, equalities with a field, and conjunctions of these. */
module WhereClause {
  import opened Basics
  import opened Storage

  type Tuple = Bytes

  /** length is the number of bytes the expression evaluates to. */
  datatype Expr = Expr(text: string, length: nat)

  datatype Clause =
    | Condition(text: string)
    | FieldEq(field: string, value: Expr)
    | Conjunction(clauses: seq<Clause>)

  /** What expressions and conditions evaluate to. */
  datatype Meaning = Meaning(value: (Expr, Tuple) -> Bytes, holds: (string, Tuple, Row) -> bool)

  ghost predicate FieldsKnown(layout: Layout, c: Clause) {
    match c
    case Condition(_) => true
    case FieldEq(f, _) => f in layout.columns
    case Conjunction(clauses) => forall i :: 0 <= i < |clauses| ==> FieldsKnown(layout, clauses[i])
  }

  /** Does row satisfy the clause for the input tuple t? */
  predicate Matches(layout: Layout, sem: Meaning, t: Tuple, c: Clause, row: Row)
    requires IsRow(layout, row) && FieldsKnown(layout, c)
  {
    match c
    case Condition(text) => sem.holds(text, t, row)
    case FieldEq(f, v) => FieldOf(layout, row, f) == sem.value(v, t)
    case Conjunction(clauses) => forall i :: 0 <= i < |clauses| ==> Matches(layout, sem, t, clauses[i], row)
  }

  // ----- the fields of the leaf clauses

  /** One entry of the output schema: a field and its value, or a bare condition. */
  datatype Entry = Bare(text: string) | Named(field: string, value: Expr)

  function FlatEntry(c: Clause): Entry
    requires !c.Conjunction?
  {
    match c
    case Condition(text) => Bare(text)
    case FieldEq(f, v) => Named(f, v)
  }

  /** The entries of the leaf clauses from left to right. */
  function Leaves(c: Clause): seq<Entry>
    decreases c, 1
  {
    match c
    case Conjunction(clauses) => LeavesOf(clauses)
    case _ => [FlatEntry(c)]
  }

  function LeavesOf(clauses: seq<Clause>): seq<Entry>
    decreases clauses, 0
  {
    if clauses == [] then []
    else LeavesOf(clauses[..|clauses| - 1]) + Leaves(clauses[|clauses| - 1])
  }

  /** The row satisfies an entry: its condition holds, or its field has its value. */
  predicate EntryHolds(layout: Layout, sem: Meaning, t: Tuple, e: Entry, row: Row)
    requires IsRow(layout, row)
  {
    match e
    case Bare(text) => sem.holds(text, t, row)
    case Named(f, v) => f in layout.columns && FieldOf(layout, row, f) == sem.value(v, t)
  }

  ghost predicate AllHold(layout: Layout, sem: Meaning, t: Tuple, entries: seq<Entry>, row: Row)
    requires IsRow(layout, row)
  {
    forall i :: 0 <= i < |entries| ==> EntryHolds(layout, sem, t, entries[i], row)
  }

  /** A row satisfies a clause exactly when it satisfies each of its leaves. */
  lemma {:induction false} MatchesIff(layout: Layout, sem: Meaning, t: Tuple, c: Clause, row: Row)
    requires IsRow(layout, row) && FieldsKnown(layout, c)
    ensures Matches(layout, sem, t, c, row) <==> AllHold(layout, sem, t, Leaves(c), row)
    decreases c, 1
  {
    match c
    case Condition(text) => assert Leaves(c)[0] == Bare(text);
    case FieldEq(f, v) => assert Leaves(c)[0] == Named(f, v);
    case Conjunction(clauses) => AllMatchIff(layout, sem, t, clauses, row);
  }

  lemma {:induction false} AllMatchIff(layout: Layout, sem: Meaning, t: Tuple, clauses: seq<Clause>, row: Row)
    requires IsRow(layout, row) && forall i :: 0 <= i < |clauses| ==> FieldsKnown(layout, clauses[i])
    ensures (forall i :: 0 <= i < |clauses| ==> Matches(layout, sem, t, clauses[i], row)) <==>
            AllHold(layout, sem, t, LeavesOf(clauses), row)
    decreases clauses, 0
  {
    if clauses != [] {
      var n := |clauses| - 1;
      AllMatchIff(layout, sem, t, clauses[..n], row);
      MatchesIff(layout, sem, t, clauses[n], row);
      hide Matches, EntryHolds, FieldsKnown, Leaves;
      var before, last := LeavesOf(clauses[..n]), Leaves(clauses[n]);
      AllHoldJoin(layout, sem, t, before, last, row);
      assert LeavesOf(clauses) == before + last;
    }
  }

  lemma AllHoldJoin(layout: Layout, sem: Meaning, t: Tuple, a: seq<Entry>, b: seq<Entry>, row: Row)
    requires IsRow(layout, row)
    ensures AllHold(layout, sem, t, a + b, row) <==> AllHold(layout, sem, t, a, row) && AllHold(layout, sem, t, b, row)
  {
    hide EntryHolds;
    if AllHold(layout, sem, t, a + b, row) {
      forall i | 0 <= i < |a|
        ensures EntryHolds(layout, sem, t, a[i], row)
      {
        assert (a + b)[i] == a[i];
      }
      forall i | 0 <= i < |b|
        ensures EntryHolds(layout, sem, t, b[i], row)
      {
        assert (a + b)[|a| + i] == b[i];
      }
    }
  }

  /** The number of conjunctions in c. */
  ghost function Conjunctions(c: Clause): nat
    decreases c, 1
  {
    match c
    case Conjunction(clauses) => 1 + ConjunctionsOf(clauses)
    case _ => 0
  }

  ghost function ConjunctionsOf(clauses: seq<Clause>): nat
    decreases clauses, 0
  {
    if clauses == [] then 0
    else ConjunctionsOf(clauses[..|clauses| - 1]) + Conjunctions(clauses[|clauses| - 1])
  }

  ghost function Times(s: seq<Entry>, e: Entry): nat {
    multiset(s)[e]
  }

  lemma TimesAppend(s: seq<Entry>, x: Entry)
    ensures forall e :: Times(s + [x], e) == Times(s, e) + Times([x], e)
  {
  }

  lemma AppendLast(s: seq<Entry>, t: seq<Entry>, x: Entry)
    ensures s + (t + [x]) == s + t + [x]
  {
  }

  lemma SameTimes(s: seq<Entry>, t: seq<Entry>)
    requires forall e :: Times(s, e) == Times(t, e)
    ensures multiset(s) == multiset(t)
  {
    assert forall e :: multiset(s)[e] == Times(s, e) && multiset(t)[e] == Times(t, e);
  }

  lemma LeavesOfAppend(clauses: seq<Clause>, c: Clause)
    ensures LeavesOf(clauses + [c]) == LeavesOf(clauses) + Leaves(c)
    ensures forall e :: Times(LeavesOf(clauses + [c]), e) == Times(LeavesOf(clauses), e) + Times(Leaves(c), e)
    ensures ConjunctionsOf(clauses + [c]) == ConjunctionsOf(clauses) + Conjunctions(c)
  {
    assert (clauses + [c])[..|clauses|] == clauses;
  }

  /** A stack of conjunctions is worked off from the top: leaves go to the result,
      conjunctions inside go onto the stack.  Every leaf clause gives its entry
      exactly once; with no conjunction inside another they come left to right. */
  method GetSubclauseFields(c: Clause) returns (r: seq<Entry>)
    ensures multiset(r) == multiset(Leaves(c))
    ensures Conjunctions(c) <= 1 ==> r == Leaves(c)
  {
    if !c.Conjunction? {
      return [FlatEntry(c)];
    }
    r := [];
    var stack := [c];
    LeavesOfAppend([], c);
    assert [] + [c] == [c];
    while stack != []
      invariant OnlyConjunctions(stack)
      invariant forall e :: Times(r, e) + Times(LeavesOf(stack), e) == Times(Leaves(c), e)
      invariant ConjunctionsOf(stack) <= Conjunctions(c)
      invariant Conjunctions(c) <= 1 ==> (r == [] && stack == [c]) || (stack == [] && r == Leaves(c))
      decreases ConjunctionsOf(stack)
    {
      var n := |stack| - 1;
      var sc := stack[n];
      assert stack == stack[..n] + [sc];
      LeavesOfAppend(stack[..n], sc);
      stack, r := TakeClauses(sc.clauses, stack[..n], r);
    }
    SameTimes(r, Leaves(c));
  }

  ghost predicate OnlyConjunctions(clauses: seq<Clause>) {
    forall i :: 0 <= i < |clauses| ==> clauses[i].Conjunction?
  }

  /** What has become of clauses taken: the entries of leaves are in r, conjunctions on
      the stack. */
  ghost predicate Taken(below: seq<Clause>, sofar: seq<Entry>, clauses: seq<Clause>, stack: seq<Clause>, r: seq<Entry>) {
    && OnlyConjunctions(stack)
    && (forall e :: Times(r, e) + Times(LeavesOf(stack), e) ==
                    Times(sofar, e) + Times(LeavesOf(below), e) + Times(LeavesOf(clauses), e))
    && ConjunctionsOf(stack) == ConjunctionsOf(below) + ConjunctionsOf(clauses)
    && (ConjunctionsOf(clauses) == 0 ==> stack == below && r == sofar + LeavesOf(clauses))
  }

  lemma NoneTaken(below: seq<Clause>, sofar: seq<Entry>)
    requires OnlyConjunctions(below)
    ensures Taken(below, sofar, [], below, sofar)
  {
  }

  lemma ConjunctionTaken(below: seq<Clause>, sofar: seq<Entry>, clauses: seq<Clause>, stack: seq<Clause>, r: seq<Entry>, c: Clause)
    requires Taken(below, sofar, clauses, stack, r) && c.Conjunction?
    ensures Taken(below, sofar, clauses + [c], stack + [c], r)
  {
    LeavesOfAppend(clauses, c);
    LeavesOfAppend(stack, c);
    assert Conjunctions(c) > 0;
    hide Times, LeavesOf, ConjunctionsOf, Conjunctions, Leaves;
  }

  lemma LeafTaken(below: seq<Clause>, sofar: seq<Entry>, clauses: seq<Clause>, stack: seq<Clause>, r: seq<Entry>, c: Clause)
    requires Taken(below, sofar, clauses, stack, r) && !c.Conjunction?
    ensures Taken(below, sofar, clauses + [c], stack, r + [FlatEntry(c)])
  {
    LeavesOfAppend(clauses, c);
    TimesAppend(r, FlatEntry(c));
    AppendLast(sofar, LeavesOf(clauses), FlatEntry(c));
    assert Conjunctions(c) == 0 && Leaves(c) == [FlatEntry(c)];
    hide Times, LeavesOf, ConjunctionsOf, Conjunctions, Leaves;
  }

  method TakeClauses(more: seq<Clause>, below: seq<Clause>, sofar: seq<Entry>) returns (stack: seq<Clause>, r: seq<Entry>)
    requires OnlyConjunctions(below)
    ensures Taken(below, sofar, more, stack, r)
  {
    hide Taken;
    stack, r := below, sofar;
    NoneTaken(below, sofar);
    var i := 0;
    while i < |more|
      invariant 0 <= i <= |more| && Taken(below, sofar, more[..i], stack, r)
    {
      assert more[..i + 1] == more[..i] + [more[i]];
      if more[i].Conjunction? {
        ConjunctionTaken(below, sofar, more[..i], stack, r, more[i]);
        stack := stack + [more[i]];
      } else {
        LeafTaken(below, sofar, more[..i], stack, r, more[i]);
        r := r + [FlatEntry(more[i])];
      }
      i := i + 1;
    }
    assert more[..i] == more;
  }

  /** The conjunction the parser builds of two clauses: a part that is a conjunction
      itself gives its clauses. */
  function Conjoin(l: Clause, r: Clause): (c: Clause)
    ensures Leaves(c) == Leaves(l) + Leaves(r)
    ensures Conjunctions(l) <= 1 && Conjunctions(r) <= 1 ==> Conjunctions(c) == 1
  {
    LeavesOfConcat(Parts(l), Parts(r));
    Conjunction(Parts(l) + Parts(r))
  }

  function Parts(c: Clause): (parts: seq<Clause>)
    ensures LeavesOf(parts) == Leaves(c)
    ensures Conjunctions(c) <= 1 ==> ConjunctionsOf(parts) == 0
  {
    match c
    case Conjunction(clauses) => clauses
    case _ =>
      LeavesOfAppend([], c);
      assert [] + [c] == [c];
      [c]
  }

  lemma {:induction false} LeavesOfConcat(a: seq<Clause>, b: seq<Clause>)
    ensures LeavesOf(a + b) == LeavesOf(a) + LeavesOf(b)
    ensures ConjunctionsOf(a + b) == ConjunctionsOf(a) + ConjunctionsOf(b)
    decreases |b|
  {
    if b == [] {
      assert a + b == a;
    } else {
      var n := |b| - 1;
      LeavesOfConcat(a, b[..n]);
      assert (a + b)[..|a + b| - 1] == a + b[..n];
    }
  }

  /** The entry of a condition or an equality. */
  predicate EntryOf(c: Clause, e: Entry) {
    match c
    case Condition(text) => e.Bare? && e.text == text
    case FieldEq(f, v) => e.Named? && e.field == f && e.value == v
    case Conjunction(_) => false
  }

  /** A leaf clause has one entry, a conjunction of leaves the entry of each in its place, and
      a conjunction inside another the entries it has by itself. */
  lemma {:induction false} LeavesAre(c: Clause)
    ensures !c.Conjunction? ==> |Leaves(c)| == 1 && EntryOf(c, Leaves(c)[0])
    ensures c.Conjunction? && (forall i :: 0 <= i < |c.clauses| ==> !c.clauses[i].Conjunction?) ==>
              |Leaves(c)| == |c.clauses| && forall i :: 0 <= i < |c.clauses| ==> EntryOf(c.clauses[i], Leaves(c)[i])
    ensures c.Conjunction? ==> forall i :: 0 <= i < |c.clauses| ==>
              Leaves(c) == Leaves(Conjunction(c.clauses[..i])) + Leaves(c.clauses[i]) + Leaves(Conjunction(c.clauses[i + 1..]))
  {
    if c.Conjunction? {
      var clauses := c.clauses;
      forall i | 0 <= i < |clauses|
        ensures Leaves(c) == Leaves(Conjunction(clauses[..i])) + Leaves(clauses[i]) + Leaves(Conjunction(clauses[i + 1..]))
      {
        LeavesAround(clauses, i);
      }
      if forall i :: 0 <= i < |clauses| ==> !clauses[i].Conjunction? {
        FlatLeaves(clauses);
      }
    }
  }

  lemma LeavesAround(clauses: seq<Clause>, i: nat)
    requires i < |clauses|
    ensures LeavesOf(clauses) == LeavesOf(clauses[..i]) + Leaves(clauses[i]) + LeavesOf(clauses[i + 1..])
  {
    hide LeavesOf, Leaves;
    LeavesOfAppend(clauses[..i], clauses[i]);
    LeavesOfConcat(clauses[..i] + [clauses[i]], clauses[i + 1..]);
    assert clauses == clauses[..i] + [clauses[i]] + clauses[i + 1..];
  }

  lemma {:induction false} FlatLeaves(clauses: seq<Clause>)
    requires forall i :: 0 <= i < |clauses| ==> !clauses[i].Conjunction?
    ensures |LeavesOf(clauses)| == |clauses| && forall i :: 0 <= i < |clauses| ==> EntryOf(clauses[i], LeavesOf(clauses)[i])
  {
    if clauses != [] {
      var n := |clauses| - 1;
      FlatLeaves(clauses[..n]);
      forall i | 0 <= i < n
        ensures EntryOf(clauses[i], LeavesOf(clauses)[i])
      {
        assert clauses[..n][i] == clauses[i] && LeavesOf(clauses)[i] == LeavesOf(clauses[..n])[i];
      }
    }
  }
}
