/**
  Tuples refused by the sender after some of their arrays are in the event: when the
  receiver gets the accepted ones all the same.
*/
module MarshalStrays {
  import opened Basics
  import opened MarshalCodec

  /** Sends the tuples, going on after a refusal, and takes what comes out.  The accepted
      tuples come back exactly when their sizes fit and the event's array data begins
      with theirs. */
  method SendAndTake(shape: Shape, tuples: seq<Tuple>) returns (received: seq<Received>)
    requires ValidShape(shape) && Sendable(shape, tuples)
    requires |TuplesOf(shape, Accepted(shape, tuples))| < TWO_32 && |ArraysLeft(shape, tuples)| < TWO_32
    requires |Accepted(shape, tuples)| < TWO_31
    ensures var sent := Accepted(shape, tuples);
            AllBack(shape, received, sent) <==> EachFits(shape, sent) && ArraysOf(shape, sent) <= ArraysLeft(shape, tuples)
  {
    hide ValidShape, Sendable, TuplesOf, ArraysOf, ArraysLeft, AllBack, EachFits, Accepted, Holds, NoStrays;
    StraysShow(shape, tuples);
    var event := BatchAll(shape, tuples);
    received := Handler(shape, event, Accepted(shape, tuples));
  }

  // ----- strays behind all array data that matters

  /** No tuple that leaves data without being accepted comes before an accepted one with
      array data. */
  ghost predicate StraysLast(shape: Shape, tuples: seq<Tuple>)
    requires Sendable(shape, tuples)
  {
    forall i, j :: 0 <= i < j < |tuples| && !NoStray(shape, tuples[i]) ==> NoArrays(shape, tuples[j])
  }

  /** A tuple that is refused, or has no array data. */
  ghost predicate NoArrays(shape: Shape, t: Tuple)
    requires ValidTuple(shape, t)
  {
    AllSized(shape, t, |shape.arrays|) ==> Payload(shape, t, |shape.arrays|) == []
  }

  lemma {:induction false} StraysLastIsEnough(shape: Shape, tuples: seq<Tuple>)
    requires Sendable(shape, tuples) && StraysLast(shape, tuples)
    ensures ArraysOf(shape, Accepted(shape, tuples)) <= ArraysLeft(shape, tuples)
  {
    if tuples != [] {
      var n := |tuples| - 1;
      FewerLast(shape, tuples);
      StraysLastIsEnough(shape, tuples[..n]);
      OneMoreTried(shape, tuples);
      if NoArrays(shape, tuples[n]) {
        if AllSized(shape, tuples[n], |shape.arrays|) {
          NoNegative(shape, tuples[n]);
        }
        hide Payload, AllSized, Inserted, ArraysOf, ArraysLeft, Accepted, ValidTuple;
      } else {
        NoneBefore(shape, tuples);
        StraysShow(shape, tuples[..n]);
        hide Payload, AllSized, Inserted, ArraysOf, ArraysLeft, Accepted, ValidTuple, NoStrays;
      }
    }
  }

  lemma FewerLast(shape: Shape, tuples: seq<Tuple>)
    requires Sendable(shape, tuples) && tuples != [] && StraysLast(shape, tuples)
    ensures StraysLast(shape, tuples[..|tuples| - 1])
  {
    hide NoStray, NoArrays, ValidTuple;
    var fewer := tuples[..|tuples| - 1];
    assert forall i :: 0 <= i < |fewer| ==> fewer[i] == tuples[i];
  }

  lemma NoneBefore(shape: Shape, tuples: seq<Tuple>)
    requires Sendable(shape, tuples) && tuples != [] && StraysLast(shape, tuples) && !NoArrays(shape, tuples[|tuples| - 1])
    ensures NoStrays(shape, tuples[..|tuples| - 1])
  {
    hide NoStray, NoArrays, ValidTuple;
    var fewer := tuples[..|tuples| - 1];
    assert forall i :: 0 <= i < |fewer| ==> fewer[i] == tuples[i];
  }

  // ----- memory that shows the difference

  /** The same tuples but for what is in memory. */
  ghost predicate SameButMemory(a: seq<Tuple>, b: seq<Tuple>) {
    |a| == |b| && forall i :: 0 <= i < |a| ==> Alike(a[i], b[i])
  }

  ghost predicate Alike(t: Tuple, u: Tuple) {
    && t.header == u.header && t.body == u.body && t.maxes == u.maxes && |t.memory| == |u.memory|
    && forall i :: 0 <= i < |t.memory| ==> |t.memory[i]| == |u.memory[i]|
  }

  lemma {:induction false} AlikeInserted(shape: Shape, t: Tuple, u: Tuple, from: nat)
    requires from <= |shape.arrays| == |t.maxes| && AllSized(shape, t, from) && Alike(t, u)
    ensures AllSized(shape, u, from) && Inserted(shape, u, from) == Inserted(shape, t, from)
    decreases |shape.arrays| - from
  {
    if from < |shape.arrays| && SizeOf(shape.arrays[from], t.maxes[from]) >= 0 {
      hide SizeOf;
      AlikeInserted(shape, t, u, from + 1);
    }
  }

  lemma {:induction false} AlikePayload(shape: Shape, t: Tuple, u: Tuple, n: nat)
    requires ValidTuple(shape, t) && ValidTuple(shape, u) && Alike(t, u) && n <= |shape.arrays| && AllSized(shape, t, n)
    ensures AllSized(shape, u, n) && |Payload(shape, u, n)| == |Payload(shape, t, n)|
  {
    if n > 0 {
      AlikePayload(shape, t, u, n - 1);
      LastPayload(shape, t, n);
      LastPayload(shape, u, n);
      assert Sized(shape, t, n - 1) == Sized(shape, u, n - 1);
    }
  }

  lemma AlikeValid(shape: Shape, t: Tuple, u: Tuple)
    requires ValidTuple(shape, t) && Alike(t, u)
    ensures ValidTuple(shape, u)
    ensures NoStray(shape, u) <==> NoStray(shape, t)
    ensures NoArrays(shape, u) <==> NoArrays(shape, t)
  {
    assert ValidTuple(shape, u) by {
      hide SizeOf;
      forall i | 0 <= i < |shape.arrays|
        ensures Readable(shape.arrays[i], u.maxes[i], u.memory[i])
      {
        assert Readable(shape.arrays[i], t.maxes[i], t.memory[i]);
      }
    }
    AlikeInserted(shape, t, u, 0);
    AlikePayload(shape, t, u, Inserted(shape, t));
    assert AllSized(shape, t, |shape.arrays|) <==> AllSized(shape, u, |shape.arrays|);
    if AllSized(shape, t, |shape.arrays|) {
      AlikePayload(shape, t, u, |shape.arrays|);
    }
    hide Payload, AllSized, Inserted, ValidTuple;
  }

  lemma SameStrays(shape: Shape, a: seq<Tuple>, b: seq<Tuple>)
    requires Sendable(shape, a) && SameButMemory(a, b)
    ensures Sendable(shape, b) && (StraysLast(shape, b) <==> StraysLast(shape, a))
  {
    forall i | 0 <= i < |a|
      ensures ValidTuple(shape, b[i]) && (NoStray(shape, b[i]) <==> NoStray(shape, a[i]))
              && (NoArrays(shape, b[i]) <==> NoArrays(shape, a[i]))
    {
      AlikeValid(shape, a[i], b[i]);
    }
    hide NoStray, NoArrays, ValidTuple, Alike;
  }

  /** Memory that holds nothing but x. */
  function Filled(t: Tuple, x: byte): (u: Tuple)
    ensures u.header == t.header && u.body == t.body && u.maxes == t.maxes && |u.memory| == |t.memory|
    ensures forall i :: 0 <= i < |t.memory| ==> |u.memory[i]| == |t.memory[i]| && All(u.memory[i], x)
  {
    t.(memory := seq(|t.memory|, i requires 0 <= i < |t.memory| => seq(|t.memory[i]|, _ => x)))
  }

  ghost predicate All(s: Bytes, x: byte) {
    forall i :: 0 <= i < |s| ==> s[i] == x
  }

  lemma {:induction false} FilledPayload(shape: Shape, t: Tuple, x: byte, n: nat)
    requires ValidTuple(shape, t) && n <= |shape.arrays| && AllSized(shape, t, n)
    requires forall i :: 0 <= i < |t.memory| ==> All(t.memory[i], x)
    ensures All(Payload(shape, t, n), x)
  {
    if n > 0 {
      FilledPayload(shape, t, x, n - 1);
      LastPayload(shape, t, n);
      assert All(t.memory[n - 1], x);
    }
  }

  /** Accepted tuples have zeros in memory, refused ones ones. */
  ghost predicate Marked(shape: Shape, tuples: seq<Tuple>)
    requires Sendable(shape, tuples)
  {
    forall i :: 0 <= i < |tuples| ==> MarkedTuple(shape, tuples[i])
  }

  ghost predicate MarkedTuple(shape: Shape, t: Tuple)
    requires ValidTuple(shape, t)
  {
    forall i :: 0 <= i < |t.memory| ==> All(t.memory[i], if AllSized(shape, t, |shape.arrays|) then 0 else 1)
  }

  lemma MarkedExists(shape: Shape, tuples: seq<Tuple>) returns (marked: seq<Tuple>)
    requires Sendable(shape, tuples)
    ensures SameButMemory(tuples, marked) && Sendable(shape, marked) && Marked(shape, marked)
  {
    marked := seq(|tuples|, i requires 0 <= i < |tuples| =>
      Filled(tuples[i], if AllSized(shape, tuples[i], |shape.arrays|) then 0 else 1));
    SameStrays(shape, tuples, marked);
    forall i | 0 <= i < |tuples|
      ensures MarkedTuple(shape, marked[i])
    {
      AlikeValid(shape, tuples[i], marked[i]);
      assert AllSized(shape, marked[i], |shape.arrays|) <==> AllSized(shape, tuples[i], |shape.arrays|);
    }
  }

  lemma {:induction false} OnlyZeros(shape: Shape, tuples: seq<Tuple>)
    requires Sendable(shape, tuples) && Marked(shape, tuples)
    ensures All(ArraysOf(shape, Accepted(shape, tuples)), 0)
  {
    if tuples != [] {
      var n := |tuples| - 1;
      OnlyZeros(shape, tuples[..n]);
      OneMoreTried(shape, tuples);
      assert MarkedTuple(shape, tuples[n]);
      if AllSized(shape, tuples[n], |shape.arrays|) {
        NoNegative(shape, tuples[n]);
        FilledPayload(shape, tuples[n], 0, |shape.arrays|);
      }
      hide Payload, AllSized, Inserted, ArraysOf, ArraysLeft, Accepted, ValidTuple, MarkedTuple;
    }
  }

  lemma {:induction false} EventGrowsOn(shape: Shape, tuples: seq<Tuple>, k: nat)
    requires Sendable(shape, tuples) && k <= |tuples|
    ensures ArraysLeft(shape, tuples[..k]) <= ArraysLeft(shape, tuples)
    ensures |ArraysOf(shape, Accepted(shape, tuples[..k]))| <= |ArraysOf(shape, Accepted(shape, tuples))|
  {
    if k == |tuples| {
      assert tuples[..k] == tuples;
    } else {
      var n := |tuples| - 1;
      EventGrowsOn(shape, tuples[..n], k);
      assert tuples[..n][..k] == tuples[..k];
      OneMoreTried(shape, tuples);
      hide Payload, AllSized, Inserted, ArraysOf, ArraysLeft, Accepted, ValidTuple;
    }
  }

  /** The first stray. */
  lemma {:induction false} FirstStray(shape: Shape, tuples: seq<Tuple>, n: nat) returns (i: nat)
    requires Sendable(shape, tuples) && n < |tuples| && !NoStray(shape, tuples[n])
    ensures i <= n && !NoStray(shape, tuples[i]) && NoStrays(shape, tuples[..i])
    decreases n
  {
    hide NoStray, ValidTuple;
    if NoStrays(shape, tuples[..n]) {
      i := n;
    } else {
      var m :| 0 <= m < n && !NoStray(shape, tuples[..n][m]);
      i := FirstStray(shape, tuples, m);
    }
  }

  lemma StrayPayload(shape: Shape, t: Tuple)
    requires ValidTuple(shape, t) && MarkedTuple(shape, t) && !NoStray(shape, t)
    ensures Payload(shape, t, Inserted(shape, t)) != [] && All(Payload(shape, t, Inserted(shape, t)), 1)
  {
    FilledPayload(shape, t, 1, Inserted(shape, t));
  }

  lemma ByteAt(whole: Bytes, a: Bytes, b: Bytes)
    requires a + b <= whole && b != [] && All(b, 1)
    ensures |a| < |whole| && whole[|a|] == 1
  {
    assert (a + b)[|a|] == b[0];
  }

  /** What tuple i adds. */
  lemma TriedAt(shape: Shape, tuples: seq<Tuple>, i: nat)
    requires Sendable(shape, tuples) && i < |tuples|
    ensures var x, before := Payload(shape, tuples[i], Inserted(shape, tuples[i])), ArraysOf(shape, Accepted(shape, tuples[..i]));
            && ArraysLeft(shape, tuples[..i + 1]) == ArraysLeft(shape, tuples[..i]) + x
            && ArraysOf(shape, Accepted(shape, tuples[..i + 1])) ==
                 (if AllSized(shape, tuples[i], |shape.arrays|) then before + x else before)
  {
    hide Payload, AllSized, Inserted, ArraysOf, ArraysLeft, Accepted, ValidTuple;
    assert tuples[..i + 1][..i] == tuples[..i];
    OneMoreTried(shape, tuples[..i + 1]);
  }

  /** Where the first stray stands the event has ones. */
  lemma StrayByte(shape: Shape, tuples: seq<Tuple>, i: nat)
    requires Sendable(shape, tuples) && Marked(shape, tuples) && i < |tuples|
    requires !NoStray(shape, tuples[i]) && NoStrays(shape, tuples[..i])
    ensures var p := |ArraysOf(shape, Accepted(shape, tuples[..i]))|;
            p < |ArraysLeft(shape, tuples)| && ArraysLeft(shape, tuples)[p] == 1
  {
    assert MarkedTuple(shape, tuples[i]);
    hide Payload, AllSized, Inserted, ArraysOf, ArraysLeft, Accepted, ValidTuple, MarkedTuple, NoStrays, NoStray, Marked, All;
    StrayPayload(shape, tuples[i]);
    StraysShow(shape, tuples[..i]);
    TriedAt(shape, tuples, i);
    EventGrowsOn(shape, tuples, i + 1);
    ByteAt(ArraysLeft(shape, tuples), ArraysLeft(shape, tuples[..i]), Payload(shape, tuples[i], Inserted(shape, tuples[i])));
  }

  lemma HasData(shape: Shape, t: Tuple)
    requires ValidTuple(shape, t) && !NoArrays(shape, t)
    ensures AllSized(shape, t, |shape.arrays|) && |Payload(shape, t, Inserted(shape, t))| > 0
  {
    NoNegative(shape, t);
  }

  lemma AcceptedGrow(shape: Shape, tuples: seq<Tuple>, i: nat, j: nat)
    requires Sendable(shape, tuples) && i <= j <= |tuples|
    ensures |ArraysOf(shape, Accepted(shape, tuples[..i]))| <= |ArraysOf(shape, Accepted(shape, tuples[..j]))|
  {
    hide ArraysOf, Accepted, ArraysLeft, ValidTuple;
    assert tuples[..j][..i] == tuples[..i];
    EventGrowsOn(shape, tuples[..j], i);
  }

  lemma DataAt(shape: Shape, tuples: seq<Tuple>, j: nat)
    requires Sendable(shape, tuples) && j < |tuples| && !NoArrays(shape, tuples[j])
    ensures |ArraysOf(shape, Accepted(shape, tuples[..j]))| < |ArraysOf(shape, Accepted(shape, tuples[..j + 1]))|
  {
    HasData(shape, tuples[j]);
    hide Payload, AllSized, Inserted, ArraysOf, ArraysLeft, Accepted, ValidTuple, NoArrays;
    TriedAt(shape, tuples, j);
  }

  /** An accepted tuple with array data makes the accepted data longer than before it. */
  lemma DataAfter(shape: Shape, tuples: seq<Tuple>, i: nat, j: nat)
    requires Sendable(shape, tuples) && i < j < |tuples| && !NoArrays(shape, tuples[j])
    ensures |ArraysOf(shape, Accepted(shape, tuples[..i]))| < |ArraysOf(shape, Accepted(shape, tuples))|
  {
    hide ArraysOf, Accepted, NoArrays, ValidTuple, ArraysLeft;
    AcceptedGrow(shape, tuples, i, j);
    DataAt(shape, tuples, j);
    EventGrowsOn(shape, tuples, j + 1);
  }

  lemma StrayInTheWay(shape: Shape, tuples: seq<Tuple>)
    requires Sendable(shape, tuples) && Marked(shape, tuples) && !StraysLast(shape, tuples)
    ensures !(ArraysOf(shape, Accepted(shape, tuples)) <= ArraysLeft(shape, tuples))
  {
    hide Payload, AllSized, Inserted, ArraysOf, ArraysLeft, Accepted, ValidTuple, NoStray, NoArrays, Marked;
    var n, j :| 0 <= n < j < |tuples| && !NoStray(shape, tuples[n]) && !NoArrays(shape, tuples[j]);
    var i := FirstStray(shape, tuples, n);
    StrayByte(shape, tuples, i);
    DataAfter(shape, tuples, i, j);
    OnlyZeros(shape, tuples);
  }

  /** Whatever is in memory, the array data begins with that of the accepted tuples. */
  ghost predicate AlwaysLead(shape: Shape, tuples: seq<Tuple>) {
    forall u :: SameButMemory(tuples, u) && Sendable(shape, u) ==> ArraysOf(shape, Accepted(shape, u)) <= ArraysLeft(shape, u)
  }

  /** The arrays come back, whatever is in memory, exactly when no refused tuple that
      leaves data comes before an accepted one with array data. */
  lemma AlwaysLeadIff(shape: Shape, tuples: seq<Tuple>)
    requires Sendable(shape, tuples)
    ensures AlwaysLead(shape, tuples) <==> StraysLast(shape, tuples)
  {
    if StraysLast(shape, tuples) {
      forall u | SameButMemory(tuples, u) && Sendable(shape, u)
        ensures ArraysOf(shape, Accepted(shape, u)) <= ArraysLeft(shape, u)
      {
        SameStrays(shape, tuples, u);
        StraysLastIsEnough(shape, u);
      }
    } else {
      var marked := MarkedExists(shape, tuples);
      SameStrays(shape, tuples, marked);
      StrayInTheWay(shape, marked);
    }
  }
}
