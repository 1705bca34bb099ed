/**
  The code generated to marshal a stream: batch<Name> puts tuples with arrays into an
  event, <Name>Handler takes them out again.
*/
module MarshalCodec {
  import opened Basics

  const TWO_31: int := 0x8000_0000
  const TWO_32: int := 0x1_0000_0000

  /** A value kept in an int32, on a machine that wraps. */
  function Int32(x: int): (r: int)
    ensures -TWO_31 <= r < TWO_31
    ensures -TWO_31 <= x < TWO_31 ==> r == x
  {
    (x + TWO_31) % TWO_32 - TWO_31
  }

  function UInt32(x: int): (r: nat)
    ensures r < TWO_32
    ensures 0 <= x < TWO_32 ==> r == x
  {
    x % TWO_32
  }

  // ----- four bytes for a size

  function Put32(n: nat): (r: Bytes)
    requires n < TWO_32
    ensures |r| == 4
  {
    [n % 256, n / 256 % 256, n / 65536 % 256, n / 16777216]
  }

  function Get32(s: Bytes): nat
    requires |s| == 4
  {
    s[0] as int + 256 * (s[1] as int) + 65536 * (s[2] as int) + 16777216 * (s[3] as int)
  }

  lemma GetPut(n: nat)
    requires n < TWO_32
    ensures Get32(Put32(n)) == n
  {
    assert n / 65536 == n / 256 / 256 && n / 16777216 == n / 256 / 256 / 256;
  }

  // ----- tuples

  /** An array field: where its four bytes are in the tuple, and its size in bytes, or
      for a variable one the lower bound of its first dimension and the bytes of one
      row. */
  datatype ArrayField = Fixed(at: nat, size: nat) | Variable(at: nat, lower: int, row: nat)

  datatype Shape = Shape(headerSize: nat, bodySize: nat, arrays: seq<ArrayField>)

  ghost predicate ValidShape(shape: Shape) {
    && (forall i :: 0 <= i < |shape.arrays| ==> ValidField(shape, shape.arrays[i]))
    && forall i, j :: 0 <= i < j < |shape.arrays| ==> Apart(shape.arrays[i].at, shape.arrays[j].at)
  }

  ghost predicate ValidField(shape: Shape, f: ArrayField) {
    && f.at + 4 <= shape.bodySize
    && (f.Fixed? ==> f.size < TWO_31)
    && (f.Variable? ==> 0 < f.row < TWO_31 && -TWO_31 <= f.lower < TWO_31)
  }

  predicate Apart(a: nat, b: nat) {
    a + 4 <= b || b + 4 <= a
  }

  /** A tuple to send: for each array field what its pointer leads to, and the upper
      bound given for it (of no meaning for a fixed one). */
  datatype Tuple = Tuple(header: Bytes, body: Bytes, memory: seq<Bytes>, maxes: seq<int>)

  /** The number of rows up to max, as the sender computes it. */
  function Rows(f: ArrayField, max: int): int
    requires f.Variable?
  {
    Int32(max + Int32(1 - f.lower))
  }

  function SizeOf(f: ArrayField, max: int): int {
    match f
    case Fixed(_, size) => Int32(size)
    case Variable(_, _, row) => Int32(Rows(f, max) * row)
  }

  function MaxOf(f: ArrayField, size: nat): int
    requires f.Variable? && f.row > 0
  {
    Int32(Int32(size / f.row) - Int32(1 - f.lower))
  }

  ghost predicate Fits(f: ArrayField, max: int) {
    f.Variable? ==> 0 <= Rows(f, max) * f.row < TWO_31
  }

  lemma Turns(x: int) returns (k: int)
    ensures Int32(x) == x + k * TWO_32
  {
    k := -((x + TWO_31) / TWO_32);
  }

  lemma Multiple(x: int, k: int)
    ensures Int32(x + k * TWO_32) == Int32(x)
  {
  }

  /** The receiver gets the upper bound back exactly when the sender's size, rows times
      the bytes of a row, is neither negative nor too large for an int32. */
  lemma BoundSurvives(f: ArrayField, max: int)
    requires f.Variable? && 0 < f.row < TWO_31 && -TWO_31 <= f.lower < TWO_31 && -TWO_31 <= max < TWO_31
    ensures Fits(f, max) <==> SizeOf(f, max) >= 0 && MaxOf(f, SizeOf(f, max)) == max
  {
    if Fits(f, max) {
      FitsComesBack(f, max);
    } else if SizeOf(f, max) >= 0 && MaxOf(f, SizeOf(f, max)) == max {
      OnlyFitsComesBack(f, max);
    }
  }

  lemma FitsComesBack(f: ArrayField, max: int)
    requires f.Variable? && 0 < f.row && -TWO_31 <= max < TWO_31 && Fits(f, max)
    ensures SizeOf(f, max) == Rows(f, max) * f.row && MaxOf(f, SizeOf(f, max)) == max
  {
    RowsWrap(f, max);
    Quotient(Rows(f, max), f.row);
  }

  lemma OnlyFitsComesBack(f: ArrayField, max: int)
    requires f.Variable? && 0 < f.row && -TWO_31 <= max < TWO_31
    requires SizeOf(f, max) >= 0 && MaxOf(f, SizeOf(f, max)) == max
    ensures Fits(f, max)
  {
    hide *;
    var size := SizeOf(f, max);
    var q := Divides(size, f.row);
    SizeBound(f, max);
    BoundFrom(f, size, q);
    QuotientIsRows(f, max, q);
    FitsWith(f, max, q);
  }

  lemma BoundFrom(f: ArrayField, size: nat, q: nat)
    requires f.Variable? && f.row > 0 && q == size / f.row
    ensures MaxOf(f, size) == Int32(Int32(q) - Int32(1 - f.lower))
  {
  }

  lemma FitsWith(f: ArrayField, max: int, q: nat)
    requires f.Variable? && q == Rows(f, max) && 0 <= q * f.row < TWO_31
    ensures Fits(f, max)
  {
    hide Rows;
  }

  lemma SizeBound(f: ArrayField, max: int)
    ensures SizeOf(f, max) < TWO_31
  {
  }

  lemma QuotientIsRows(f: ArrayField, max: int, q: nat)
    requires f.Variable? && -TWO_31 <= max < TWO_31 && q < TWO_31
    requires Int32(Int32(q) - Int32(1 - f.lower)) == max
    ensures q == Rows(f, max)
  {
    RowsWrap(f, max);
    assert Int32(q) == q;
    var rows, below := Rows(f, max), Int32(1 - f.lower);
    assert -TWO_31 <= rows < TWO_31;
    hide Int32, Rows;
    SameWrapped(q, rows, below);
  }

  lemma RowsWrap(f: ArrayField, max: int)
    requires f.Variable? && -TWO_31 <= max < TWO_31
    ensures Int32(Rows(f, max) - Int32(1 - f.lower)) == max
  {
    hide Int32;
    var k := Turns(max + Int32(1 - f.lower));
    Multiple(max, k);
  }

  lemma Divides(size: nat, row: nat) returns (q: nat)
    requires row > 0
    ensures q == size / row && q <= size && 0 <= q * row <= size
  {
    q := size / row;
    assert size == row * q + size % row;
    AtLeast(q, row);
  }

  lemma AtLeast(q: nat, row: nat)
    requires row > 0
    ensures q * row >= q
  {
  }

  lemma Quotient(rows: int, row: nat)
    requires row > 0 && 0 <= rows * row
    ensures rows >= 0 && rows * row / row == rows
  {
    var x := rows * row;
    var q, r := x / row, x % row;
    assert x == row * q + r;
    assert row * (q - rows) == -r by { Distribute(row, q, rows); }
    SmallMultiple(row, q - rows);
    if rows < 0 {
      SmallMultiple(row, rows);
    }
  }

  lemma Distribute(row: int, q: int, rows: int)
    ensures row * (q - rows) == row * q - rows * row
  {
  }

  lemma SmallMultiple(row: nat, d: int)
    requires row > 0
    ensures d >= 1 ==> row * d >= row
    ensures d <= -1 ==> row * d + row <= 0
  {
  }

  lemma SameWrapped(a: int, b: int, c: int)
    requires -TWO_31 <= a < TWO_31 && -TWO_31 <= b < TWO_31 && Int32(a - c) == Int32(b - c)
    ensures a == b
  {
    hide Int32;
    var k := Turns(a - c);
    var l := Turns(b - c);
  }

  // ----- what the sizes are

  /** s is the size of an array: that of the shape for a fixed one, else the number of rows
      from the lower bound to max times the bytes of a row, as an int32 holds it. */
  ghost predicate IsSize(f: ArrayField, max: int, s: int) {
    match f
    case Fixed(_, size) => s == size
    case Variable(_, lower, row) => -TWO_31 <= s < TWO_31 && (s - (max + 1 - lower) * row) % TWO_32 == 0
  }

  /** The bytes are those of an array: the first behind its pointer, as many as its size. */
  ghost predicate Whole(f: ArrayField, max: int, memory: Bytes, bytes: Bytes) {
    bytes <= memory && IsSize(f, max, |bytes|)
  }

  lemma SizeIs(f: ArrayField, max: int)
    requires f.Fixed? ==> f.size < TWO_31
    ensures IsSize(f, max, SizeOf(f, max))
  {
    if f.Variable? {
      var rows, plain := Rows(f, max), max + 1 - f.lower;
      var k := Turns(1 - f.lower);
      var l := Turns(max + Int32(1 - f.lower));
      var n := Turns(rows * f.row);
      assert rows == plain + (k + l) * TWO_32;
      TimesTurns(plain, k + l, f.row);
      ManyTurns(SizeOf(f, max) - plain * f.row, (k + l) * f.row + n);
    }
  }

  lemma TimesTurns(x: int, k: int, row: int)
    ensures (x + k * TWO_32) * row == x * row + (k * row) * TWO_32
  {
  }

  lemma ManyTurns(x: int, k: int)
    requires x == k * TWO_32
    ensures x % TWO_32 == 0
  {
  }

  lemma OneSize(f: ArrayField, max: int, s: int, s': int)
    requires IsSize(f, max, s) && IsSize(f, max, s')
    ensures s == s'
  {
    if f.Variable? {
      var x := (max + 1 - f.lower) * f.row;
      assert s - x == (s - x) / TWO_32 * TWO_32 && s' - x == (s' - x) / TWO_32 * TWO_32;
    }
  }

  /** For the bounds that fit it is the product itself, and with rows that fit an int32 the
      rows are those from the lower bound to max. */
  lemma FittingSize(f: ArrayField, max: int)
    requires f.Variable? && 0 <= (max + 1 - f.lower) * f.row < TWO_31
    ensures SizeOf(f, max) == (max + 1 - f.lower) * f.row
  {
    SizeIs(f, max);
    OneSize(f, max, SizeOf(f, max), (max + 1 - f.lower) * f.row);
  }

  lemma WholeIff(f: ArrayField, max: int, memory: Bytes, bytes: Bytes)
    requires (f.Fixed? ==> f.size < TWO_31) && SizeOf(f, max) >= 0
    ensures Whole(f, max, memory, bytes) <==> |memory| >= SizeOf(f, max) && bytes == memory[..SizeOf(f, max)]
  {
    hide SizeOf;
    SizeIs(f, max);
    if Whole(f, max, memory, bytes) {
      OneSize(f, max, SizeOf(f, max), |bytes|);
    }
  }

  // ----- the sender

  ghost predicate ValidTuple(shape: Shape, t: Tuple) {
    && |t.header| == shape.headerSize && |t.body| == shape.bodySize
    && |t.memory| == |t.maxes| == |shape.arrays|
    && forall i :: 0 <= i < |shape.arrays| ==> Readable(shape.arrays[i], t.maxes[i], t.memory[i])
  }

  /** There is as much behind the pointer as the bound says, and bounds are int32s. */
  ghost predicate Readable(f: ArrayField, max: int, memory: Bytes) {
    -TWO_31 <= max < TWO_31 && |memory| >= SizeOf(f, max)
  }

  function Sized(shape: Shape, t: Tuple, i: nat): (size: nat)
    requires i < |shape.arrays| && |t.maxes| == |shape.arrays| && SizeOf(shape.arrays[i], t.maxes[i]) >= 0
    ensures size < TWO_31
  {
    SizeOf(shape.arrays[i], t.maxes[i])
  }

  ghost predicate AllSized(shape: Shape, t: Tuple, n: nat)
    requires n <= |shape.arrays| == |t.maxes|
  {
    forall i :: 0 <= i < n ==> SizeOf(shape.arrays[i], t.maxes[i]) >= 0
  }

  /** The array data of the first n array fields. */
  ghost function Payload(shape: Shape, t: Tuple, n: nat): Bytes
    requires ValidTuple(shape, t) && n <= |shape.arrays| && AllSized(shape, t, n)
  {
    if n == 0 then []
    else
      assert Readable(shape.arrays[n - 1], t.maxes[n - 1], t.memory[n - 1]);
      Payload(shape, t, n - 1) + t.memory[n - 1][..Sized(shape, t, n - 1)]
  }

  function Write32(body: Bytes, at: nat, n: nat): (r: Bytes)
    requires at + 4 <= |body| && n < TWO_32
    ensures |r| == |body|
  {
    body[..at] + Put32(n) + body[at + 4..]
  }

  /** The tuple's data with the sizes of the first n array fields in their places. */
  ghost function SizesIn(shape: Shape, t: Tuple, n: nat): (r: Bytes)
    requires ValidShape(shape) && ValidTuple(shape, t) && n <= |shape.arrays| && AllSized(shape, t, n)
    ensures |r| == shape.bodySize
  {
    if n == 0 then t.body
    else
      assert ValidField(shape, shape.arrays[n - 1]);
      Write32(SizesIn(shape, t, n - 1), shape.arrays[n - 1].at, Sized(shape, t, n - 1))
  }

  class StreamEvent {
    var binTuples: Bytes
    var binArrays: Bytes
    var insertedCount: nat

    constructor ()
      ensures binTuples == [] && binArrays == [] && insertedCount == 0
    {
      binTuples, binArrays, insertedCount := [], [], 0;
    }

    method InsertBin(binTuple: Bytes)
      modifies this`binTuples, this`insertedCount
      ensures binTuples == old(binTuples) + binTuple && insertedCount == old(insertedCount) + 1
    {
      binTuples, insertedCount := binTuples + binTuple, insertedCount + 1;
    }

    method InsertArray(binArray: Bytes)
      modifies this`binArrays
      ensures binArrays == old(binArrays) + binArray
    {
      binArrays := binArrays + binArray;
    }
  }

  /** The array fields before the first with a negative size. */
  ghost function Inserted(shape: Shape, t: Tuple, from: nat := 0): (k: nat)
    requires from <= |shape.arrays| == |t.maxes| && AllSized(shape, t, from)
    ensures k <= |shape.arrays| && AllSized(shape, t, k)
    ensures k < |shape.arrays| ==> SizeOf(shape.arrays[k], t.maxes[k]) < 0
    decreases |shape.arrays| - from
  {
    if from == |shape.arrays| || SizeOf(shape.arrays[from], t.maxes[from]) < 0 then from
    else Inserted(shape, t, from + 1)
  }

  lemma FirstNegative(shape: Shape, t: Tuple, i: nat)
    requires i < |shape.arrays| == |t.maxes| && AllSized(shape, t, i) && SizeOf(shape.arrays[i], t.maxes[i]) < 0
    ensures Inserted(shape, t) == i && !AllSized(shape, t, |shape.arrays|)
  {
    hide SizeOf;
    var k := Inserted(shape, t);
  }

  lemma NoNegative(shape: Shape, t: Tuple)
    requires |shape.arrays| == |t.maxes| && AllSized(shape, t, |shape.arrays|)
    ensures Inserted(shape, t) == |shape.arrays|
  {
    hide SizeOf;
    var k := Inserted(shape, t);
  }

  function Joined(parts: seq<Bytes>): Bytes {
    if parts == [] then [] else Joined(parts[..|parts| - 1]) + parts[|parts| - 1]
  }

  /** What one call adds to an event, the array data in parts.  For a tuple that is taken:
      its header, its data with each array's length in the slot of its pointer, and all the
      arrays; for one that is refused, the arrays before the first with a negative size. */
  ghost predicate Adds(shape: Shape, t: Tuple, ok: bool, bin: Bytes, parts: seq<Bytes>)
    requires ValidShape(shape) && ValidTuple(shape, t)
  {
    && |parts| <= |shape.arrays|
    && (forall i :: 0 <= i < |parts| ==> Whole(shape.arrays[i], t.maxes[i], t.memory[i], parts[i]))
    && if ok then |parts| == |shape.arrays| && AddsTuple(shape, t, bin, parts)
       else bin == [] && |parts| < |shape.arrays| && Negative(shape.arrays[|parts|], t.maxes[|parts|])
  }

  ghost predicate Negative(f: ArrayField, max: int) {
    exists s :: IsSize(f, max, s) && s < 0
  }

  ghost predicate AddsTuple(shape: Shape, t: Tuple, bin: Bytes, parts: seq<Bytes>)
    requires ValidShape(shape) && ValidTuple(shape, t) && |parts| == |shape.arrays|
  {
    && |bin| == shape.headerSize + shape.bodySize && bin[..shape.headerSize] == t.header
    && var body := bin[shape.headerSize..];
       && (forall i :: 0 <= i < |parts| ==> SlotIs(shape, body, i, |parts[i]|))
       && forall p :: 0 <= p < shape.bodySize && InNoSlot(shape, p) ==> body[p] == t.body[p]
  }

  ghost predicate SlotIs(shape: Shape, body: Bytes, i: nat, size: nat)
    requires ValidShape(shape) && |body| == shape.bodySize && i < |shape.arrays|
  {
    assert ValidField(shape, shape.arrays[i]);
    Get32(body[shape.arrays[i].at..shape.arrays[i].at + 4]) == size
  }

  lemma {:induction false} PayloadParts(shape: Shape, t: Tuple, n: nat) returns (parts: seq<Bytes>)
    requires ValidShape(shape) && ValidTuple(shape, t) && n <= |shape.arrays| && AllSized(shape, t, n)
    ensures |parts| == n && Joined(parts) == Payload(shape, t, n)
    ensures forall i :: 0 <= i < n ==> |parts[i]| == Sized(shape, t, i) && Whole(shape.arrays[i], t.maxes[i], t.memory[i], parts[i])
  {
    parts := [];
    if n > 0 {
      var before := PayloadParts(shape, t, n - 1);
      assert ValidField(shape, shape.arrays[n - 1]) && Readable(shape.arrays[n - 1], t.maxes[n - 1], t.memory[n - 1]);
      var last := t.memory[n - 1][..Sized(shape, t, n - 1)];
      WholeIff(shape.arrays[n - 1], t.maxes[n - 1], t.memory[n - 1], last);
      parts := before + [last];
      assert parts[..n - 1] == before;
    }
  }

  /** The event's data went on from one state to another by such an addition. */
  ghost predicate Added(shape: Shape, t: Tuple, ok: bool, tuples: Bytes, arrays: Bytes, tuples': Bytes, arrays': Bytes)
    requires ValidShape(shape) && ValidTuple(shape, t)
  {
    exists bin, parts :: Adds(shape, t, ok, bin, parts) && tuples' == tuples + bin && arrays' == arrays + Joined(parts)
  }

  lemma TupleAdded(shape: Shape, t: Tuple, tuples: Bytes, arrays: Bytes, tuples': Bytes, arrays': Bytes)
    requires ValidShape(shape) && ValidTuple(shape, t) && AllSized(shape, t, |shape.arrays|)
    requires tuples' == tuples + (t.header + SizesIn(shape, t, |shape.arrays|))
    requires arrays' == arrays + Payload(shape, t, |shape.arrays|)
    ensures Added(shape, t, true, tuples, arrays, tuples', arrays')
  {
    var n, body := |shape.arrays|, SizesIn(shape, t, |shape.arrays|);
    var parts := PayloadParts(shape, t, n);
    assert (t.header + body)[..shape.headerSize] == t.header && (t.header + body)[shape.headerSize..] == body;
    forall i | 0 <= i < n
      ensures SlotIs(shape, body, i, |parts[i]|)
    {
      SlotHoldsSize(shape, t, i, n);
    }
    BodySame(shape, t);
    hide SizesIn, Payload, Whole, InNoSlot, SlotIs, Joined;
    assert AddsTuple(shape, t, t.header + body, parts);
    assert Adds(shape, t, true, t.header + body, parts);
  }

  lemma ArraysAdded(shape: Shape, t: Tuple, i: nat, tuples: Bytes, arrays: Bytes, arrays': Bytes)
    requires ValidShape(shape) && ValidTuple(shape, t) && i < |shape.arrays| && AllSized(shape, t, i)
    requires SizeOf(shape.arrays[i], t.maxes[i]) < 0
    requires arrays' == arrays + Payload(shape, t, i)
    ensures Added(shape, t, false, tuples, arrays, tuples, arrays')
  {
    var parts := PayloadParts(shape, t, i);
    assert ValidField(shape, shape.arrays[i]);
    SizeIs(shape.arrays[i], t.maxes[i]);
    assert Negative(shape.arrays[i], t.maxes[i]);
    hide SizesIn, Payload, Whole, Joined, Negative;
    assert Adds(shape, t, false, [], parts) && tuples == tuples + [];
  }

  /** Adds a tuple to the event. A negative size is an exception, after which the event
      keeps the data of the arrays before it. */
  method Batch(shape: Shape, event: StreamEvent, t: Tuple) returns (ok: bool)
    requires ValidShape(shape) && ValidTuple(shape, t)
    modifies event
    ensures ok <==> AllSized(shape, t, |shape.arrays|)
    ensures ok ==> event.binTuples == old(event.binTuples) + t.header + SizesIn(shape, t, |shape.arrays|)
                   && event.insertedCount == old(event.insertedCount) + 1
    ensures !ok ==> event.binTuples == old(event.binTuples) && event.insertedCount == old(event.insertedCount)
    ensures event.binArrays == old(event.binArrays) + Payload(shape, t, Inserted(shape, t))
    ensures Added(shape, t, ok, old(event.binTuples), old(event.binArrays), event.binTuples, event.binArrays)
  {
    hide SizeOf, Inserted, Added;
    var body := t.body;
    ghost var arrays := event.binArrays;
    var i := 0;
    while i < |shape.arrays|
      invariant 0 <= i <= |shape.arrays| && AllSized(shape, t, i)
      invariant body == SizesIn(shape, t, i)
      invariant event.binTuples == old(event.binTuples) && event.insertedCount == old(event.insertedCount)
      invariant event.binArrays == arrays + Payload(shape, t, i)
    {
      assert ValidField(shape, shape.arrays[i]) && Readable(shape.arrays[i], t.maxes[i], t.memory[i]);
      var size := SizeOf(shape.arrays[i], t.maxes[i]);
      if size < 0 {
        FirstNegative(shape, t, i);
        ArraysAdded(shape, t, i, event.binTuples, arrays, event.binArrays);
        return false;
      }
      assert size == Sized(shape, t, i);
      Regroup(arrays, Payload(shape, t, i), t.memory[i][..size]);
      event.InsertArray(t.memory[i][..size]);
      body := Write32(body, shape.arrays[i].at, size);
      i := i + 1;
    }
    NoNegative(shape, t);
    event.InsertBin(t.header + body);
    Regroup(old(event.binTuples), t.header, body);
    TupleAdded(shape, t, old(event.binTuples), arrays, event.binTuples, event.binArrays);
    ok := true;
  }

  lemma Regroup(a: Bytes, b: Bytes, c: Bytes)
    ensures a + (b + c) == (a + b) + c
  {
  }

  // ----- what an event holds

  ghost predicate ValidBatch(shape: Shape, sent: seq<Tuple>) {
    forall i :: 0 <= i < |sent| ==> ValidTuple(shape, sent[i]) && AllSized(shape, sent[i], |shape.arrays|)
  }

  ghost function TuplesOf(shape: Shape, sent: seq<Tuple>): Bytes
    requires ValidShape(shape) && ValidBatch(shape, sent)
  {
    if sent == [] then []
    else
      var n := |sent| - 1;
      TuplesOf(shape, sent[..n]) + sent[n].header + SizesIn(shape, sent[n], |shape.arrays|)
  }

  ghost function ArraysOf(shape: Shape, sent: seq<Tuple>): Bytes
    requires ValidBatch(shape, sent)
  {
    if sent == [] then []
    else
      var n := |sent| - 1;
      ArraysOf(shape, sent[..n]) + Payload(shape, sent[n], |shape.arrays|)
  }

  /** The event is what sending these tuples, one after the other, makes of a new one. */
  ghost predicate Holds(shape: Shape, event: StreamEvent, sent: seq<Tuple>)
    requires ValidShape(shape) && ValidBatch(shape, sent)
    reads event
  {
    && event.binTuples == TuplesOf(shape, sent)
    && event.binArrays == ArraysOf(shape, sent)
    && event.insertedCount == |sent|
  }

  ghost predicate Sendable(shape: Shape, tuples: seq<Tuple>) {
    forall i :: 0 <= i < |tuples| ==> ValidTuple(shape, tuples[i])
  }

  /** The tuples that are not refused. */
  ghost function Accepted(shape: Shape, tuples: seq<Tuple>): (sent: seq<Tuple>)
    requires Sendable(shape, tuples)
    ensures ValidBatch(shape, sent)
  {
    if tuples == [] then []
    else
      var n := |tuples| - 1;
      var before := Accepted(shape, tuples[..n]);
      if AllSized(shape, tuples[n], |shape.arrays|) then before + [tuples[n]] else before
  }

  /** What all the tuples leave in the event's array data. */
  ghost function ArraysLeft(shape: Shape, tuples: seq<Tuple>): Bytes
    requires Sendable(shape, tuples)
  {
    if tuples == [] then []
    else
      var n := |tuples| - 1;
      ArraysLeft(shape, tuples[..n]) + Payload(shape, tuples[n], Inserted(shape, tuples[n]))
  }

  /** A refused tuple leaves no array data. */
  ghost predicate NoStray(shape: Shape, t: Tuple)
    requires ValidTuple(shape, t)
  {
    AllSized(shape, t, |shape.arrays|) || Payload(shape, t, Inserted(shape, t)) == []
  }

  ghost predicate NoStrays(shape: Shape, tuples: seq<Tuple>)
    requires Sendable(shape, tuples)
  {
    forall i :: 0 <= i < |tuples| ==> NoStray(shape, tuples[i])
  }

  lemma OneMoreSent(shape: Shape, sent: seq<Tuple>, t: Tuple)
    requires ValidBatch(shape, sent) && ValidTuple(shape, t) && AllSized(shape, t, |shape.arrays|)
    ensures ValidBatch(shape, sent + [t])
    ensures ArraysOf(shape, sent + [t]) == ArraysOf(shape, sent) + Payload(shape, t, |shape.arrays|)
    ensures ValidShape(shape) ==>
              TuplesOf(shape, sent + [t]) == TuplesOf(shape, sent) + t.header + SizesIn(shape, t, |shape.arrays|)
  {
    assert (sent + [t])[..|sent|] == sent;
  }

  /** What one more tuple adds to the arrays left, and to those of the accepted. */
  lemma OneMoreTried(shape: Shape, tuples: seq<Tuple>)
    requires Sendable(shape, tuples) && tuples != []
    ensures var n, t := |tuples| - 1, tuples[|tuples| - 1];
            var x, before := Payload(shape, t, Inserted(shape, t)), ArraysOf(shape, Accepted(shape, tuples[..n]));
            && ArraysLeft(shape, tuples) == ArraysLeft(shape, tuples[..n]) + x
            && ArraysOf(shape, Accepted(shape, tuples)) == (if AllSized(shape, t, |shape.arrays|) then before + x else before)
            && (NoStray(shape, t) <==> AllSized(shape, t, |shape.arrays|) || x == [])
  {
    var n, t := |tuples| - 1, tuples[|tuples| - 1];
    if AllSized(shape, t, |shape.arrays|) {
      NoNegative(shape, t);
      OneMoreSent(shape, Accepted(shape, tuples[..n]), t);
    }
    hide AllSized, ValidTuple, Payload, Inserted, ArraysOf;
  }

  /** The arrays left are those of the accepted tuples exactly when no refused tuple
      leaves any. */
  lemma {:induction false} StraysShow(shape: Shape, tuples: seq<Tuple>)
    requires Sendable(shape, tuples)
    ensures |ArraysLeft(shape, tuples)| >= |ArraysOf(shape, Accepted(shape, tuples))|
    ensures NoStrays(shape, tuples) ==> ArraysLeft(shape, tuples) == ArraysOf(shape, Accepted(shape, tuples))
    ensures !NoStrays(shape, tuples) ==> |ArraysLeft(shape, tuples)| > |ArraysOf(shape, Accepted(shape, tuples))|
  {
    if tuples != [] {
      StraysShow(shape, tuples[..|tuples| - 1]);
      LastStray(shape, tuples);
      OneMoreTried(shape, tuples);
      hide AllSized, ValidTuple, Payload, Inserted, NoStrays, NoStray, ArraysLeft, ArraysOf, Accepted;
    }
  }

  lemma LastStray(shape: Shape, tuples: seq<Tuple>)
    requires Sendable(shape, tuples) && tuples != []
    ensures var n := |tuples| - 1; NoStrays(shape, tuples) <==> NoStrays(shape, tuples[..n]) && NoStray(shape, tuples[n])
  {
    hide NoStray, ValidTuple;
    var fewer := tuples[..|tuples| - 1];
    assert forall i :: 0 <= i < |fewer| ==> fewer[i] == tuples[i];
  }

  lemma AllAccepted(shape: Shape, tuples: seq<Tuple>)
    requires ValidBatch(shape, tuples)
    ensures Sendable(shape, tuples) && Accepted(shape, tuples) == tuples && NoStrays(shape, tuples)
  {
    if tuples != [] {
      var n := |tuples| - 1;
      AllAccepted(shape, tuples[..n]);
      assert tuples[..n] + [tuples[n]] == tuples;
    }
  }

  /** Sends these tuples one after the other, going on after a refusal. The event then
      holds the accepted ones exactly when no refused one has left array data in it. */
  method BatchAll(shape: Shape, tuples: seq<Tuple>) returns (event: StreamEvent)
    requires ValidShape(shape) && Sendable(shape, tuples)
    ensures fresh(event)
    ensures var sent := Accepted(shape, tuples);
            && event.binTuples == TuplesOf(shape, sent) && event.insertedCount == |sent|
            && event.binArrays == ArraysLeft(shape, tuples)
            && (Holds(shape, event, sent) <==> NoStrays(shape, tuples))
    ensures ValidBatch(shape, tuples) ==> Holds(shape, event, tuples)
  {
    hide ValidTuple, AllSized, Payload, Inserted, SizesIn, NoStrays, TuplesOf, ArraysOf;
    event := new StreamEvent();
    ghost var sent := [];
    assert TuplesOf(shape, []) == [] by {
      NothingHeld(shape);
    }
    var i := 0;
    while i < |tuples|
      invariant 0 <= i <= |tuples| && fresh(event) && sent == Accepted(shape, tuples[..i])
      invariant event.binTuples == TuplesOf(shape, sent) && event.insertedCount == |sent|
      invariant event.binArrays == ArraysLeft(shape, tuples[..i])
    {
      assert tuples[..i + 1][..i] == tuples[..i];
      var ok := Batch(shape, event, tuples[i]);
      if ok {
        OneMoreSent(shape, sent, tuples[i]);
        sent := sent + [tuples[i]];
      }
      i := i + 1;
    }
    assert tuples[..i] == tuples;
    StraysShow(shape, tuples);
    if ValidBatch(shape, tuples) {
      AllAccepted(shape, tuples);
    }
  }

  lemma NothingHeld(shape: Shape)
    requires ValidShape(shape)
    ensures TuplesOf(shape, []) == []
  {
  }

  // ----- the receiver

  /** What the receiver is given: the tuple's data, what the pointer of each array field
      leads to, and an upper bound (of no meaning for a fixed one). */
  datatype Received = Received(body: Bytes, arrays: seq<Bytes>, maxes: seq<int>)

  ghost predicate InNoSlot(shape: Shape, p: nat) {
    forall i :: 0 <= i < |shape.arrays| ==> p < shape.arrays[i].at || shape.arrays[i].at + 4 <= p
  }

  /** r is t again: every byte outside the array pointers, the data of every array, and
      every bound. */
  ghost predicate Same(shape: Shape, r: Received, t: Tuple)
    requires ValidShape(shape) && ValidTuple(shape, t) && AllSized(shape, t, |shape.arrays|)
  {
    && |r.body| == shape.bodySize && (forall p :: 0 <= p < |r.body| && InNoSlot(shape, p) ==> r.body[p] == t.body[p])
    && SameArrays(shape, r.arrays, r.maxes, t, |shape.arrays|)
  }

  ghost predicate SameArrays(shape: Shape, arrays: seq<Bytes>, maxes: seq<int>, t: Tuple, n: nat)
    requires ValidShape(shape) && ValidTuple(shape, t) && n <= |shape.arrays| && AllSized(shape, t, n)
  {
    && |arrays| == |maxes| == n
    && forall i :: 0 <= i < n ==>
         && Whole(shape.arrays[i], t.maxes[i], t.memory[i], arrays[i])
         && (shape.arrays[i].Variable? ==> maxes[i] == t.maxes[i])
  }

  ghost predicate AllFit(shape: Shape, t: Tuple)
    requires |t.maxes| == |shape.arrays|
  {
    forall i :: 0 <= i < |shape.arrays| ==> Fits(shape.arrays[i], t.maxes[i])
  }

  lemma ReadOtherSlot(body: Bytes, at: nat, n: nat, other: nat)
    requires at + 4 <= |body| && other + 4 <= |body| && n < TWO_32
    ensures Apart(at, other) ==> Write32(body, at, n)[other..other + 4] == body[other..other + 4]
    ensures at == other ==> Get32(Write32(body, at, n)[other..other + 4]) == n
  {
    if at == other {
      assert Write32(body, at, n)[other..other + 4] == Put32(n);
      GetPut(n);
    }
  }

  /** Each slot holds the size of its array. */
  lemma {:induction false} SlotHoldsSize(shape: Shape, t: Tuple, i: nat, n: nat)
    requires ValidShape(shape) && ValidTuple(shape, t) && i < n <= |shape.arrays| && AllSized(shape, t, n)
    ensures shape.arrays[i].at + 4 <= shape.bodySize
    ensures Get32(SizesIn(shape, t, n)[shape.arrays[i].at..shape.arrays[i].at + 4]) == Sized(shape, t, i)
  {
    assert ValidField(shape, shape.arrays[n - 1]) && ValidField(shape, shape.arrays[i]);
    ReadOtherSlot(SizesIn(shape, t, n - 1), shape.arrays[n - 1].at, Sized(shape, t, n - 1), shape.arrays[i].at);
    if i < n - 1 {
      SlotHoldsSize(shape, t, i, n - 1);
      assert Apart(shape.arrays[i].at, shape.arrays[n - 1].at);
    }
  }

  lemma {:induction false} RestUntouched(shape: Shape, t: Tuple, n: nat, p: nat)
    requires ValidShape(shape) && ValidTuple(shape, t) && n <= |shape.arrays| && AllSized(shape, t, n)
    requires p < shape.bodySize && InNoSlot(shape, p)
    ensures SizesIn(shape, t, n)[p] == t.body[p]
  {
    if n > 0 {
      RestUntouched(shape, t, n - 1, p);
      assert ValidField(shape, shape.arrays[n - 1]);
    }
  }

  lemma {:induction false} PayloadGrows(shape: Shape, t: Tuple, i: nat, n: nat)
    requires ValidTuple(shape, t) && i <= n <= |shape.arrays| && AllSized(shape, t, n)
    ensures Payload(shape, t, i) <= Payload(shape, t, n)
  {
    if i < n {
      PayloadGrows(shape, t, i, n - 1);
    }
  }

  /** Array i is found right after the arrays before it. */
  lemma ArrayFollows(shape: Shape, t: Tuple, i: nat)
    requires ValidTuple(shape, t) && i < |shape.arrays| && AllSized(shape, t, |shape.arrays|)
    ensures var all, at, size := Payload(shape, t, |shape.arrays|), |Payload(shape, t, i)|, Sized(shape, t, i);
            && |t.memory[i]| >= size && |Payload(shape, t, i + 1)| == at + size <= |all|
            && all[at..at + size] == t.memory[i][..size]
  {
    assert Readable(shape.arrays[i], t.maxes[i], t.memory[i]);
    PayloadGrows(shape, t, i + 1, |shape.arrays|);
  }

  /** The arrays are what is at their places, one after the other from start, and the
      bounds what their sizes make of them. */
  ghost predicate TakenFrom(shape: Shape, arrays: seq<Bytes>, maxes: seq<int>, t: Tuple, binArrays: Bytes, start: nat, n: nat)
    requires ValidShape(shape) && ValidTuple(shape, t) && n <= |shape.arrays| && AllSized(shape, t, n)
  {
    && |arrays| == |maxes| == n
    && forall i :: 0 <= i < n ==> TakenAt(shape, arrays[i], maxes[i], t, binArrays, start, i)
  }

  ghost predicate TakenAt(shape: Shape, bytes: Bytes, max: int, t: Tuple, binArrays: Bytes, start: nat, i: nat)
    requires ValidShape(shape) && ValidTuple(shape, t) && i < |shape.arrays| && AllSized(shape, t, i + 1)
  {
    var at, size := start + |Payload(shape, t, i)|, Sized(shape, t, i);
    assert ValidField(shape, shape.arrays[i]);
    && at + size <= |binArrays| && bytes == binArrays[at..at + size]
    && (shape.arrays[i].Variable? ==> max == MaxOf(shape.arrays[i], size))
  }

  /** Takes the arrays of one tuple; start is where they begin. */
  method TakeArrays(shape: Shape, body: Bytes, binArrays: Bytes, start: nat, ghost t: Tuple)
    returns (arrays: seq<Bytes>, maxes: seq<int>, size: nat)
    requires ValidShape(shape) && ValidTuple(shape, t) && AllSized(shape, t, |shape.arrays|)
    requires body == SizesIn(shape, t, |shape.arrays|)
    requires |binArrays| < TWO_32 && start + |Payload(shape, t, |shape.arrays|)| <= |binArrays|
    ensures TakenFrom(shape, arrays, maxes, t, binArrays, start, |shape.arrays|)
    ensures size == start + |Payload(shape, t, |shape.arrays|)|
  {
    hide TakenAt;
    arrays, maxes, size := [], [], start;
    var i := 0;
    while i < |shape.arrays|
      invariant 0 <= i <= |shape.arrays| && size == start + |Payload(shape, t, i)|
      invariant TakenFrom(shape, arrays, maxes, t, binArrays, start, i)
    {
      var bytes, max;
      bytes, max, size := TakeArray(shape, i, body, binArrays, size, start, t);
      arrays, maxes := arrays + [bytes], maxes + [max];
      i := i + 1;
    }
  }

  /** The array of field i, which is at size in the event. */
  method TakeArray(shape: Shape, i: nat, body: Bytes, binArrays: Bytes, size: nat, ghost start: nat, ghost t: Tuple)
    returns (bytes: Bytes, max: int, size': nat)
    requires ValidShape(shape) && ValidTuple(shape, t) && AllSized(shape, t, |shape.arrays|)
    requires i < |shape.arrays| && body == SizesIn(shape, t, |shape.arrays|)
    requires |binArrays| < TWO_32 && start + |Payload(shape, t, |shape.arrays|)| <= |binArrays|
    requires size == start + |Payload(shape, t, i)|
    ensures TakenAt(shape, bytes, max, t, binArrays, start, i)
    ensures size' == start + |Payload(shape, t, i + 1)|
  {
    var f := shape.arrays[i];
    SlotHoldsSize(shape, t, i, |shape.arrays|);
    ArrayFollows(shape, t, i);
    assert ValidField(shape, f);
    hide SizesIn, Payload, Int32;
    var sizeF := Get32(body[f.at..f.at + 4]);
    bytes := binArrays[size..size + sizeF];
    max := 0;
    if f.Variable? {
      max := MaxOf(f, sizeF);
    }
    size' := UInt32(size + sizeF);
  }

  ghost predicate SlicesRight(shape: Shape, t: Tuple, binArrays: Bytes, start: nat, n: nat)
    requires ValidTuple(shape, t) && n <= |shape.arrays| && AllSized(shape, t, n)
    requires start + |Payload(shape, t, n)| <= |binArrays|
  {
    binArrays[start..start + |Payload(shape, t, n)|] == Payload(shape, t, n)
  }

  /** The last of the slices. */
  lemma LastSlice(whole: Bytes, start: nat, a: Bytes, b: Bytes)
    requires start + |a + b| <= |whole|
    ensures start + |a| + |b| <= |whole|
    ensures whole[start..start + |a + b|] == a + b <==>
            whole[start..start + |a|] == a && whole[start + |a|..start + |a| + |b|] == b
  {
    var part := whole[start..start + |a + b|];
    assert part[..|a|] == whole[start..start + |a|] && part[|a|..] == whole[start + |a|..start + |a| + |b|];
    assert part == part[..|a|] + part[|a|..];
    assert (a + b)[..|a|] == a && (a + b)[|a|..] == b;
  }

  ghost predicate ArraysRight(shape: Shape, arrays: seq<Bytes>, t: Tuple, n: nat)
    requires ValidTuple(shape, t) && n <= |shape.arrays| && AllSized(shape, t, n) && |arrays| == n
  {
    forall i :: 0 <= i < n ==> ArrayRight(shape, arrays[i], t, i)
  }

  ghost predicate ArrayRight(shape: Shape, bytes: Bytes, t: Tuple, i: nat)
    requires ValidTuple(shape, t) && i < |shape.arrays| && AllSized(shape, t, i + 1)
  {
    |t.memory[i]| >= Sized(shape, t, i) && bytes == t.memory[i][..Sized(shape, t, i)]
  }

  lemma LastRight(shape: Shape, arrays: seq<Bytes>, t: Tuple, n: nat)
    requires ValidTuple(shape, t) && 0 < n <= |shape.arrays| && AllSized(shape, t, n) && |arrays| == n
    ensures ArraysRight(shape, arrays, t, n) <==>
            ArraysRight(shape, arrays[..n - 1], t, n - 1) && ArrayRight(shape, arrays[n - 1], t, n - 1)
  {
    hide ArrayRight, ValidTuple;
    assert forall i :: 0 <= i < n - 1 ==> arrays[..n - 1][i] == arrays[i];
  }

  /** Every array is right exactly when they are right one after the other. */
  lemma {:induction false} SlicesOneByOne(shape: Shape, arrays: seq<Bytes>, maxes: seq<int>, t: Tuple, binArrays: Bytes, start: nat,
                                          n: nat)
    requires ValidShape(shape) && ValidTuple(shape, t) && n <= |shape.arrays| && AllSized(shape, t, n)
    requires start + |Payload(shape, t, n)| <= |binArrays| && TakenFrom(shape, arrays, maxes, t, binArrays, start, n)
    ensures SlicesRight(shape, t, binArrays, start, n) <==> ArraysRight(shape, arrays, t, n)
  {
    if n > 0 {
      LastPayload(shape, t, n);
      TakenFewer(shape, arrays, maxes, t, binArrays, start, n);
      LastRight(shape, arrays, t, n);
      hide Payload, ValidTuple, ValidShape, Sized, ArraysRight, TakenFrom, AllSized;
      SlicesOneByOne(shape, arrays[..n - 1], maxes[..n - 1], t, binArrays, start, n - 1);
      LastSlice(binArrays, start, Payload(shape, t, n - 1), t.memory[n - 1][..Sized(shape, t, n - 1)]);
    }
  }

  lemma LastPayload(shape: Shape, t: Tuple, n: nat)
    requires ValidTuple(shape, t) && 0 < n <= |shape.arrays| && AllSized(shape, t, n)
    ensures |t.memory[n - 1]| >= Sized(shape, t, n - 1)
    ensures Payload(shape, t, n) == Payload(shape, t, n - 1) + t.memory[n - 1][..Sized(shape, t, n - 1)]
  {
    assert Readable(shape.arrays[n - 1], t.maxes[n - 1], t.memory[n - 1]);
  }

  lemma TakenFewer(shape: Shape, arrays: seq<Bytes>, maxes: seq<int>, t: Tuple, binArrays: Bytes, start: nat, n: nat)
    requires ValidShape(shape) && ValidTuple(shape, t) && 0 < n <= |shape.arrays| && AllSized(shape, t, n)
    requires TakenFrom(shape, arrays, maxes, t, binArrays, start, n)
    ensures TakenFrom(shape, arrays[..n - 1], maxes[..n - 1], t, binArrays, start, n - 1)
    ensures var at, size := start + |Payload(shape, t, n - 1)|, Sized(shape, t, n - 1);
            at + size <= |binArrays| && arrays[n - 1] == binArrays[at..at + size]
  {
    assert TakenAt(shape, arrays[n - 1], maxes[n - 1], t, binArrays, start, n - 1);
    hide Payload, ValidTuple, ValidShape;
  }

  lemma BoundsRight(shape: Shape, arrays: seq<Bytes>, maxes: seq<int>, t: Tuple, binArrays: Bytes, start: nat)
    requires ValidShape(shape) && ValidTuple(shape, t) && AllSized(shape, t, |shape.arrays|)
    requires TakenFrom(shape, arrays, maxes, t, binArrays, start, |shape.arrays|)
    ensures AllFit(shape, t) <==> forall i :: 0 <= i < |shape.arrays| && shape.arrays[i].Variable? ==> maxes[i] == t.maxes[i]
  {
    forall i | 0 <= i < |shape.arrays|
      ensures Fits(shape.arrays[i], t.maxes[i]) <==> (shape.arrays[i].Variable? ==> maxes[i] == t.maxes[i])
    {
      assert ValidField(shape, shape.arrays[i]) && Readable(shape.arrays[i], t.maxes[i], t.memory[i]);
      assert TakenAt(shape, arrays[i], maxes[i], t, binArrays, start, i);
      if shape.arrays[i].Variable? {
        BoundSurvives(shape.arrays[i], t.maxes[i]);
      }
    }
    hide Fits;
  }

  /** The arrays and bounds of a tuple come back exactly when the sizes fit and the
      event has the arrays where they are looked for. */
  lemma SameIff(shape: Shape, arrays: seq<Bytes>, maxes: seq<int>, t: Tuple, binArrays: Bytes, start: nat)
    requires ValidShape(shape) && ValidTuple(shape, t) && AllSized(shape, t, |shape.arrays|)
    requires start + |Payload(shape, t, |shape.arrays|)| <= |binArrays|
    requires TakenFrom(shape, arrays, maxes, t, binArrays, start, |shape.arrays|)
    ensures SameArrays(shape, arrays, maxes, t, |shape.arrays|) <==>
            AllFit(shape, t) && SlicesRight(shape, t, binArrays, start, |shape.arrays|)
  {
    SlicesOneByOne(shape, arrays, maxes, t, binArrays, start, |shape.arrays|);
    BoundsRight(shape, arrays, maxes, t, binArrays, start);
    forall i | 0 <= i < |shape.arrays|
      ensures ArrayRight(shape, arrays[i], t, i) <==> Whole(shape.arrays[i], t.maxes[i], t.memory[i], arrays[i])
    {
      assert ValidField(shape, shape.arrays[i]);
      WholeIff(shape.arrays[i], t.maxes[i], t.memory[i], arrays[i]);
    }
    hide Payload, SlicesRight, AllFit, Sized, TakenAt, ValidShape, Fits, ArrayRight, Whole;
  }

  function TupleSize(shape: Shape): nat {
    shape.headerSize + shape.bodySize
  }

  /** Where tuple i starts. */
  function StartOf(shape: Shape, i: nat): nat {
    if i == 0 then 0 else StartOf(shape, i - 1) + TupleSize(shape)
  }

  lemma {:induction false} TuplesLength(shape: Shape, sent: seq<Tuple>)
    requires ValidShape(shape) && ValidBatch(shape, sent)
    ensures |TuplesOf(shape, sent)| == StartOf(shape, |sent|)
  {
    if sent != [] {
      var n := |sent| - 1;
      TuplesLength(shape, sent[..n]);
    }
  }

  lemma {:induction false} EventGrows(shape: Shape, sent: seq<Tuple>, i: nat)
    requires ValidShape(shape) && ValidBatch(shape, sent) && i <= |sent|
    ensures TuplesOf(shape, sent[..i]) <= TuplesOf(shape, sent)
    ensures ArraysOf(shape, sent[..i]) <= ArraysOf(shape, sent)
  {
    if i == |sent| {
      assert sent[..i] == sent;
    } else {
      var n := |sent| - 1;
      EventGrows(shape, sent[..n], i);
      assert sent[..n][..i] == sent[..i];
    }
  }

  lemma LastTuple(shape: Shape, before: seq<Tuple>, t: Tuple)
    requires ValidShape(shape) && ValidBatch(shape, before + [t])
    ensures (before + [t])[|before|] == t && ValidBatch(shape, before)
    ensures TuplesOf(shape, before + [t]) == TuplesOf(shape, before) + t.header + SizesIn(shape, t, |shape.arrays|)
  {
    hide SizesIn, Payload, ValidTuple, AllSized;
    assert (before + [t])[|before|] == t && (before + [t])[..|before|] == before;
    assert forall i :: 0 <= i < |before| ==> before[i] == (before + [t])[i];
  }

  lemma SplitLast(sent: seq<Tuple>, i: nat)
    requires i < |sent|
    ensures sent[..i + 1] == sent[..i] + [sent[i]]
  {
  }

  lemma PrefixValid(shape: Shape, sent: seq<Tuple>, i: nat)
    requires ValidBatch(shape, sent) && i <= |sent|
    ensures ValidBatch(shape, sent[..i])
  {
  }

  lemma TupleInside(shape: Shape, sent: seq<Tuple>, i: nat)
    requires ValidShape(shape) && ValidBatch(shape, sent) && i < |sent|
    ensures ValidTuple(shape, sent[i]) && AllSized(shape, sent[i], |shape.arrays|) && ValidBatch(shape, sent[..i])
    ensures TuplesOf(shape, sent[..i]) + sent[i].header + SizesIn(shape, sent[i], |shape.arrays|) <= TuplesOf(shape, sent)
  {
    hide *;
    SplitLast(sent, i);
    PrefixValid(shape, sent, i);
    PrefixValid(shape, sent, i + 1);
    EventGrows(shape, sent, i + 1);
    LastTuple(shape, sent[..i], sent[i]);
  }

  /** Tuple i is found after i whole tuples and its header... */
  lemma TupleFollows(shape: Shape, sent: seq<Tuple>, i: nat)
    requires ValidShape(shape) && ValidBatch(shape, sent) && i < |sent|
    ensures var at, t := StartOf(shape, i) + shape.headerSize, sent[i];
            && at + shape.bodySize <= |TuplesOf(shape, sent)|
            && TuplesOf(shape, sent)[at..at + shape.bodySize] == SizesIn(shape, t, |shape.arrays|)
  {
    hide SizesIn, Payload, TuplesOf;
    TupleInside(shape, sent, i);
    TuplesLength(shape, sent[..i]);
    PartOf(TuplesOf(shape, sent), TuplesOf(shape, sent[..i]), sent[i].header, SizesIn(shape, sent[i], |shape.arrays|));
  }

  lemma PartOf(all: Bytes, a: Bytes, b: Bytes, c: Bytes)
    requires a + b + c <= all
    ensures |a| + |b| + |c| <= |all| && all[|a| + |b|..|a| + |b| + |c|] == c
  {
    assert all[..|a + b + c|] == a + b + c;
    assert (a + b + c)[|a + b|..] == c;
  }

  /** ...and its arrays are looked for after all those of the tuples before. */
  lemma ArraysFollow(shape: Shape, sent: seq<Tuple>, i: nat)
    requires ValidShape(shape) && ValidBatch(shape, sent) && i < |sent|
    ensures |ArraysOf(shape, sent[..i + 1])| ==
            |ArraysOf(shape, sent[..i])| + |Payload(shape, sent[i], |shape.arrays|)| <= |ArraysOf(shape, sent)|
  {
    hide SizesIn, Payload;
    var next := sent[..i + 1];
    assert next[..i] == sent[..i] && next[i] == sent[i];
    EventGrows(shape, sent, i + 1);
    assert ArraysOf(shape, next) == ArraysOf(shape, sent[..i]) + Payload(shape, sent[i], |shape.arrays|);
  }

  /** The event has the arrays of tuple i where they are looked for. */
  ghost predicate ArraysAt(shape: Shape, sent: seq<Tuple>, binArrays: Bytes, i: nat)
    requires ValidBatch(shape, sent) && i < |sent|
  {
    var start, t := |ArraysOf(shape, sent[..i])|, sent[i];
    start + |Payload(shape, t, |shape.arrays|)| <= |binArrays| && SlicesRight(shape, t, binArrays, start, |shape.arrays|)
  }

  lemma PrefixMore(whole: Bytes, a: Bytes, b: Bytes)
    requires |a + b| <= |whole|
    ensures |a| + |b| <= |whole|
    ensures a + b <= whole <==> a <= whole && whole[|a|..|a| + |b|] == b
  {
    LastSlice(whole, 0, a, b);
  }

  lemma LastArrays(shape: Shape, sent: seq<Tuple>, binArrays: Bytes)
    requires ValidBatch(shape, sent) && sent != [] && |ArraysOf(shape, sent)| <= |binArrays|
    ensures var n := |sent| - 1; var before := ArraysOf(shape, sent[..n]);
            && |before| <= |binArrays|
            && (ArraysOf(shape, sent) <= binArrays <==> before <= binArrays && ArraysAt(shape, sent, binArrays, n))
  {
    var n := |sent| - 1;
    PrefixMore(binArrays, ArraysOf(shape, sent[..n]), Payload(shape, sent[n], |shape.arrays|));
    hide Payload, ValidTuple, AllSized;
  }

  ghost predicate AllArraysAt(shape: Shape, sent: seq<Tuple>, binArrays: Bytes)
    requires ValidBatch(shape, sent)
  {
    forall i :: 0 <= i < |sent| ==> ArraysAt(shape, sent, binArrays, i)
  }

  lemma LastAt(shape: Shape, sent: seq<Tuple>, binArrays: Bytes)
    requires ValidBatch(shape, sent) && sent != []
    ensures var n := |sent| - 1;
            AllArraysAt(shape, sent, binArrays) <==> AllArraysAt(shape, sent[..n], binArrays) && ArraysAt(shape, sent, binArrays, n)
  {
    hide Payload, ArraysOf, ValidTuple, AllSized, SlicesRight;
    var fewer := sent[..|sent| - 1];
    forall i | 0 <= i < |fewer|
      ensures ArraysAt(shape, fewer, binArrays, i) <==> ArraysAt(shape, sent, binArrays, i)
    {
      assert fewer[..i] == sent[..i];
    }
  }

  /** It has so for all of them exactly when they are what it begins with. */
  lemma {:induction false} ArraysFirst(shape: Shape, sent: seq<Tuple>, binArrays: Bytes)
    requires ValidBatch(shape, sent) && |ArraysOf(shape, sent)| <= |binArrays|
    ensures ArraysOf(shape, sent) <= binArrays <==> AllArraysAt(shape, sent, binArrays)
  {
    if sent != [] {
      LastArrays(shape, sent, binArrays);
      LastAt(shape, sent, binArrays);
      hide ArraysOf, ArraysAt, AllArraysAt, ValidTuple, AllSized;
      ArraysFirst(shape, sent[..|sent| - 1], binArrays);
    }
  }

  lemma BodySame(shape: Shape, t: Tuple)
    requires ValidShape(shape) && ValidTuple(shape, t) && AllSized(shape, t, |shape.arrays|)
    ensures forall p :: 0 <= p < shape.bodySize && InNoSlot(shape, p) ==> SizesIn(shape, t, |shape.arrays|)[p] == t.body[p]
  {
    forall p | 0 <= p < shape.bodySize && InNoSlot(shape, p)
      ensures SizesIn(shape, t, |shape.arrays|)[p] == t.body[p]
    {
      RestUntouched(shape, t, |shape.arrays|, p);
    }
  }

  /** Takes the tuple at offset, whose arrays begin at size. */
  method TakeTuple(shape: Shape, binTuples: Bytes, binArrays: Bytes, offset: nat, size: nat, ghost sent: seq<Tuple>, ghost i: nat)
    returns (r: Received, offset': nat, size': nat)
    requires ValidShape(shape) && ValidBatch(shape, sent) && i < |sent|
    requires binTuples == TuplesOf(shape, sent) && |ArraysOf(shape, sent)| <= |binArrays|
    requires |binTuples| < TWO_32 && |binArrays| < TWO_32
    requires offset == StartOf(shape, i) && size == |ArraysOf(shape, sent[..i])|
    ensures |sent[i].maxes| == |shape.arrays|
    ensures Same(shape, r, sent[i]) <==> AllFit(shape, sent[i]) && ArraysAt(shape, sent, binArrays, i)
    ensures offset' == StartOf(shape, i + 1) && size' == |ArraysOf(shape, sent[..i + 1])|
  {
    assert |sent[i].maxes| == |shape.arrays|;
    hide TuplesOf, ArraysOf, SizesIn, Payload, AllFit, SameArrays, ValidTuple, TakenFrom, SlicesRight;
    TupleFollows(shape, sent, i);
    ArraysFollow(shape, sent, i);
    offset' := UInt32(offset + shape.headerSize);
    var body := binTuples[offset'..offset' + shape.bodySize];
    var arrays, maxes;
    arrays, maxes, size' := TakeArrays(shape, body, binArrays, size, sent[i]);
    BodySame(shape, sent[i]);
    SameIff(shape, arrays, maxes, sent[i], binArrays, size);
    r := Received(body, arrays, maxes);
    offset' := UInt32(offset' + shape.bodySize);
  }

  ghost predicate AllBack(shape: Shape, received: seq<Received>, sent: seq<Tuple>)
    requires ValidShape(shape) && ValidBatch(shape, sent)
  {
    |received| == |sent| && forall i :: 0 <= i < |sent| ==> Same(shape, received[i], sent[i])
  }

  ghost predicate EachFits(shape: Shape, sent: seq<Tuple>)
    requires ValidBatch(shape, sent)
  {
    forall i :: 0 <= i < |sent| ==> |sent[i].maxes| == |shape.arrays| && AllFit(shape, sent[i])
  }

  /** Round trip: from an event with the data of these tuples, and at least as much array
      data, the handler takes exactly these tuples if and only if every size fits and the
      array data begins with theirs. */
  method Handler(shape: Shape, event: StreamEvent, ghost sent: seq<Tuple>) returns (received: seq<Received>)
    requires ValidShape(shape) && ValidBatch(shape, sent)
    requires event.binTuples == TuplesOf(shape, sent) && event.insertedCount == |sent|
    requires |ArraysOf(shape, sent)| <= |event.binArrays|
    requires |event.binTuples| < TWO_32 && |event.binArrays| < TWO_32 && event.insertedCount < TWO_31
    ensures |received| == |sent|
    ensures AllBack(shape, received, sent) <==> EachFits(shape, sent) && ArraysOf(shape, sent) <= event.binArrays
  {
    hide TuplesOf, SizesIn, Payload, AllFit, Same, ValidTuple, ArraysAt;
    received := [];
    var offset, size, index := 0, 0, 0;
    while index < event.insertedCount
      invariant 0 <= index <= |sent| == event.insertedCount
      invariant offset == StartOf(shape, index)
      invariant size == |ArraysOf(shape, sent[..index])|
      invariant |received| == index
      invariant forall i :: 0 <= i < index ==>
                  && |sent[i].maxes| == |shape.arrays|
                  && (Same(shape, received[i], sent[i]) <==>
                      AllFit(shape, sent[i]) && ArraysAt(shape, sent, event.binArrays, i))
    {
      var r;
      r, offset, size := TakeTuple(shape, event.binTuples, event.binArrays, offset, size, sent, index);
      received := received + [r];
      index := index + 1;
    }
    ArraysFirst(shape, sent, event.binArrays);
  }
}
