/**
  The combine box: for each key a bit mask of the inputs that have delivered a tuple,
  and one string that holds a copy of each input's latest tuple in its own slot. When
  the mask is full the box puts out a tuple and forgets the key.
*/
module Combine {
  import opened Basics

  // ----- masks

  function Pow2(n: nat): (r: nat)
    ensures r >= 1
  {
    if n == 0 then 1 else 2 * Pow2(n - 1)
  }

  predicate Bit(mask: nat, j: nat) {
    if j == 0 then mask % 2 == 1 else Bit(mask / 2, j - 1)
  }

  /** mask | (1 << j) */
  function SetBit(mask: nat, j: nat): nat {
    if j == 0 then (if mask % 2 == 1 then mask else mask + 1) else 2 * SetBit(mask / 2, j - 1) + mask % 2
  }

  lemma HalfAfterSet(mask: nat, i: nat)
    requires i > 0
    ensures SetBit(mask, i) / 2 == SetBit(mask / 2, i - 1) && SetBit(mask, i) % 2 == mask % 2
  {
  }

  lemma {:induction false} BitsAfterSet(mask: nat, i: nat, j: nat)
    ensures Bit(SetBit(mask, i), j) <==> j == i || Bit(mask, j)
  {
    if i > 0 && j > 0 {
      BitsAfterSet(mask / 2, i - 1, j - 1);
      HalfAfterSet(mask, i);
    } else if i == 0 && j > 0 {
      assert SetBit(mask, i) / 2 == mask / 2;
    }
  }

  lemma {:induction false} SetBitBound(mask: nat, i: nat, n: nat)
    requires i < n && mask < Pow2(n)
    ensures SetBit(mask, i) < Pow2(n)
  {
    if i > 0 {
      SetBitBound(mask / 2, i - 1, n - 1);
      assert SetBit(mask, i) == 2 * SetBit(mask / 2, i - 1) + mask % 2;
    } else {
      assert mask % 2 == 0 ==> mask <= Pow2(n) - 2;
    }
  }

  ghost predicate AllSet(mask: nat, n: nat) {
    forall j: nat :: j < n ==> Bit(mask, j)
  }

  ghost predicate NoneSet(mask: nat, n: nat) {
    forall j: nat :: j < n ==> !Bit(mask, j)
  }

  lemma BitsAbove(mask: nat, n: nat)
    requires n > 0
    ensures AllSet(mask, n) <==> mask % 2 == 1 && AllSet(mask / 2, n - 1)
    ensures NoneSet(mask, n) <==> mask % 2 == 0 && NoneSet(mask / 2, n - 1)
  {
    assert Bit(mask, 0) <==> mask % 2 == 1;
    forall j: nat | j < n - 1
      ensures Bit(mask / 2, j) == Bit(mask, j + 1)
    {
    }
    forall j: nat | 0 < j < n
      ensures Bit(mask, j) == Bit(mask / 2, j - 1)
    {
    }
  }

  /** A mask of n bits equals the final mask exactly when every bit is set, and zero
      exactly when none is. */
  lemma {:induction false} FullAndEmpty(mask: nat, n: nat)
    requires mask < Pow2(n)
    ensures mask == Pow2(n) - 1 <==> AllSet(mask, n)
    ensures mask == 0 <==> NoneSet(mask, n)
  {
    if n > 0 {
      FullAndEmpty(mask / 2, n - 1);
      BitsAbove(mask, n);
    }
  }

  // ----- what the box is told about its inputs

  datatype KeyField = NoKeyField | KeyField(offset: nat, kind: string, size: nat)

  /** The size of an input's tuples and where the key field is. */
  datatype Schema = Schema(size: nat, key: KeyField)

  datatype Config = Config(schemas: seq<Schema>, headerSize: nat, eval: seq<Bytes> -> Bytes)

  /** The key fields agree. An int mask has room for up to 30 inputs. */
  ghost predicate ValidConfig(c: Config) {
    && 1 <= |c.schemas| <= 30
    && forall i :: 0 <= i < |c.schemas| ==> KeyAgrees(c, i) && KeyInside(c.schemas[i])
  }

  ghost predicate KeyInside(schema: Schema) {
    schema.key.KeyField? ==> schema.key.offset + schema.key.size <= schema.size
  }

  predicate KeyAgrees(c: Config, i: nat)
    requires i < |c.schemas|
  {
    && c.schemas[i].key.KeyField?
    && c.schemas[i].key.kind == FirstKey(c).kind && c.schemas[i].key.size == FirstKey(c).size
  }

  function FirstKey(c: Config): KeyField
    requires c.schemas != []
  {
    if c.schemas[0].key.KeyField? then c.schemas[0].key else KeyField(0, "", 0)
  }

  // ----- what the box is to do

  datatype Arrival = Arrival(input: nat, tuple: Bytes)

  ghost predicate ValidArrival(c: Config, a: Arrival) {
    a.input < |c.schemas| && c.schemas[a.input].size <= |a.tuple| && c.headerSize <= |a.tuple|
  }

  /** The bytes of the tuple at its input's key field. */
  function KeyOf(c: Config, a: Arrival): (r: Bytes)
    requires ValidConfig(c) && ValidArrival(c, a)
    ensures var key := c.schemas[a.input].key;
            && |r| == key.size && key.offset + key.size <= |a.tuple|
            && forall i :: 0 <= i < |r| ==> r[i] == a.tuple[key.offset + i]
  {
    assert KeyAgrees(c, a.input) && KeyInside(c.schemas[a.input]);
    var key := c.schemas[a.input].key;
    a.tuple[key.offset..key.offset + key.size]
  }

  /** As much of the tuple as the input's schema says. */
  function Stored(c: Config, a: Arrival): Bytes
    requires ValidArrival(c, a)
  {
    a.tuple[..c.schemas[a.input].size]
  }

  predicate HasFrom(pending: seq<Arrival>, j: nat) {
    exists k :: 0 <= k < |pending| && pending[k].input == j
  }

  function LatestFrom(pending: seq<Arrival>, j: nat): (a: Arrival)
    requires HasFrom(pending, j)
    ensures a in pending && a.input == j
  {
    if pending[|pending| - 1].input == j then pending[|pending| - 1]
    else LatestFrom(pending[..|pending| - 1], j)
  }

  predicate Complete(c: Config, pending: seq<Arrival>) {
    forall j :: 0 <= j < |c.schemas| ==> HasFrom(pending, j)
  }

  /** For each key that lacks some input: its arrivals since it was last put out. */
  type Pending = map<Bytes, seq<Arrival>>

  function Waiting(p: Pending, k: Bytes): seq<Arrival> {
    if k in p then p[k] else []
  }

  function AfterArrival(c: Config, p: Pending, a: Arrival): Pending
    requires ValidConfig(c) && ValidArrival(c, a)
  {
    var k := KeyOf(c, a);
    var w := Waiting(p, k) + [a];
    if Complete(c, w) then p - {k} else p[k := w]
  }

  ghost predicate ValidWaiting(c: Config, w: seq<Arrival>) {
    forall k :: 0 <= k < |w| ==> ValidArrival(c, w[k])
  }

  /** The header of the last tuple, and what the expressions make of the latest tuples. */
  function PutOut(c: Config, w: seq<Arrival>): Bytes
    requires w != [] && ValidWaiting(c, w) && Complete(c, w)
  {
    w[|w| - 1].tuple[..c.headerSize]
    + c.eval(seq(|c.schemas|, j requires 0 <= j < |c.schemas| => Stored(c, LatestFrom(w, j))))
  }

  ghost predicate ValidPending(c: Config, p: Pending) {
    forall k :: k in p ==> ValidWaiting(c, p[k])
  }

  /** What an arrival puts out: one tuple if it completes its key, otherwise nothing. */
  function OutputOf(c: Config, p: Pending, a: Arrival): seq<Bytes>
    requires ValidConfig(c) && ValidArrival(c, a) && ValidPending(c, p)
  {
    var w := Waiting(p, KeyOf(c, a)) + [a];
    if Complete(c, w) then [PutOut(c, w)] else []
  }

  // ----- the slots

  datatype Slots = Slots(mask: nat, bytes: Bytes)

  function Slot(offsets: seq<nat>, bytes: Bytes, j: nat): Bytes
    requires j + 1 < |offsets| && offsets[j] <= offsets[j + 1] <= |bytes|
  {
    bytes[offsets[j]..offsets[j + 1]]
  }

  function Overwrite(bytes: Bytes, at: nat, part: Bytes): (r: Bytes)
    requires at + |part| <= |bytes|
    ensures |r| == |bytes|
  {
    bytes[..at] + part + bytes[at + |part|..]
  }

  function Resize(bytes: Bytes, n: nat): (r: Bytes)
    ensures |r| == n
  {
    if |bytes| >= n then bytes[..n] else bytes + seq(n - |bytes|, _ => 0)
  }

  /** The mask has the bits of exactly the inputs w comes from, and slot j holds what is
      stored of the latest arrival from input j. */
  ghost predicate Represents(c: Config, offsets: seq<nat>, s: Slots, w: seq<Arrival>)
    requires ValidOffsets(c, offsets)
  {
    && ValidWaiting(c, w)
    && s.mask < Pow2(|c.schemas|) && |s.bytes| == offsets[|c.schemas|]
    && forall j: nat :: j < |c.schemas| ==> SlotRight(c, offsets, s, w, j)
  }

  ghost predicate SlotRight(c: Config, offsets: seq<nat>, s: Slots, w: seq<Arrival>, j: nat)
    requires ValidOffsets(c, offsets) && ValidWaiting(c, w) && j < |c.schemas| && |s.bytes| == offsets[|c.schemas|]
  {
    && (Bit(s.mask, j) <==> HasFrom(w, j))
    && (HasFrom(w, j) ==> Slot(offsets, s.bytes, j) == Stored(c, LatestFrom(w, j)))
  }

  /** Where the data of each of the first n inputs begins, and where the last ends. */
  ghost predicate OffsetsUpTo(c: Config, offsets: seq<nat>, n: nat)
    requires n <= |c.schemas|
  {
    && |offsets| == n + 1
    && (forall i :: 0 <= i < n ==> offsets[i] + c.schemas[i].size == offsets[i + 1])
    && forall i, j :: 0 <= i < j <= n ==> offsets[i] + c.schemas[i].size <= offsets[j]
  }

  ghost predicate ValidOffsets(c: Config, offsets: seq<nat>) {
    OffsetsUpTo(c, offsets, |c.schemas|)
  }

  lemma FirstOffset(c: Config)
    ensures OffsetsUpTo(c, [0], 0)
  {
  }

  lemma NextOffset(c: Config, offsets: seq<nat>, n: nat)
    requires n < |c.schemas| && OffsetsUpTo(c, offsets, n)
    ensures |offsets| == n + 1 && OffsetsUpTo(c, offsets + [offsets[n] + c.schemas[n].size], n + 1)
  {
  }

  lemma AllOffsets(c: Config, offsets: seq<nat>)
    requires OffsetsUpTo(c, offsets, |c.schemas|)
    ensures ValidOffsets(c, offsets)
  {
  }

  lemma SlotsAfterArrival(c: Config, offsets: seq<nat>, s: Slots, w: seq<Arrival>, a: Arrival)
    requires ValidOffsets(c, offsets) && Represents(c, offsets, s, w) && ValidArrival(c, a)
    ensures Represents(c, offsets, Slots(SetBit(s.mask, a.input), Overwrite(s.bytes, offsets[a.input], Stored(c, a))), w + [a])
  {
    var s' := Slots(SetBit(s.mask, a.input), Overwrite(s.bytes, offsets[a.input], Stored(c, a)));
    SetBitBound(s.mask, a.input, |c.schemas|);
    forall j: nat | j < |c.schemas|
      ensures SlotRight(c, offsets, s', w + [a], j)
    {
      assert SlotRight(c, offsets, s, w, j);
      BitsAfterSet(s.mask, a.input, j);
      FromMore(w, a, j);
      OverwriteSlot(c, offsets, s.bytes, a, j);
    }
  }

  lemma FromMore(w: seq<Arrival>, a: Arrival, j: nat)
    ensures HasFrom(w + [a], j) <==> j == a.input || HasFrom(w, j)
    ensures HasFrom(w + [a], j) ==> LatestFrom(w + [a], j) == if j == a.input then a else LatestFrom(w, j)
  {
    assert (w + [a])[|w|] == a && (w + [a])[..|w|] == w;
    if HasFrom(w, j) {
      var k :| 0 <= k < |w| && w[k].input == j;
      assert (w + [a])[k].input == j;
    }
  }

  lemma OverwriteRest(bytes: Bytes, at: nat, part: Bytes, from: nat, to: nat)
    requires at + |part| <= |bytes| && from <= to <= |bytes|
    ensures to <= at || at + |part| <= from ==> Overwrite(bytes, at, part)[from..to] == bytes[from..to]
    ensures Overwrite(bytes, at, part)[at..at + |part|] == part
  {
  }

  /** Writing one slot leaves the others as they are. */
  lemma OverwriteSlot(c: Config, offsets: seq<nat>, bytes: Bytes, a: Arrival, j: nat)
    requires ValidOffsets(c, offsets) && ValidArrival(c, a) && j < |c.schemas| && |bytes| == offsets[|c.schemas|]
    ensures var bytes' := Overwrite(bytes, offsets[a.input], Stored(c, a));
            Slot(offsets, bytes', j) == if j == a.input then Stored(c, a) else Slot(offsets, bytes, j)
  {
    var at := offsets[a.input];
    assert at + |Stored(c, a)| == offsets[a.input + 1] && offsets[j] + c.schemas[j].size == offsets[j + 1];
    if j < a.input {
      assert offsets[j + 1] <= at;
    } else if j > a.input {
      assert offsets[a.input + 1] <= offsets[j];
    }
    OverwriteRest(bytes, at, Stored(c, a), offsets[j], offsets[j + 1]);
  }

  function AllSlots(c: Config, offsets: seq<nat>, bytes: Bytes): (r: seq<Bytes>)
    requires ValidOffsets(c, offsets) && |bytes| == offsets[|c.schemas|]
    ensures |r| == |c.schemas| && forall j :: 0 <= j < |r| ==> r[j] == Slot(offsets, bytes, j)
  {
    seq(|c.schemas|, j requires 0 <= j < |c.schemas| => Slot(offsets, bytes, j))
  }

  lemma FullIffComplete(c: Config, offsets: seq<nat>, s: Slots, w: seq<Arrival>)
    requires ValidOffsets(c, offsets) && Represents(c, offsets, s, w)
    ensures s.mask == Pow2(|c.schemas|) - 1 <==> Complete(c, w)
  {
    hide ValidOffsets, ValidArrival;
    FullAndEmpty(s.mask, |c.schemas|);
    forall j: nat | j < |c.schemas|
      ensures Bit(s.mask, j) <==> HasFrom(w, j)
    {
      assert SlotRight(c, offsets, s, w, j);
    }
    if AllSet(s.mask, |c.schemas|) {
      assert forall j: nat :: j < |c.schemas| ==> Bit(s.mask, j) && HasFrom(w, j);
    } else {
      var j: nat :| j < |c.schemas| && !Bit(s.mask, j);
      assert !HasFrom(w, j);
    }
  }

  lemma SomeBit(c: Config, offsets: seq<nat>, s: Slots, w: seq<Arrival>)
    requires ValidOffsets(c, offsets) && Represents(c, offsets, s, w) && w != []
    ensures s.mask != 0
  {
    FullAndEmpty(s.mask, |c.schemas|);
    assert ValidArrival(c, w[0]) && HasFrom(w, w[0].input);
    assert SlotRight(c, offsets, s, w, w[0].input) && Bit(s.mask, w[0].input);
  }

  lemma SlotsToPutOut(c: Config, offsets: seq<nat>, s: Slots, w: seq<Arrival>)
    requires ValidOffsets(c, offsets) && Represents(c, offsets, s, w) && w != [] && Complete(c, w)
    ensures PutOut(c, w) == w[|w| - 1].tuple[..c.headerSize] + c.eval(AllSlots(c, offsets, s.bytes))
  {
    var latest := seq(|c.schemas|, j requires 0 <= j < |c.schemas| => Stored(c, LatestFrom(w, j)));
    forall j | 0 <= j < |c.schemas|
      ensures Slot(offsets, s.bytes, j) == latest[j]
    {
      assert SlotRight(c, offsets, s, w, j);
    }
    assert AllSlots(c, offsets, s.bytes) == latest;
  }

  lemma NoSlots(c: Config, offsets: seq<nat>, bytes: Bytes)
    requires ValidOffsets(c, offsets) && |bytes| == offsets[|c.schemas|]
    ensures Represents(c, offsets, Slots(0, bytes), [])
  {
    FullAndEmpty(0, |c.schemas|);
    forall j: nat | j < |c.schemas|
      ensures SlotRight(c, offsets, Slots(0, bytes), [], j)
    {
    }
  }

  // ----- the box

  datatype Outcome = Ready | NoInputs | NoKey(input: nat) | KindDiffers(input: nat) | SizeDiffers(input: nat)

  class CombineBox {
    const config: Config

    var finalMask: nat
    var keyOffsets: seq<nat>
    var keySize: nat
    var dataOffsets: seq<nat>
    var data: map<Bytes, Slots>
    ghost var pending: Pending

    ghost predicate IsSetUp()
      reads this
    {
      && ValidConfig(config)
      && finalMask == Pow2(|config.schemas|) - 1
      && ValidOffsets(config, dataOffsets)
      && keySize == FirstKey(config).size && |keyOffsets| == |config.schemas|
      && forall i :: 0 <= i < |keyOffsets| ==> KeyAgrees(config, i) && keyOffsets[i] == config.schemas[i].key.offset
    }

    ghost predicate Valid()
      reads this
    {
      && IsSetUp()
      && data.Keys == pending.Keys && ValidPending(config, pending)
      && forall k :: k in data ==> KeyRight(k)
    }

    /** Between tuples no mask is empty or full, and the slots hold what is pending. */
    ghost predicate KeyRight(k: Bytes)
      requires IsSetUp() && k in data && k in pending
      reads this
    {
      && Represents(config, dataOffsets, data[k], pending[k])
      && data[k].mask != 0 && data[k].mask != finalMask
    }

    constructor (config: Config)
      ensures this.config == config && data == map[] && pending == map[] && dataOffsets == [] && keyOffsets == []
    {
      this.config := config;
      finalMask, keySize, keyOffsets, dataOffsets, data, pending := 0, 0, [], [], map[], map[];
    }

    /** Reads the schemas in order and stops at the first whose key field is missing
        or not like the first one's. */
    method Setup() returns (outcome: Outcome)
      requires |config.schemas| <= 30 && dataOffsets == [] && keyOffsets == [] && data == map[] && pending == map[]
      requires forall i :: 0 <= i < |config.schemas| ==> KeyInside(config.schemas[i])
      modifies this
      ensures outcome.Ready? <==> config.schemas != [] && forall i :: 0 <= i < |config.schemas| ==> KeyAgrees(config, i)
      ensures outcome.Ready? <==>
                && config.schemas != []
                && forall i :: 0 <= i < |config.schemas| ==>
                     && config.schemas[i].key.KeyField? && config.schemas[0].key.KeyField?
                     && config.schemas[i].key.kind == config.schemas[0].key.kind
                     && config.schemas[i].key.size == config.schemas[0].key.size
      ensures outcome.NoInputs? <==> config.schemas == []
      ensures outcome.Ready? ==> Valid() && pending == map[]
      ensures !outcome.Ready? && !outcome.NoInputs? ==>
                && outcome.input < |config.schemas| && !KeyAgrees(config, outcome.input)
                && (forall i :: 0 <= i < outcome.input ==> KeyAgrees(config, i))
                && (outcome.NoKey? <==> config.schemas[outcome.input].key.NoKeyField?)
                && (!outcome.NoKey? ==>
                      && config.schemas[0].key.KeyField?
                      && (outcome.KindDiffers? <==> config.schemas[outcome.input].key.kind != config.schemas[0].key.kind)
                      && (outcome.SizeDiffers? ==> config.schemas[outcome.input].key.size != config.schemas[0].key.size))
    {
      hide OffsetsUpTo, Pow2;
      var n := |config.schemas|;
      if n < 1 {
        return NoInputs;
      }
      finalMask := Pow2(n) - 1;
      dataOffsets := [0];
      FirstOffset(config);
      var i := 0;
      while i < n
        invariant 0 <= i <= n && finalMask == Pow2(n) - 1
        invariant |keyOffsets| == i && data == map[] && pending == map[]
        invariant i > 0 ==> keySize == FirstKey(config).size
        invariant forall j :: 0 <= j < i ==> KeyAgrees(config, j) && keyOffsets[j] == config.schemas[j].key.offset
        invariant OffsetsUpTo(config, dataOffsets, i)
      {
        var schema := config.schemas[i];
        assert KeyInside(schema);
        if !KeyAgrees(config, i) {
          assert !forall j :: 0 <= j < n ==> KeyAgrees(config, j);
        }
        if schema.key.NoKeyField? {
          return NoKey(i);
        }
        keyOffsets := keyOffsets + [schema.key.offset];
        if i == 0 {
          keySize := schema.key.size;
        } else if config.schemas[0].key.kind != schema.key.kind {
          return KindDiffers(i);
        } else if keySize != schema.key.size {
          return SizeDiffers(i);
        }
        NextOffset(config, dataOffsets, i);
        dataOffsets := dataOffsets + [dataOffsets[i] + schema.size];
        i := i + 1;
      }
      AllOffsets(config, dataOffsets);
      outcome := Ready;
    }

    /** Takes one tuple from input i. */
    method Accept(i: nat, tuple: Bytes) returns (out: seq<Bytes>)
      requires Valid() && ValidArrival(config, Arrival(i, tuple))
      modifies this`data, this`pending
      ensures Valid() && pending == AfterArrival(config, old(pending), Arrival(i, tuple))
      ensures out == OutputOf(config, old(pending), Arrival(i, tuple))
    {
      ghost var a := Arrival(i, tuple);
      var key := tuple[keyOffsets[i]..keyOffsets[i] + keySize];
      assert KeyAgrees(config, i);
      assert key == KeyOf(config, a);
      var value := if key in data then data[key] else Slots(0, []);
      if value.mask == 0 {
        value := value.(bytes := Resize(value.bytes, dataOffsets[|config.schemas|]));
        NoSlots(config, dataOffsets, value.bytes);
      }
      ghost var w := Waiting(pending, key);
      assert Represents(config, dataOffsets, value, w) by {
        assert key in data ==> KeyRight(key);
      }
      SlotsAfterArrival(config, dataOffsets, value, w, a);
      assert tuple[..dataOffsets[i + 1] - dataOffsets[i]] == Stored(config, a);
      value := value.(bytes := Overwrite(value.bytes, dataOffsets[i], tuple[..dataOffsets[i + 1] - dataOffsets[i]]));
      value := value.(mask := SetBit(value.mask, i));
      FullIffComplete(config, dataOffsets, value, w + [a]);
      SomeBit(config, dataOffsets, value, w + [a]);
      if value.mask == finalMask {
        SlotsToPutOut(config, dataOffsets, value, w + [a]);
        out := [tuple[..config.headerSize] + config.eval(AllSlots(config, dataOffsets, value.bytes))];
        data := data - {key};
      } else {
        out := [];
        data := data[key := value];
      }
      pending := AfterArrival(config, pending, a);
      assert forall k :: k in data && k != key ==> old(KeyRight(k));
    }

    /** Takes the tuples dequeued from input i. */
    method Drain(i: nat, tuples: seq<Bytes>) returns (out: seq<Bytes>)
      requires Valid() && ValidWaiting(config, FromInput(i, tuples))
      modifies this`data, this`pending
      ensures Valid() && pending == PendingAfter(config, old(pending), FromInput(i, tuples))
      ensures out == Outputs(config, old(pending), FromInput(i, tuples))
    {
      hide AfterArrival, OutputOf, ValidArrival, KeyRight;
      out := [];
      ghost var before, all := pending, FromInput(i, tuples);
      var k := 0;
      while k < |tuples|
        invariant 0 <= k <= |tuples| && Valid()
        invariant pending == PendingAfter(config, before, all[..k])
        invariant out == Outputs(config, before, all[..k])
      {
        assert all[..k + 1][..k] == all[..k] && all[k] == Arrival(i, tuples[k]);
        var more := Accept(i, tuples[k]);
        out := out + more;
        k := k + 1;
      }
      assert all[..k] == all;
    }

    /** The inputs in turn, each as far as its queue was dequeued. */
    method Run(batches: seq<seq<Bytes>>) returns (out: seq<Bytes>)
      requires Valid() && |batches| == |config.schemas| && ValidWaiting(config, InTurn(batches))
      modifies this`data, this`pending
      ensures Valid() && pending == PendingAfter(config, old(pending), InTurn(batches))
      ensures out == Outputs(config, old(pending), InTurn(batches))
    {
      hide AfterArrival, OutputOf, ValidArrival, KeyRight, ValidWaiting, ValidConfig;
      out := [];
      ghost var before := pending;
      InTurnValid(config, batches);
      var i := 0;
      while i < |batches|
        invariant 0 <= i <= |batches| && Valid()
        invariant pending == PendingAfter(config, before, InTurn(batches[..i]))
        invariant out == Outputs(config, before, InTurn(batches[..i]))
      {
        ghost var done := InTurn(batches[..i]);
        assert batches[..i + 1][..i] == batches[..i];
        RunJoin(config, before, done, FromInput(i, batches[i]));
        var more := Drain(i, batches[i]);
        out := out + more;
        i := i + 1;
      }
      assert batches[..i] == batches;
    }
  }

  // ----- whole runs

  function FromInput(i: nat, tuples: seq<Bytes>): (r: seq<Arrival>)
    ensures |r| == |tuples| && forall k :: 0 <= k < |r| ==> r[k] == Arrival(i, tuples[k])
  {
    seq(|tuples|, k requires 0 <= k < |tuples| => Arrival(i, tuples[k]))
  }

  /** The arrivals of one invocation in the order they are taken. */
  function InTurn(batches: seq<seq<Bytes>>): seq<Arrival> {
    if batches == [] then []
    else InTurn(batches[..|batches| - 1]) + FromInput(|batches| - 1, batches[|batches| - 1])
  }

  function OfInput(arrivals: seq<Arrival>, i: nat): seq<Arrival> {
    if arrivals == [] then []
    else
      var n := |arrivals| - 1;
      if arrivals[n].input == i then OfInput(arrivals[..n], i) + [arrivals[n]] else OfInput(arrivals[..n], i)
  }

  lemma {:induction false} OfInputJoin(a: seq<Arrival>, b: seq<Arrival>, i: nat)
    ensures OfInput(a + b, i) == OfInput(a, i) + OfInput(b, i)
  {
    if b == [] {
      assert a + b == a;
    } else {
      var n := |b| - 1;
      OfInputJoin(a, b[..n], i);
      assert (a + b)[..|a| + n] == a + b[..n];
    }
  }

  lemma {:induction false} AllOfInput(arrivals: seq<Arrival>, p: nat, i: nat)
    requires forall k :: 0 <= k < |arrivals| ==> arrivals[k].input == p
    ensures OfInput(arrivals, i) == if i == p then arrivals else []
  {
    if arrivals != [] {
      AllOfInput(arrivals[..|arrivals| - 1], p, i);
    }
  }

  /** In one invocation no input is taken after a later one, and of each input its tuples
      are taken in their order. */
  lemma {:induction false} InTurnIs(batches: seq<seq<Bytes>>)
    ensures forall j, k :: 0 <= j < k < |InTurn(batches)| ==> InTurn(batches)[j].input <= InTurn(batches)[k].input
    ensures forall k :: 0 <= k < |InTurn(batches)| ==> InTurn(batches)[k].input < |batches|
    ensures forall i: nat :: OfInput(InTurn(batches), i) == if i < |batches| then FromInput(i, batches[i]) else []
  {
    if batches != [] {
      var n := |batches| - 1;
      InTurnIs(batches[..n]);
      forall i: nat
        ensures OfInput(InTurn(batches), i) == if i < |batches| then FromInput(i, batches[i]) else []
      {
        AllOfInput(FromInput(n, batches[n]), n, i);
        OfInputJoin(InTurn(batches[..n]), FromInput(n, batches[n]), i);
      }
    }
  }

  lemma PartsValid(c: Config, a: seq<Arrival>, b: seq<Arrival>)
    requires ValidWaiting(c, a + b)
    ensures ValidWaiting(c, a) && ValidWaiting(c, b)
  {
    hide ValidArrival;
    assert forall k :: 0 <= k < |a| ==> a[k] == (a + b)[k];
    assert forall k :: 0 <= k < |b| ==> b[k] == (a + b)[|a| + k];
  }

  lemma {:induction false} InTurnValid(c: Config, batches: seq<seq<Bytes>>)
    requires ValidWaiting(c, InTurn(batches))
    ensures forall i :: 0 <= i < |batches| ==>
              ValidWaiting(c, InTurn(batches[..i])) && ValidWaiting(c, FromInput(i, batches[i]))
    ensures forall i :: 0 <= i <= |batches| ==> ValidWaiting(c, InTurn(batches[..i]))
  {
    assert batches[..|batches|] == batches;
    if batches != [] {
      var n := |batches| - 1;
      var first, last := InTurn(batches[..n]), FromInput(n, batches[n]);
      hide ValidArrival;
      PartsValid(c, first, last);
      InTurnValid(c, batches[..n]);
      assert forall i :: 0 <= i <= n ==> batches[..n][..i] == batches[..i];
    }
  }

  function PendingAfter(c: Config, p: Pending, arrivals: seq<Arrival>): (r: Pending)
    requires ValidConfig(c) && ValidPending(c, p) && ValidWaiting(c, arrivals)
    ensures ValidPending(c, r)
  {
    if arrivals == [] then p
    else AfterArrival(c, PendingAfter(c, p, arrivals[..|arrivals| - 1]), arrivals[|arrivals| - 1])
  }

  function Outputs(c: Config, p: Pending, arrivals: seq<Arrival>): seq<Bytes>
    requires ValidConfig(c) && ValidPending(c, p) && ValidWaiting(c, arrivals)
  {
    if arrivals == [] then []
    else
      var n := |arrivals| - 1;
      Outputs(c, p, arrivals[..n]) + OutputOf(c, PendingAfter(c, p, arrivals[..n]), arrivals[n])
  }

  lemma {:induction false} RunJoin(c: Config, p: Pending, a: seq<Arrival>, b: seq<Arrival>)
    requires ValidConfig(c) && ValidPending(c, p) && ValidWaiting(c, a) && ValidWaiting(c, b)
    ensures ValidWaiting(c, a + b)
    ensures PendingAfter(c, p, a + b) == PendingAfter(c, PendingAfter(c, p, a), b)
    ensures Outputs(c, p, a + b) == Outputs(c, p, a) + Outputs(c, PendingAfter(c, p, a), b)
  {
    hide AfterArrival, OutputOf, ValidArrival, ValidConfig;
    if b == [] {
      assert a + b == a;
    } else {
      var n := |b| - 1;
      RunJoin(c, p, a, b[..n]);
      assert (a + b)[..|a| + n] == a + b[..n];
    }
  }

  // ----- keys do not meet

  function OfKey(c: Config, arrivals: seq<Arrival>, k: Bytes): (r: seq<Arrival>)
    requires ValidConfig(c) && ValidWaiting(c, arrivals)
    ensures ValidWaiting(c, r) && OneKey(c, r, k)
  {
    if arrivals == [] then []
    else
      var n := |arrivals| - 1;
      var before := OfKey(c, arrivals[..n], k);
      if KeyOf(c, arrivals[n]) == k then before + [arrivals[n]] else before
  }

  ghost predicate OneKey(c: Config, arrivals: seq<Arrival>, k: Bytes)
    requires ValidConfig(c) && ValidWaiting(c, arrivals)
  {
    forall i :: 0 <= i < |arrivals| ==> KeyOf(c, arrivals[i]) == k
  }

  /** What the arrivals of key k put out among all the others. */
  ghost function OutputsAt(c: Config, p: Pending, arrivals: seq<Arrival>, k: Bytes): seq<Bytes>
    requires ValidConfig(c) && ValidPending(c, p) && ValidWaiting(c, arrivals)
  {
    if arrivals == [] then []
    else
      var n := |arrivals| - 1;
      var before := OutputsAt(c, p, arrivals[..n], k);
      if KeyOf(c, arrivals[n]) == k then before + OutputOf(c, PendingAfter(c, p, arrivals[..n]), arrivals[n]) else before
  }

  /** An arrival sees only what waits for its own key, and changes nothing else. */
  lemma OwnKeyOnly(c: Config, p: Pending, p': Pending, a: Arrival, k: Bytes)
    requires ValidConfig(c) && ValidArrival(c, a) && ValidPending(c, p) && ValidPending(c, p')
    requires Waiting(p, k) == Waiting(p', k)
    ensures KeyOf(c, a) != k ==> Waiting(AfterArrival(c, p, a), k) == Waiting(p, k)
    ensures KeyOf(c, a) == k ==>
              && Waiting(AfterArrival(c, p, a), k) == Waiting(AfterArrival(c, p', a), k)
              && OutputOf(c, p, a) == OutputOf(c, p', a)
  {
    hide ValidConfig, ValidArrival, Complete, KeyOf, PutOut;
  }

  /** What waits and is put out for a key is what it would be if the box only ever
      saw tuples with that key. */
  lemma {:induction false} KeysIndependent(c: Config, p: Pending, arrivals: seq<Arrival>, k: Bytes)
    requires ValidConfig(c) && ValidPending(c, p) && ValidWaiting(c, arrivals)
    ensures Waiting(PendingAfter(c, p, arrivals), k) == Waiting(PendingAfter(c, p, OfKey(c, arrivals, k)), k)
    ensures OutputsAt(c, p, arrivals, k) == Outputs(c, p, OfKey(c, arrivals, k))
  {
    hide ValidConfig, ValidArrival, Complete, KeyOf, PutOut, AfterArrival, OutputOf, Waiting;
    if arrivals != [] {
      var n := |arrivals| - 1;
      KeysIndependent(c, p, arrivals[..n], k);
      var mine := OfKey(c, arrivals[..n], k);
      assert (mine + [arrivals[n]])[..|mine|] == mine;
      OwnKeyOnly(c, PendingAfter(c, p, arrivals[..n]), PendingAfter(c, p, mine), arrivals[n], k);
    }
  }

  // ----- the rounds of one key

  /** h is the first prefix of itself with a tuple from every input. */
  ghost predicate Round(c: Config, h: seq<Arrival>) {
    h != [] && Complete(c, h) && Unfinished(c, h[..|h| - 1])
  }

  ghost predicate Unfinished(c: Config, h: seq<Arrival>) {
    forall n :: 0 < n <= |h| ==> !Complete(c, h[..n])
  }

  function Alone(k: Bytes, w: seq<Arrival>): Pending {
    if w == [] then map[] else map[k := w]
  }

  lemma NextTuple(c: Config, w: seq<Arrival>, a: Arrival, k: Bytes)
    requires ValidConfig(c) && ValidWaiting(c, w) && ValidArrival(c, a) && KeyOf(c, a) == k
    ensures ValidWaiting(c, w + [a])
    ensures AfterArrival(c, Alone(k, w), a) == if Complete(c, w + [a]) then map[] else Alone(k, w + [a])
    ensures OutputOf(c, Alone(k, w), a) == if Complete(c, w + [a]) then [PutOut(c, w + [a])] else []
  {
    hide ValidConfig, ValidArrival, Complete, KeyOf, PutOut;
    assert Waiting(Alone(k, w), k) == w;
    assert Alone(k, w) - {k} == map[];
    assert Alone(k, w)[k := w + [a]] == map[k := w + [a]];
  }

  /** Arrival k is the last of w from input j. */
  ghost predicate LastFrom(w: seq<Arrival>, k: int, j: nat) {
    0 <= k < |w| && w[k].input == j && forall l :: k < l < |w| ==> w[l].input != j
  }

  lemma {:induction false} LatestIsLast(w: seq<Arrival>, j: nat)
    requires HasFrom(w, j)
    ensures exists k :: LastFrom(w, k, j)
    ensures forall k :: LastFrom(w, k, j) ==> w[k] == LatestFrom(w, j)
  {
    var n := |w| - 1;
    if w[n].input == j {
      assert LastFrom(w, n, j);
    } else {
      LatestIsLast(w[..n], j);
      var k :| LastFrom(w[..n], k, j);
      assert LastFrom(w, k, j);
      forall k | LastFrom(w, k, j)
        ensures w[k] == LatestFrom(w, j)
      {
        assert LastFrom(w[..n], k, j);
      }
    }
  }

  /** The output of a round: the header of its last tuple, and what the expressions make of
      the last tuple from each input, as much of it as that input's schema says. */
  ghost predicate RoundOutput(c: Config, w: seq<Arrival>, out: Bytes)
    requires w != [] && ValidWaiting(c, w)
  {
    exists args: seq<Bytes> ::
      && |args| == |c.schemas|
      && (forall j, k :: 0 <= j < |args| && LastFrom(w, k, j) ==> args[j] == w[k].tuple[..c.schemas[j].size])
      && out == w[|w| - 1].tuple[..c.headerSize] + c.eval(args)
  }

  lemma PutOutIs(c: Config, w: seq<Arrival>)
    requires w != [] && ValidWaiting(c, w) && Complete(c, w)
    ensures RoundOutput(c, w, PutOut(c, w))
  {
    var args := seq(|c.schemas|, j requires 0 <= j < |c.schemas| => Stored(c, LatestFrom(w, j)));
    forall j | 0 <= j < |c.schemas|
      ensures forall k :: LastFrom(w, k, j) ==> args[j] == w[k].tuple[..c.schemas[j].size]
    {
      LatestIsLast(w, j);
    }
    assert PutOut(c, w) == w[|w| - 1].tuple[..c.headerSize] + c.eval(args);
  }

  lemma {:induction false} StillWaiting(c: Config, h: seq<Arrival>, k: Bytes)
    requires ValidConfig(c) && ValidWaiting(c, h) && OneKey(c, h, k) && Unfinished(c, h)
    ensures PendingAfter(c, map[], h) == Alone(k, h)
    ensures Outputs(c, map[], h) == []
  {
    hide ValidConfig, ValidArrival, Complete, KeyOf, PutOut, AfterArrival, OutputOf;
    if h == [] {
    } else {
      var n := |h| - 1;
      assert forall m :: 0 < m <= n ==> h[..n][..m] == h[..m];
      StillWaiting(c, h[..n], k);
      assert h[..n] + [h[n]] == h == h[..|h|];
      NextTuple(c, h[..n], h[n], k);
    }
  }

  /** The first tuples of a key that make a round put out one tuple, and the box goes on
      as if it had not seen them; tuples that do not make a round put out nothing and
      are what waits. */
  lemma RoundByRound(c: Config, h: seq<Arrival>, rest: seq<Arrival>, k: Bytes)
    requires ValidConfig(c) && ValidWaiting(c, h) && ValidWaiting(c, rest) && OneKey(c, h, k)
    ensures Round(c, h) ==>
              && ValidWaiting(c, h + rest)
              && Outputs(c, map[], h + rest) == [PutOut(c, h)] + Outputs(c, map[], rest)
              && PendingAfter(c, map[], h + rest) == PendingAfter(c, map[], rest)
              && RoundOutput(c, h, PutOut(c, h))
    ensures Unfinished(c, h) ==> Outputs(c, map[], h) == [] && Waiting(PendingAfter(c, map[], h), k) == h
  {
    hide ValidConfig, ValidArrival, Complete, KeyOf, PutOut, AfterArrival, OutputOf;
    if Round(c, h) {
      assert h[..|h|] == h;
      PutOutIs(c, h);
      RoundPutsOut(c, h, k);
      RunJoin(c, map[], h, rest);
    } else if Unfinished(c, h) {
      StillWaiting(c, h, k);
    }
  }

  lemma RoundPutsOut(c: Config, h: seq<Arrival>, k: Bytes)
    requires ValidConfig(c) && ValidWaiting(c, h) && OneKey(c, h, k) && Round(c, h)
    ensures PendingAfter(c, map[], h) == map[] && Outputs(c, map[], h) == [PutOut(c, h)]
  {
    hide ValidConfig, ValidArrival, Complete, KeyOf, PutOut, AfterArrival, OutputOf;
    var n := |h| - 1;
    StillWaiting(c, h[..n], k);
    assert h[..n] + [h[n]] == h;
    NextTuple(c, h[..n], h[n], k);
  }

  /** Every sequence of tuples starts with a round or is unfinished. */
  lemma {:induction false} FirstRound(c: Config, h: seq<Arrival>) returns (n: nat)
    requires !Unfinished(c, h)
    ensures 0 < n <= |h| && Round(c, h[..n])
  {
    var m := |h| - 1;
    assert forall j :: 0 <= j <= m ==> h[..m][..j] == h[..j];
    if Unfinished(c, h[..m]) {
      n := |h|;
      assert h[..n] == h;
      assert Complete(c, h[..n]);
    } else {
      n := FirstRound(c, h[..m]);
    }
  }
}
