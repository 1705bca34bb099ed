/**
  Boxes, streams and schemas, and what inferring one box does to the schemas of
  its out streams.
*/
module Network {
  import opened Basics

  type Stream = string
  type Node = string

  /** element is the schema of an array's elements when these are tuples. */
  datatype Field = Field(name: string, kind: string, element: Option<Schema>)
  datatype Schema = Schema(name: string, fields: seq<Field>)

  /** A box of the catalog with the node it is assigned to. */
  datatype Box = Box(name: string, kind: string, node: Node, ins: seq<Stream>, outs: seq<Stream>)

  /** Streams without an entry have no schema yet. */
  type Schemas = map<Stream, Schema>

  // ----- schemas

  ghost predicate SameFields(a: Schema, b: Schema) {
    && |a.fields| == |b.fields|
    && forall i :: 0 <= i < |a.fields| ==> a.fields[i].name == b.fields[i].name && a.fields[i].kind == b.fields[i].kind
  }

  /** Counts an index down over the fields; array elements are not compared. */
  method EqualSchema(a: Schema, b: Schema) returns (status: bool)
    ensures status <==> SameFields(a, b)
    ensures status <==>
            && |a.fields| == |b.fields|
            && forall i :: 0 <= i < |a.fields| ==> a.fields[i].name == b.fields[i].name && a.fields[i].kind == b.fields[i].kind
  {
    status := false;
    var index := |a.fields|;
    if index == |b.fields| {
      status := true;
      while index != 0
        invariant 0 <= index <= |a.fields|
        invariant status
        invariant forall i :: index <= i < |a.fields| ==>
                                a.fields[i].name == b.fields[i].name && a.fields[i].kind == b.fields[i].kind
      {
        index := index - 1;
        if a.fields[index].kind != b.fields[index].kind || a.fields[index].name != b.fields[index].name {
          status := false;
          break;
        }
      }
    }
  }

  // ----- inferring one box

  /** What the typing rules of a box's kind say of its in schemas: a schema for
      each out stream, an external kind nobody knows, or an error. */
  datatype Typing = Typed(outs: seq<Schema>) | UnknownKind | IllTyped(message: string)

  type Inference = (Box, seq<Schema>) -> Typing

  datatype BoxStatus = Done(schemas: Schemas) | Unknown | Failed(message: string)

  predicate Ready(m: Schemas, b: Box) {
    forall s :: s in b.ins ==> s in m
  }

  method AllInsHaveSchemas(m: Schemas, b: Box) returns (all: bool)
    ensures all <==> Ready(m, b)
    ensures all <==> forall i :: 0 <= i < |b.ins| ==> b.ins[i] in m
  {
    all := true;
    var i := 0;
    while i < |b.ins|
      invariant 0 <= i <= |b.ins|
      invariant all
      invariant forall j :: 0 <= j < i ==> b.ins[j] in m
    {
      if b.ins[i] !in m {
        all := false;
        break;
      }
      i := i + 1;
    }
  }

  function InSchemas(m: Schemas, ins: seq<Stream>): (r: seq<Schema>)
    requires forall s :: s in ins ==> s in m
    ensures |r| == |ins| && forall i :: 0 <= i < |ins| ==> r[i] == m[ins[i]]
  {
    seq(|ins|, i requires 0 <= i < |ins| => assert ins[i] in ins; m[ins[i]])
  }

  /** An out stream without a schema is given the inferred one; an out stream that
      has one keeps it, and the two must have the same fields. */
  ghost function MatchOuts(m: Schemas, outs: seq<Stream>, inferred: seq<Schema>): Option<Schemas>
    requires |outs| == |inferred|
    decreases |outs|
  {
    if outs == [] then Some(m)
    else if outs[0] !in m then MatchOuts(m[outs[0] := inferred[0]], outs[1..], inferred[1..])
    else if SameFields(inferred[0], m[outs[0]]) then MatchOuts(m, outs[1..], inferred[1..])
    else None
  }

  ghost function InferBoxOut(infer: Inference, b: Box, m: Schemas): BoxStatus
    requires Ready(m, b)
  {
    match infer(b, InSchemas(m, b.ins))
    case UnknownKind => Unknown
    case IllTyped(message) => Failed(message)
    case Typed(outs) =>
      if |outs| != |b.outs| then Failed("wrong number of outs")
      else match MatchOuts(m, b.outs, outs)
           case None => Failed("schemas do not match")
           case Some(m') => Done(m')
  }

  /** Infers one box in place: a failed box leaves its status and no schema. */
  method InferBox(infer: Inference, b: Box, m: Schemas) returns (status: BoxStatus)
    requires Ready(m, b)
    ensures status == InferBoxOut(infer, b, m)
    ensures BoxInferred(infer(b, InSchemas(m, b.ins)), b, m, status)
  {
    InferBoxExact(infer, b, m);
    var typing := infer(b, InSchemas(m, b.ins));
    match typing {
      case UnknownKind => status := Unknown;
      case IllTyped(message) => status := Failed(message);
      case Typed(outs) =>
        if |outs| != |b.outs| {
          status := Failed("wrong number of outs");
        } else {
          var schemas := m;
          var i := 0;
          while i < |outs|
            invariant 0 <= i <= |outs|
            invariant MatchOuts(m, b.outs, outs) == MatchOuts(schemas, b.outs[i..], outs[i..])
          {
            assert b.outs[i..][1..] == b.outs[i + 1..] && outs[i..][1..] == outs[i + 1..];
            if b.outs[i] !in schemas {
              schemas := schemas[b.outs[i] := outs[i]];
            } else {
              var same := EqualSchema(outs[i], schemas[b.outs[i]]);
              if !same {
                return Failed("schemas do not match");
              }
            }
            i := i + 1;
          }
          status := Done(schemas);
        }
    }
  }

  // ----- properties

  ghost predicate Extends(m: Schemas, m': Schemas) {
    forall s :: s in m ==> s in m' && m'[s] == m[s]
  }

  /** m and m' say the same of stream s. */
  ghost predicate AgreeOn(m: Schemas, m': Schemas, s: Stream) {
    && (s in m <==> s in m')
    && (s in m ==> m[s] == m'[s])
  }

  /** Matching gives every out stream a schema, changes no stream that had one and
      touches no other. */
  lemma {:induction false} MatchOutsFills(m: Schemas, outs: seq<Stream>, inferred: seq<Schema>)
    requires |outs| == |inferred|
    requires MatchOuts(m, outs, inferred).Some?
    ensures var m' := MatchOuts(m, outs, inferred).value;
            && Extends(m, m')
            && (forall s :: s in outs ==> s in m')
            && (forall s :: s in m' ==> s in m || s in outs)
    decreases |outs|
  {
    if outs != [] {
      var m1 := if outs[0] !in m then m[outs[0] := inferred[0]] else m;
      MatchOutsFills(m1, outs[1..], inferred[1..]);
      assert outs == [outs[0]] + outs[1..];
    }
  }

  function First(outs: seq<Stream>, s: Stream): (i: nat)
    requires s in outs
    ensures i < |outs| && outs[i] == s && s !in outs[..i]
  {
    if outs[0] == s then 0 else 1 + First(outs[1..], s)
  }

  /** The schema of a stream once a box's out streams are matched: the one it has, or
      the one inferred where it is first named. */
  function OutSchema(m: Schemas, outs: seq<Stream>, inferred: seq<Schema>, s: Stream): Schema
    requires |outs| == |inferred| && (s in m || s in outs)
  {
    if s in m then m[s] else inferred[First(outs, s)]
  }

  /** Every inferred schema has the fields of the schema its stream has or gets. */
  ghost predicate AllMatch(m: Schemas, outs: seq<Stream>, inferred: seq<Schema>)
    requires |outs| == |inferred|
  {
    forall i :: 0 <= i < |outs| ==> SameFields(inferred[i], OutSchema(m, outs, inferred, outs[i]))
  }

  /** m' is m with the out streams that had no schema. */
  ghost predicate OutsGiven(m: Schemas, outs: seq<Stream>, inferred: seq<Schema>, m': Schemas)
    requires |outs| == |inferred|
  {
    && (forall s :: s in m' <==> s in m || s in outs)
    && forall s :: s in m' ==> m'[s] == OutSchema(m, outs, inferred, s)
  }

  /** What is known once the first out stream is matched. */
  function FirstGiven(m: Schemas, outs: seq<Stream>, inferred: seq<Schema>): Schemas
    requires outs != [] && |outs| == |inferred|
  {
    if outs[0] !in m then m[outs[0] := inferred[0]] else m
  }

  lemma RestSchema(m: Schemas, outs: seq<Stream>, inferred: seq<Schema>, s: Stream)
    requires outs != [] && |outs| == |inferred|
    ensures s in FirstGiven(m, outs, inferred) || s in outs[1..] <==> s in m || s in outs
    ensures s in m || s in outs ==>
              OutSchema(FirstGiven(m, outs, inferred), outs[1..], inferred[1..], s) == OutSchema(m, outs, inferred, s)
  {
    assert outs == [outs[0]] + outs[1..];
  }

  lemma RestMatches(m: Schemas, outs: seq<Stream>, inferred: seq<Schema>)
    requires outs != [] && |outs| == |inferred|
    ensures AllMatch(m, outs, inferred) <==>
            && SameFields(inferred[0], OutSchema(m, outs, inferred, outs[0]))
            && AllMatch(FirstGiven(m, outs, inferred), outs[1..], inferred[1..])
  {
    hide SameFields, OutSchema, FirstGiven;
    var m1, rest, inferred' := FirstGiven(m, outs, inferred), outs[1..], inferred[1..];
    forall i | 0 <= i < |rest|
      ensures OutSchema(m1, rest, inferred', rest[i]) == OutSchema(m, outs, inferred, outs[i + 1])
      ensures inferred'[i] == inferred[i + 1]
    {
      RestSchema(m, outs, inferred, outs[i + 1]);
    }
    if AllMatch(m1, rest, inferred') && SameFields(inferred[0], OutSchema(m, outs, inferred, outs[0])) {
      forall i | 0 <= i < |outs|
        ensures SameFields(inferred[i], OutSchema(m, outs, inferred, outs[i]))
      {
        assert i > 0 ==> SameFields(inferred'[i - 1], OutSchema(m1, rest, inferred', rest[i - 1]));
      }
    }
    if AllMatch(m, outs, inferred) {
      forall i | 0 <= i < |rest|
        ensures SameFields(inferred'[i], OutSchema(m1, rest, inferred', rest[i]))
      {
        assert SameFields(inferred[i + 1], OutSchema(m, outs, inferred, outs[i + 1]));
      }
    }
  }

  lemma {:induction false} MatchOutsExact(m: Schemas, outs: seq<Stream>, inferred: seq<Schema>)
    requires |outs| == |inferred|
    ensures var r := MatchOuts(m, outs, inferred);
            (r.Some? <==> AllMatch(m, outs, inferred)) && (r.Some? ==> OutsGiven(m, outs, inferred, r.value))
    decreases |outs|
  {
    if outs != [] {
      MatchOutsExact(FirstGiven(m, outs, inferred), outs[1..], inferred[1..]);
      RestMatches(m, outs, inferred);
      hide AllMatch;
      forall s
        ensures s in FirstGiven(m, outs, inferred) || s in outs[1..] <==> s in m || s in outs
        ensures s in m || s in outs ==>
                  OutSchema(FirstGiven(m, outs, inferred), outs[1..], inferred[1..], s) == OutSchema(m, outs, inferred, s)
      {
        RestSchema(m, outs, inferred, s);
      }
      hide SameFields;
      assert outs[0] !in m ==> SameFields(inferred[0], inferred[0]) by { Reflexive(inferred[0]); }
    }
  }

  lemma Reflexive(x: Schema)
    ensures SameFields(x, x)
  {
  }

  /** A stream named once is given the schema inferred for its own place. */
  lemma NamedOnce(m: Schemas, outs: seq<Stream>, inferred: seq<Schema>, i: nat)
    requires |outs| == |inferred| && Distinct(outs) && i < |outs| && outs[i] !in m
    ensures OutSchema(m, outs, inferred, outs[i]) == inferred[i]
  {
  }

  /** What inferring a box comes to: done exactly when its kind gives as many schemas as it
      has out streams and all match; then each out stream without a schema has its own. */
  ghost predicate BoxInferred(typing: Typing, b: Box, m: Schemas, status: BoxStatus) {
    && (status.Unknown? <==> typing.UnknownKind?)
    && (status.Done? <==> typing.Typed? && |typing.outs| == |b.outs| && AllMatch(m, b.outs, typing.outs))
    && (status.Done? ==> OutsGiven(m, b.outs, typing.outs, status.schemas))
    && (typing.IllTyped? ==> status == Failed(typing.message))
  }

  lemma InferBoxExact(infer: Inference, b: Box, m: Schemas)
    requires Ready(m, b)
    ensures BoxInferred(infer(b, InSchemas(m, b.ins)), b, m, InferBoxOut(infer, b, m))
  {
    var typing := infer(b, InSchemas(m, b.ins));
    if typing.Typed? && |typing.outs| == |b.outs| {
      MatchOutsExact(m, b.outs, typing.outs);
    }
  }

  /** For a box that names each out stream once: every declared one must have the fields
      inferred for its place, every other is given just the schema inferred for its. */
  lemma DistinctOutsExact(infer: Inference, b: Box, m: Schemas)
    requires Ready(m, b) && Distinct(b.outs)
    ensures var typing, r := infer(b, InSchemas(m, b.ins)), InferBoxOut(infer, b, m);
            && (r.Done? <==>
                  && typing.Typed? && |typing.outs| == |b.outs|
                  && forall i :: 0 <= i < |b.outs| ==> b.outs[i] !in m || SameFields(typing.outs[i], m[b.outs[i]]))
            && (r.Done? ==>
                  && (forall i :: 0 <= i < |b.outs| && b.outs[i] !in m ==>
                        b.outs[i] in r.schemas && r.schemas[b.outs[i]] == typing.outs[i])
                  && forall s :: s in m ==> s in r.schemas && r.schemas[s] == m[s])
  {
    InferBoxExact(infer, b, m);
    var typing := infer(b, InSchemas(m, b.ins));
    if typing.Typed? && |typing.outs| == |b.outs| {
      forall i | 0 <= i < |b.outs|
        ensures OutSchema(m, b.outs, typing.outs, b.outs[i]) == if b.outs[i] in m then m[b.outs[i]] else typing.outs[i]
        ensures SameFields(typing.outs[i], typing.outs[i])
      {
        if b.outs[i] !in m {
          NamedOnce(m, b.outs, typing.outs, i);
        }
      }
    }
  }

  /** Matching depends only on what is known of the out streams themselves. */
  lemma {:induction false} MatchOutsLocal(m: Schemas, m': Schemas, outs: seq<Stream>, inferred: seq<Schema>)
    requires |outs| == |inferred|
    requires forall s :: s in outs ==> AgreeOn(m, m', s)
    ensures var r, r' := MatchOuts(m, outs, inferred), MatchOuts(m', outs, inferred);
            && (r.Some? <==> r'.Some?)
            && (r.Some? ==> forall s :: s in outs ==> AgreeOn(r.value, r'.value, s))
    decreases |outs|
  {
    if outs != [] {
      assert AgreeOn(m, m', outs[0]);
      var m1 := if outs[0] !in m then m[outs[0] := inferred[0]] else m;
      var m1' := if outs[0] !in m then m'[outs[0] := inferred[0]] else m';
      forall s | s in outs[1..] || s == outs[0]
        ensures AgreeOn(m1, m1', s)
      {
        assert AgreeOn(m, m', s);
      }
      MatchOutsLocal(m1, m1', outs[1..], inferred[1..]);
      if MatchOuts(m, outs, inferred).Some? {
        MatchOutsFills(m1, outs[1..], inferred[1..]);
        MatchOutsFills(m1', outs[1..], inferred[1..]);
      }
    }
  }

  lemma InferBoxOutFills(infer: Inference, b: Box, m: Schemas)
    requires Ready(m, b) && InferBoxOut(infer, b, m).Done?
    ensures var m' := InferBoxOut(infer, b, m).schemas;
            && Extends(m, m')
            && (forall s :: s in b.outs ==> s in m')
            && (forall s :: s in m' ==> s in m || s in b.outs)
  {
    MatchOutsFills(m, b.outs, infer(b, InSchemas(m, b.ins)).outs);
  }

  /** The outcome for a box depends only on its own in and out streams. */
  lemma InferBoxOutLocal(infer: Inference, b: Box, m: Schemas, m': Schemas)
    requires Ready(m, b)
    requires forall s :: s in b.ins || s in b.outs ==> AgreeOn(m, m', s)
    ensures Ready(m', b)
    ensures var r, r' := InferBoxOut(infer, b, m), InferBoxOut(infer, b, m');
            && (r.Done? <==> r'.Done?) && (!r.Done? ==> r == r')
            && (r.Done? ==> forall s :: s in b.outs ==> AgreeOn(r.schemas, r'.schemas, s))
  {
    forall i | 0 <= i < |b.ins|
      ensures b.ins[i] in m' && m'[b.ins[i]] == m[b.ins[i]]
    {
      assert AgreeOn(m, m', b.ins[i]);
    }
    assert InSchemas(m, b.ins) == InSchemas(m', b.ins);
    var typing := infer(b, InSchemas(m, b.ins));
    if typing.Typed? && |typing.outs| == |b.outs| {
      MatchOutsLocal(m, m', b.outs, typing.outs);
    }
  }
}
