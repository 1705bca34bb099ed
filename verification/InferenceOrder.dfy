/**
  What a scan that infers pending boxes one at a time can end with, whatever the
  order it looks at them in.
*/
module InferenceOrder {
  import opened Basics
  import opened Network

  // ----- orders

  /** The schemas after inferring the boxes of order one after the other. */
  ghost function After(infer: Inference, start: Schemas, order: seq<Box>): Schemas {
    if order == [] then start
    else
      var m, b := After(infer, start, order[..|order| - 1]), order[|order| - 1];
      if Ready(m, b) && InferBoxOut(infer, b, m).Done? then InferBoxOut(infer, b, m).schemas else m
  }

  /** Each box of order comes once, is ready in its turn and is inferred. */
  ghost predicate ValidOrder(infer: Inference, start: Schemas, order: seq<Box>) {
    order == [] ||
    var m, b := After(infer, start, order[..|order| - 1]), order[|order| - 1];
    && ValidOrder(infer, start, order[..|order| - 1])
    && b !in order[..|order| - 1]
    && Ready(m, b)
    && InferBoxOut(infer, b, m).Done?
  }

  /** Every stream comes out of at most one box, at one port. */
  ghost predicate Wired(net: set<Box>) {
    && (forall b :: b in net ==> Distinct(b.outs))
    && forall b, c, s :: b in net && c in net && s in b.outs && s in c.outs ==> b == c
  }

  ghost predicate Within(order: seq<Box>, net: set<Box>) {
    forall b :: b in order ==> b in net
  }

  datatype Outcome = Complete | Cyclic | Rejected(box: Box)

  /** A scan over net inferred the boxes of order and then stopped with outcome. */
  ghost predicate ScanResult(infer: Inference, net: set<Box>, start: Schemas, order: seq<Box>, outcome: Outcome) {
    var m := After(infer, start, order);
    && ValidOrder(infer, start, order)
    && Within(order, net)
    && match outcome
       case Complete => forall b :: b in net ==> b in order
       case Cyclic => (exists b :: b in net && b !in order) && forall b :: b in net && b !in order ==> !Ready(m, b)
       case Rejected(b) => b in net && b !in order && Ready(m, b) && !InferBoxOut(infer, b, m).Done?
  }

  lemma OrderStep(infer: Inference, start: Schemas, order: seq<Box>, b: Box)
    requires ValidOrder(infer, start, order) && b !in order
    requires var m := After(infer, start, order); Ready(m, b) && InferBoxOut(infer, b, m).Done?
    ensures ValidOrder(infer, start, order + [b])
    ensures After(infer, start, order + [b]) == InferBoxOut(infer, b, After(infer, start, order)).schemas
  {
    assert (order + [b])[..|order + [b]| - 1] == order;
  }

  lemma {:induction false} ValidPrefix(infer: Inference, start: Schemas, order: seq<Box>, j: nat)
    requires ValidOrder(infer, start, order) && j <= |order|
    ensures ValidOrder(infer, start, order[..j])
    ensures Extends(After(infer, start, order[..j]), After(infer, start, order))
  {
    if j == |order| {
      assert order[..j] == order;
    } else {
      var n := |order| - 1;
      ValidPrefix(infer, start, order[..n], j);
      assert order[..n][..j] == order[..j];
      InferBoxOutFills(infer, order[n], After(infer, start, order[..n]));
    }
  }

  /** The streams with schemas are those that started with one and the outs of the
      boxes inferred. */
  lemma {:induction false} AfterStreams(infer: Inference, start: Schemas, order: seq<Box>)
    requires ValidOrder(infer, start, order)
    ensures Extends(start, After(infer, start, order))
    ensures forall b, s :: b in order && s in b.outs ==> s in After(infer, start, order)
    ensures forall s :: s in After(infer, start, order) ==> s in start || exists b :: b in order && s in b.outs
  {
    if order != [] {
      var n := |order| - 1;
      AfterStreams(infer, start, order[..n]);
      InferBoxOutFills(infer, order[n], After(infer, start, order[..n]));
      assert order == order[..n] + [order[n]];
      assert forall b :: b in order[..n] ==> b in order;
    }
  }

  /** The outs of a box not yet inferred are as they started. */
  lemma OutsUntouched(infer: Inference, net: set<Box>, start: Schemas, order: seq<Box>, b: Box, s: Stream)
    requires Wired(net) && Within(order, net) && ValidOrder(infer, start, order)
    requires b in net && b !in order && s in b.outs
    ensures AgreeOn(start, After(infer, start, order), s)
  {
    AfterStreams(infer, start, order);
  }

  // ----- confluence

  /** No box left could be inferred. */
  ghost predicate Settled(infer: Inference, net: set<Box>, start: Schemas, order: seq<Box>) {
    var m := After(infer, start, order);
    forall b :: b in net && b !in order && Ready(m, b) ==> !InferBoxOut(infer, b, m).Done?
  }

  /** A box ready in one order and inferred in another meets the same schemas at its
      ports, so it ends the same in both. */
  lemma SameInference(infer: Inference, net: set<Box>, start: Schemas, b: Box,
                      order: seq<Box>, order': seq<Box>, m: Schemas, m': Schemas)
    requires Wired(net) && b in net
    requires ValidOrder(infer, start, order) && Within(order, net) && b !in order
    requires ValidOrder(infer, start, order') && Within(order', net) && b !in order'
    requires m == After(infer, start, order) && m' == After(infer, start, order')
    requires Ready(m, b) && forall s :: s in b.ins ==> AgreeOn(m, m', s)
    ensures Ready(m', b)
    ensures var r, r' := InferBoxOut(infer, b, m), InferBoxOut(infer, b, m');
            && (r.Done? <==> r'.Done?)
            && (r.Done? ==> forall s :: s in b.outs ==> AgreeOn(r.schemas, r'.schemas, s))
  {
    forall s | s in b.outs
      ensures AgreeOn(m, m', s)
    {
      OutsUntouched(infer, net, start, order, b, s);
      OutsUntouched(infer, net, start, order', b, s);
    }
    InferBoxOutLocal(infer, b, m, m');
  }

  /** The position of b in order, with the schemas it met there and left there. */
  lemma {:induction false} AtItsTurn(infer: Inference, start: Schemas, order: seq<Box>, b: Box) returns (j: nat)
    requires ValidOrder(infer, start, order) && b in order
    ensures j < |order| && order[j] == b && b !in order[..j]
    ensures ValidOrder(infer, start, order[..j])
    ensures var m := After(infer, start, order[..j]);
            && Ready(m, b) && InferBoxOut(infer, b, m).Done?
            && Extends(m, After(infer, start, order))
            && Extends(InferBoxOut(infer, b, m).schemas, After(infer, start, order))
  {
    var n := |order| - 1;
    if order[n] == b {
      j := n;
      InferBoxOutFills(infer, b, After(infer, start, order[..n]));
    } else {
      assert order == order[..n] + [order[n]];
      j := AtItsTurn(infer, start, order[..n], b);
      assert order[..n][..j] == order[..j];
      InferBoxOutFills(infer, order[n], After(infer, start, order[..n]));
    }
  }

  /** A settled order contains every other order and ends with the same schemas for
      the streams that order reached. */
  lemma {:induction false} SettledContains(infer: Inference, net: set<Box>, start: Schemas, order: seq<Box>, settled: seq<Box>)
    requires Wired(net)
    requires ValidOrder(infer, start, order) && Within(order, net)
    requires ValidOrder(infer, start, settled) && Within(settled, net)
    requires Settled(infer, net, start, settled)
    ensures forall b :: b in order ==> b in settled
    ensures Extends(After(infer, start, order), After(infer, start, settled))
    decreases |order|
  {
    if order == [] {
      AfterStreams(infer, start, settled);
    } else {
      var n := |order| - 1;
      var b := order[n];
      assert order == order[..n] + [b];
      SettledContains(infer, net, start, order[..n], settled);
      var m, end := After(infer, start, order[..n]), After(infer, start, settled);
      if b !in settled {
        SameInference(infer, net, start, b, order[..n], settled, m, end);
        assert false;
      }
      var j := AtItsTurn(infer, start, settled, b);
      var m' := After(infer, start, settled[..j]);
      forall s | s in b.ins
        ensures AgreeOn(m, m', s)
      {
        assert s in m && s in m' && m[s] == end[s] == m'[s];
      }
      SameInference(infer, net, start, b, order[..n], settled[..j], m, m');
      NewSchemasSurvive(infer, b, m, m', end);
    }
  }

  lemma NewSchemasSurvive(infer: Inference, b: Box, m: Schemas, m': Schemas, end: Schemas)
    requires Ready(m, b) && Ready(m', b)
    requires InferBoxOut(infer, b, m).Done? && InferBoxOut(infer, b, m').Done?
    requires Extends(m, end) && Extends(InferBoxOut(infer, b, m').schemas, end)
    requires forall s :: s in b.outs ==> AgreeOn(InferBoxOut(infer, b, m).schemas, InferBoxOut(infer, b, m').schemas, s)
    ensures Extends(InferBoxOut(infer, b, m).schemas, end)
  {
    InferBoxOutFills(infer, b, m);
    var r := InferBoxOut(infer, b, m).schemas;
    forall s | s in r
      ensures s in end && end[s] == r[s]
    {
      if s in b.outs {
        assert AgreeOn(r, InferBoxOut(infer, b, m').schemas, s);
      }
    }
  }

  /** No scan gets past a rejected box: if one ends at it, no other ends complete or
      cyclic. */
  lemma RejectedStays(infer: Inference, net: set<Box>, start: Schemas,
                      order: seq<Box>, b: Box, order': seq<Box>, outcome': Outcome)
    requires Wired(net)
    requires ScanResult(infer, net, start, order, Rejected(b))
    requires ScanResult(infer, net, start, order', outcome')
    ensures outcome'.Rejected?
  {
    if !outcome'.Rejected? {
      SettledContains(infer, net, start, order, order');
      var m, end := After(infer, start, order), After(infer, start, order');
      assert Ready(end, b);
      assert b in order';
      var j := AtItsTurn(infer, start, order', b);
      var m' := After(infer, start, order'[..j]);
      forall s | s in b.ins
        ensures AgreeOn(m, m', s)
      {
        assert s in m && s in m' && m[s] == end[s] == m'[s];
      }
      SameInference(infer, net, start, b, order, order'[..j], m, m');
      assert false;
    }
  }

  /** Any two scans of the same boxes end alike; when no box is rejected they have
      inferred the same boxes and given every stream the same schema. */
  lemma Confluence(infer: Inference, net: set<Box>, start: Schemas,
                   order: seq<Box>, outcome: Outcome, order': seq<Box>, outcome': Outcome)
    requires Wired(net)
    requires ScanResult(infer, net, start, order, outcome)
    requires ScanResult(infer, net, start, order', outcome')
    ensures outcome.Rejected? <==> outcome'.Rejected?
    ensures !outcome.Rejected? ==>
              && outcome == outcome'
              && (forall b :: b in order <==> b in order')
              && After(infer, start, order) == After(infer, start, order')
  {
    if outcome.Rejected? {
      RejectedStays(infer, net, start, order, outcome.box, order', outcome');
    } else if outcome'.Rejected? {
      RejectedStays(infer, net, start, order', outcome'.box, order, outcome);
    } else {
      SettledContains(infer, net, start, order, order');
      SettledContains(infer, net, start, order', order);
      var m, m' := After(infer, start, order), After(infer, start, order');
      assert m.Keys == m'.Keys;
    }
  }

  // ----- the verdict, without reference to any order

  /** X holds every box whose ins all start with a schema or come out of X. */
  ghost predicate ClosedUnderInference(net: set<Box>, start: Schemas, X: set<Box>) {
    forall b :: b in net && (forall s :: s in b.ins ==> s in start || exists p :: p in X && s in p.outs) ==> b in X
  }

  /** The boxes a scan infers are in every closed set... */
  lemma {:induction false} InferredInEveryClosed(infer: Inference, net: set<Box>, start: Schemas, order: seq<Box>, X: set<Box>)
    requires ValidOrder(infer, start, order) && Within(order, net)
    requires ClosedUnderInference(net, start, X)
    ensures forall b :: b in order ==> b in X
  {
    if order != [] {
      var n := |order| - 1;
      InferredInEveryClosed(infer, net, start, order[..n], X);
      AfterStreams(infer, start, order[..n]);
      assert order == order[..n] + [order[n]];
      forall s | s in order[n].ins
        ensures s in start || exists p :: p in X && s in p.outs
      {
        assert s in After(infer, start, order[..n]);
      }
    }
  }

  /** ...and are closed themselves when no box is rejected. */
  lemma InferredIsClosed(infer: Inference, net: set<Box>, start: Schemas, order: seq<Box>, outcome: Outcome)
    requires ScanResult(infer, net, start, order, outcome) && !outcome.Rejected?
    ensures ClosedUnderInference(net, start, set b | b in order)
  {
    AfterStreams(infer, start, order);
    var m := After(infer, start, order);
    forall b | b in net && forall s :: s in b.ins ==> s in start || exists p :: p in (set c | c in order) && s in p.outs
      ensures b in order
    {
      assert Ready(m, b);
    }
  }

  /** When no box is rejected the boxes inferred are the least closed set, and the
      scan is complete exactly when that is all of them. */
  lemma ExactVerdict(infer: Inference, net: set<Box>, start: Schemas, order: seq<Box>, outcome: Outcome)
    requires ScanResult(infer, net, start, order, outcome) && !outcome.Rejected?
    ensures ClosedUnderInference(net, start, set b | b in order)
    ensures forall X, b :: ClosedUnderInference(net, start, X) && b in order ==> b in X
    ensures outcome == Complete <==> forall X: set<Box>, b :: ClosedUnderInference(net, start, X) && b in net ==> b in X
  {
    InferredIsClosed(infer, net, start, order, outcome);
    forall X | ClosedUnderInference(net, start, X)
      ensures forall b :: b in order ==> b in X
    {
      InferredInEveryClosed(infer, net, start, order, X);
    }
  }

  // ----- cycles

  /** b reads a stream that starts without a schema and comes out of p. */
  ghost predicate WaitsFor(start: Schemas, b: Box, p: Box) {
    exists s :: s in b.ins && s !in start && s in p.outs
  }

  /** Each box of path waits for the next... */
  ghost predicate Chain(net: set<Box>, start: Schemas, path: seq<Box>) {
    && path != []
    && (forall i :: 0 <= i < |path| ==> path[i] in net)
    && forall i :: 0 <= i < |path| - 1 ==> WaitsFor(start, path[i], path[i + 1])
  }

  /** ...and the last for the first. */
  ghost predicate Cycle(net: set<Box>, start: Schemas, path: seq<Box>) {
    Chain(net, start, path) && WaitsFor(start, path[|path| - 1], path[0])
  }

  /** Every stream read that starts without a schema comes out of some box of net. */
  ghost predicate Fed(net: set<Box>, start: Schemas) {
    forall b, s :: b in net && s in b.ins && s !in start ==> exists p :: p in net && s in p.outs
  }

  /** next gives for each stuck box another it waits for. */
  ghost predicate WaitsInside(start: Schemas, next: map<Box, Box>) {
    forall c {:trigger next[c]} :: c in next ==> next[c] in next && WaitsFor(start, c, next[c])
  }

  ghost predicate Waits(start: Schemas, stuck: set<Box>, c: Box) {
    exists p :: p in stuck && WaitsFor(start, c, p)
  }

  ghost function Awaited(start: Schemas, stuck: set<Box>, c: Box): (p: Box)
    requires Waits(start, stuck, c)
    ensures p in stuck && WaitsFor(start, c, p)
  {
    var p :| p in stuck && WaitsFor(start, c, p);
    p
  }

  ghost function NextStuck(start: Schemas, stuck: set<Box>): (next: map<Box, Box>)
    requires forall c {:trigger Waits(start, stuck, c)} :: c in stuck ==> Waits(start, stuck, c)
    ensures next.Keys == stuck && WaitsInside(start, next)
  {
    hide WaitsFor, Waits;
    map c | c in stuck :: Awaited(start, stuck, c)
  }

  /** A walk of k steps from b along next. */
  lemma {:induction false} Walk(start: Schemas, next: map<Box, Box>, b: Box, k: nat) returns (walk: seq<Box>)
    requires b in next && WaitsInside(start, next)
    ensures |walk| == k + 1 && walk[0] == b
    ensures forall i :: 0 <= i < |walk| ==> walk[i] in next
    ensures forall i :: 0 <= i < k ==> WaitsFor(start, walk[i], walk[i + 1])
    decreases k
  {
    hide WaitsFor;
    if k == 0 {
      walk := [b];
    } else {
      var rest := Walk(start, next, next[b], k - 1);
      walk := [b] + rest;
    }
  }

  /** A sequence longer than a set that holds all its elements repeats one. */
  lemma {:induction false} Pigeonhole(stuck: set<Box>, walk: seq<Box>) returns (i: nat, j: nat)
    requires |walk| > |stuck|
    requires forall k :: 0 <= k < |walk| ==> walk[k] in stuck
    ensures i < j < |walk| && walk[i] == walk[j]
    decreases |walk|
  {
    var last := walk[|walk| - 1];
    if k :| 0 <= k < |walk| - 1 && walk[k] == last {
      i, j := k, |walk| - 1;
    } else {
      i, j := Pigeonhole(stuck - {last}, walk[..|walk| - 1]);
    }
  }

  /** Boxes that each wait for another among them contain a cycle. */
  lemma StuckHasCycle(net: set<Box>, start: Schemas, next: map<Box, Box>, b: Box) returns (path: seq<Box>)
    requires b in next && next.Keys <= net && WaitsInside(start, next)
    ensures Cycle(net, start, path)
  {
    hide WaitsFor, WaitsInside;
    var walk := Walk(start, next, b, |next.Keys|);
    var i, j := Pigeonhole(next.Keys, walk);
    path := walk[i..j];
    assert WaitsFor(start, walk[j - 1], walk[j]);
    forall k | 0 <= k < |path| - 1
      ensures WaitsFor(start, path[k], path[k + 1])
    {
      assert WaitsFor(start, walk[i + k], walk[i + k + 1]);
    }
  }

  /** No box on a cycle is ever inferred. */
  lemma {:induction false} CycleNeverInferred(infer: Inference, net: set<Box>, start: Schemas, order: seq<Box>, path: seq<Box>)
    requires Wired(net) && Cycle(net, start, path)
    requires ValidOrder(infer, start, order) && Within(order, net)
    ensures forall i :: 0 <= i < |path| ==> path[i] !in order
  {
    if order != [] {
      var n := |order| - 1;
      CycleNeverInferred(infer, net, start, order[..n], path);
      assert order == order[..n] + [order[n]];
      if order[n] in path {
        var i :| 0 <= i < |path| && path[i] == order[n];
        var p := path[if i + 1 < |path| then i + 1 else 0];
        assert WaitsFor(start, order[n], p);
        var s :| s in order[n].ins && s !in start && s in p.outs;
        AfterStreams(infer, start, order[..n]);
        assert false;
      }
    }
  }

  /** "Cyclic network." is reported exactly when some schema is missing that no box
      produces, or some boxes wait for one another in a ring; no box being rejected. */
  lemma CyclicIffCycle(infer: Inference, net: set<Box>, start: Schemas, order: seq<Box>, outcome: Outcome)
    requires Wired(net)
    requires ScanResult(infer, net, start, order, outcome) && !outcome.Rejected?
    ensures outcome == Cyclic <==> !Fed(net, start) || exists path :: Cycle(net, start, path)
  {
    if outcome == Cyclic {
      if Fed(net, start) {
        var b :| b in net && b !in order;
        var path := CycleOfStuck(infer, net, start, order, b);
      }
    } else {
      AfterStreams(infer, start, order);
      CompleteIsFed(infer, net, start, order);
      if path :| Cycle(net, start, path) {
        CycleNeverInferred(infer, net, start, order, path);
      }
    }
  }

  lemma CompleteIsFed(infer: Inference, net: set<Box>, start: Schemas, order: seq<Box>)
    requires ScanResult(infer, net, start, order, Complete)
    ensures Fed(net, start)
  {
    forall b, s | b in net && s in b.ins && s !in start
      ensures exists p :: p in net && s in p.outs
    {
      var j := AtItsTurn(infer, start, order, b);
      AfterStreams(infer, start, order);
    }
  }

  lemma CycleOfStuck(infer: Inference, net: set<Box>, start: Schemas, order: seq<Box>, b: Box) returns (path: seq<Box>)
    requires Wired(net) && Fed(net, start)
    requires ScanResult(infer, net, start, order, Cyclic)
    requires b in net && b !in order
    ensures Cycle(net, start, path)
  {
    hide *;
    var stuck := set c | c in net && c !in order;
    forall c | c in stuck
      ensures Waits(start, stuck, c)
    {
      StuckWaits(infer, net, start, order, c);
    }
    path := StuckHasCycle(net, start, NextStuck(start, stuck), b);
  }

  lemma StuckWaits(infer: Inference, net: set<Box>, start: Schemas, order: seq<Box>, c: Box)
    requires Wired(net) && Fed(net, start)
    requires ScanResult(infer, net, start, order, Cyclic)
    requires c in net && c !in order
    ensures Waits(start, (set b | b in net && b !in order), c)
  {
    AfterStreams(infer, start, order);
    var m := After(infer, start, order);
    assert !Ready(m, c);
    var s :| s in c.ins && s !in m;
    var p :| p in net && s in p.outs;
    assert WaitsFor(start, c, p);
    assert p in set b | b in net && b !in order;
  }

  // ----- the schemas a scan ends with

  /** The schemas of b's streams are what its kind makes of those of its in streams: each
      out stream that was declared has the same fields, each other one is given its own. */
  ghost predicate WellTyped(infer: Inference, b: Box, start: Schemas, end: Schemas) {
    && Ready(end, b)
    && var typing := infer(b, InSchemas(end, b.ins));
       typing.Typed? && |typing.outs| == |b.outs|
       && forall i :: 0 <= i < |b.outs| ==>
                        && b.outs[i] in end && SameFields(typing.outs[i], end[b.outs[i]])
                        && (b.outs[i] !in start ==> end[b.outs[i]] == typing.outs[i])
  }

  lemma SameIns(m: Schemas, end: Schemas, ins: seq<Stream>)
    requires Extends(m, end) && forall s :: s in ins ==> s in m
    ensures (forall s :: s in ins ==> s in end) && InSchemas(end, ins) == InSchemas(m, ins)
  {
    forall i | 0 <= i < |ins|
      ensures ins[i] in end && end[ins[i]] == m[ins[i]]
    {
      assert ins[i] in ins;
    }
  }

  lemma InferredWellTyped(infer: Inference, net: set<Box>, start: Schemas, order: seq<Box>, b: Box)
    requires Wired(net) && Within(order, net) && ValidOrder(infer, start, order) && b in order
    ensures WellTyped(infer, b, start, After(infer, start, order))
  {
    var end := After(infer, start, order);
    var j := AtItsTurn(infer, start, order, b);
    var m := After(infer, start, order[..j]);
    InferBoxExact(infer, b, m);
    SameIns(m, end, b.ins);
    var typing := infer(b, InSchemas(m, b.ins));
    var r := InferBoxOut(infer, b, m).schemas;
    hide After, ValidOrder, SameFields, InferBoxOut, InSchemas;
    forall i | 0 <= i < |b.outs|
      ensures b.outs[i] in end && SameFields(typing.outs[i], end[b.outs[i]])
      ensures b.outs[i] !in start ==> end[b.outs[i]] == typing.outs[i]
    {
      var s := b.outs[i];
      assert s in b.outs && s in r && end[s] == r[s] == OutSchema(m, b.outs, typing.outs, s);
      OutsUntouched(infer, net, start, order[..j], b, s);
      if s !in start {
        NamedOnce(m, b.outs, typing.outs, i);
      }
    }
  }

  /** The box a scan is rejected at has all its in streams, and its kind makes no schemas of
      them that fit the declared ones of its out streams. */
  lemma RejectedIllTyped(infer: Inference, net: set<Box>, start: Schemas, order: seq<Box>, b: Box)
    requires Wired(net) && ScanResult(infer, net, start, order, Rejected(b))
    ensures var m := After(infer, start, order);
            && Ready(m, b)
            && var typing := infer(b, InSchemas(m, b.ins));
               typing.Typed? && |typing.outs| == |b.outs| ==>
                 exists i :: 0 <= i < |b.outs| && b.outs[i] in start && !SameFields(typing.outs[i], start[b.outs[i]])
  {
    var m := After(infer, start, order);
    InferBoxExact(infer, b, m);
    var typing := infer(b, InSchemas(m, b.ins));
    if typing.Typed? && |typing.outs| == |b.outs| {
      var i :| 0 <= i < |b.outs| && !SameFields(typing.outs[i], OutSchema(m, b.outs, typing.outs, b.outs[i]));
      OutsUntouched(infer, net, start, order, b, b.outs[i]);
      if b.outs[i] !in start {
        NamedOnce(m, b.outs, typing.outs, i);
      }
    }
  }
}
