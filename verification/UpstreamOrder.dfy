/**
  Orders of inference as orders of deployment: what must come first in every complete
  scan, and what a complete scan can put later.
*/
module UpstreamOrder {
  import opened Basics
  import opened Network
  import opened InferenceOrder

  /** The boxes of order that are in list, in the order of order. */
  ghost function OnlyFrom(order: seq<Box>, list: seq<Box>): seq<Box> {
    if order == [] then []
    else
      var b, before := order[|order| - 1], OnlyFrom(order[..|order| - 1], list);
      if b in list then before + [b] else before
  }

  lemma {:induction false} OnlyFromHas(order: seq<Box>, list: seq<Box>, b: Box)
    ensures b in OnlyFrom(order, list) <==> b in order && b in list
  {
    if order != [] {
      var n := |order| - 1;
      OnlyFromHas(order[..n], list, b);
      assert order == order[..n] + [order[n]];
    }
  }

  /** Box i of a node's list stands somewhere in the order, and the boxes before it
      in the list are those of the node before it in the order. */
  lemma {:induction false} OnlyFromAt(order: seq<Box>, list: seq<Box>, i: nat) returns (y: nat)
    requires i < |OnlyFrom(order, list)|
    ensures y < |order| && order[y] == OnlyFrom(order, list)[i]
    ensures OnlyFrom(order, list)[..i] == OnlyFrom(order[..y], list)
  {
    var n := |order| - 1;
    var before := OnlyFrom(order[..n], list);
    if i < |before| {
      y := OnlyFromAt(order[..n], list, i);
      assert order[..n][..y] == order[..y];
      assert OnlyFrom(order, list)[..i] == before[..i];
    } else {
      y := n;
      assert OnlyFrom(order, list)[..i] == before;
    }
  }

  /** In its turn a box reads only streams that started with a schema and outs of
      boxes before it. */
  lemma ReadyFromEarlier(infer: Inference, start: Schemas, order: seq<Box>, y: nat, s: Stream)
    requires ValidOrder(infer, start, order) && y < |order| && s in order[y].ins
    ensures s in start || exists p :: p in order[..y] && s in p.outs
    ensures s in After(infer, start, order)
  {
    ValidPrefix(infer, start, order, y + 1);
    ValidPrefix(infer, start, order, y);
    assert order[..y + 1][..y] == order[..y];
    assert order[..y + 1][y] == order[y];
    AfterStreams(infer, start, order[..y]);
  }

  // ----- what a box waits for

  /** b waits for p, directly or through other boxes. */
  ghost predicate Awaits(net: set<Box>, start: Schemas, b: Box, p: Box) {
    exists path :: Chain(net, start, path) && |path| >= 2 && path[0] == b && path[|path| - 1] == p
  }

  /** In every order what a box waits for comes first. */
  lemma AwaitedIsEarlier(infer: Inference, net: set<Box>, start: Schemas, order: seq<Box>, y: nat, p: Box)
    requires Wired(net) && ValidOrder(infer, start, order) && Within(order, net)
    requires y < |order| && Awaits(net, start, order[y], p)
    ensures p in order[..y]
  {
    var path :| Chain(net, start, path) && |path| >= 2 && path[0] == order[y] && path[|path| - 1] == p;
    ChainIsEarlier(infer, net, start, order, y, path);
  }

  lemma {:induction false} ChainIsEarlier(infer: Inference, net: set<Box>, start: Schemas, order: seq<Box>, y: nat, path: seq<Box>)
    requires Wired(net) && ValidOrder(infer, start, order) && Within(order, net)
    requires y < |order| && Chain(net, start, path) && |path| >= 2 && path[0] == order[y]
    ensures path[|path| - 1] in order[..y]
    decreases |path|
  {
    assert WaitsFor(start, path[0], path[1]);
    var s :| s in path[0].ins && s !in start && s in path[1].outs;
    ReadyFromEarlier(infer, start, order, y, s);
    var q :| q in order[..y] && s in q.outs;
    assert q in order && q == path[1];
    if |path| > 2 {
      var z :| 0 <= z < y && order[..y][z] == q;
      ChainIsEarlier(infer, net, start, order, z, path[1..]);
      assert path[1..][|path| - 2] == path[|path| - 1];
    }
  }

  lemma AwaitsMore(net: set<Box>, start: Schemas, b: Box, c: Box, q: Box)
    requires b in net && q in net && (c == b || Awaits(net, start, b, c)) && WaitsFor(start, c, q)
    ensures Awaits(net, start, b, q)
  {
    var path := [b];
    if c != b {
      path :| Chain(net, start, path) && |path| >= 2 && path[0] == b && path[|path| - 1] == c;
    }
    var longer := path + [q];
    forall i | 0 <= i < |longer| - 1
      ensures WaitsFor(start, longer[i], longer[i + 1])
    {
      assert i < |path| - 1 ==> WaitsFor(start, path[i], path[i + 1]);
    }
    assert Chain(net, start, longer);
  }

  // ----- other complete orders

  /** Each box comes once, and each of its in streams starts with a schema or comes out
      of a box before it. */
  ghost predicate StreamsInTurn(net: set<Box>, start: Schemas, list: seq<Box>) {
    forall k :: 0 <= k < |list| ==> list[k] in net && list[k] !in list[..k] && FedBefore(start, list, k)
  }

  ghost predicate FedBefore(start: Schemas, list: seq<Box>, k: nat)
    requires k < |list|
  {
    forall s :: s in list[k].ins ==> s in start || exists q :: q in list[..k] && s in q.outs
  }

  /** A box whose in streams come from boxes before it can be next: it is inferred as in
      the complete scan. */
  lemma NextInTurn(infer: Inference, net: set<Box>, start: Schemas, order: seq<Box>, before: seq<Box>, b: Box)
    requires Wired(net) && ScanResult(infer, net, start, order, Complete)
    requires ValidOrder(infer, start, before) && Within(before, net) && b in net && b !in before
    requires forall s :: s in b.ins ==> s in start || exists q :: q in before && s in q.outs
    ensures ValidOrder(infer, start, before + [b])
  {
    AfterStreams(infer, start, before);
    SettledContains(infer, net, start, before, order);
    var m', end := After(infer, start, before), After(infer, start, order);
    var j := AtItsTurn(infer, start, order, b);
    var m := After(infer, start, order[..j]);
    hide ValidOrder, Wired, After, Within;
    forall s | s in b.ins
      ensures AgreeOn(m, m', s)
    {
      assert s in m && s in m' && m[s] == end[s] == m'[s];
    }
    SameInference(infer, net, start, b, order[..j], before, m, m');
    OrderStep(infer, start, before, b);
  }

  /** When some scan is complete, that is all it takes for an order to be one. */
  lemma {:induction false} StreamsSuffice(infer: Inference, net: set<Box>, start: Schemas, order: seq<Box>, list: seq<Box>)
    requires Wired(net) && ScanResult(infer, net, start, order, Complete) && StreamsInTurn(net, start, list)
    ensures ValidOrder(infer, start, list) && Within(list, net)
    decreases |list|
  {
    if list != [] {
      var n := |list| - 1;
      TurnPrefix(net, start, list);
      StreamsSuffice(infer, net, start, order, list[..n]);
      assert FedBefore(start, list, n) && list == list[..n] + [list[n]];
      hide ValidOrder, Wired, ScanResult;
      NextInTurn(infer, net, start, order, list[..n], list[n]);
    }
  }

  lemma TurnPrefix(net: set<Box>, start: Schemas, list: seq<Box>)
    requires list != [] && StreamsInTurn(net, start, list)
    ensures StreamsInTurn(net, start, list[..|list| - 1])
  {
    var before := list[..|list| - 1];
    forall k | 0 <= k < |before|
      ensures before[k] in net && before[k] !in before[..k] && FedBefore(start, before, k)
    {
      assert before[k] == list[k] && before[..k] == list[..k] && FedBefore(start, list, k);
    }
  }

  lemma {:induction false} SetAsSeq(s: set<Box>) returns (list: seq<Box>)
    ensures forall b :: b in list <==> b in s
    decreases s
  {
    if s == {} {
      list := [];
    } else {
      var b :| b in s;
      var rest := SetAsSeq(s - {b});
      list := [b] + rest;
    }
  }

  /** An order has a box at one place only. */
  lemma NotBefore(infer: Inference, start: Schemas, order: seq<Box>, y: nat)
    requires ValidOrder(infer, start, order) && y < |order|
    ensures order[y] !in order[..y]
  {
    ValidPrefix(infer, start, order, y + 1);
    assert order[..y + 1][..y] == order[..y] && order[..y + 1][y] == order[y];
  }

  lemma OnceInOrder(infer: Inference, start: Schemas, order: seq<Box>, i: nat, j: nat)
    requires ValidOrder(infer, start, order) && i < |order| && j < |order| && order[i] == order[j]
    ensures i == j
  {
    NotBefore(infer, start, order, i);
    NotBefore(infer, start, order, j);
    EarlierIn(order, i, j);
    EarlierIn(order, j, i);
  }

  lemma EarlierIn(order: seq<Box>, i: nat, j: nat)
    requires i < |order| && j < |order|
    ensures i < j ==> order[i] in order[..j]
  {
    assert i < j ==> order[..j][i] == order[i];
  }

  /** The boxes b waits for, and b. */
  ghost function Ahead(net: set<Box>, start: Schemas, b: Box): set<Box> {
    set c | c in net && (c == b || Awaits(net, start, b, c))
  }

  /** First the boxes of one list, then those of another, each in the order of order. */
  ghost function TwoParts(order: seq<Box>, inA: seq<Box>, inB: seq<Box>): seq<Box> {
    OnlyFrom(order, inA) + OnlyFrom(order, inB)
  }

  lemma PartsInTurn(infer: Inference, net: set<Box>, start: Schemas, order: seq<Box>, b: Box, inA: seq<Box>, inB: seq<Box>)
    requires ValidOrder(infer, start, order) && Within(order, net) && b in net
    requires forall c :: c in inA <==> c in Ahead(net, start, b)
    requires forall c :: c in inB <==> c in net && c !in inA
    ensures StreamsInTurn(net, start, TwoParts(order, inA, inB))
  {
    var a, list := OnlyFrom(order, inA), TwoParts(order, inA, inB);
    forall k | 0 <= k < |list|
      ensures list[k] in net && list[k] !in list[..k] && FedBefore(start, list, k)
    {
      if k < |a| {
        assert list[k] == a[k] && list[..k] == a[..k];
        FirstPartInTurn(infer, net, start, order, b, inA, list, k);
      } else {
        SecondPartInTurn(infer, net, start, order, inA, inB, list, k);
      }
    }
  }

  lemma FirstPartInTurn(infer: Inference, net: set<Box>, start: Schemas, order: seq<Box>, b: Box, inA: seq<Box>,
                        list: seq<Box>, k: nat)
    requires ValidOrder(infer, start, order) && Within(order, net) && b in net
    requires forall c :: c in inA <==> c in Ahead(net, start, b)
    requires k < |OnlyFrom(order, inA)| && k < |list|
    requires list[k] == OnlyFrom(order, inA)[k] && list[..k] == OnlyFrom(order, inA)[..k]
    ensures list[k] in net && list[k] !in list[..k] && FedBefore(start, list, k)
  {
    var y := OnlyFromAt(order, inA, k);
    var c := list[k];
    NotBefore(infer, start, order, y);
    OnlyFromHas(order[..y], inA, c);
    OnlyFromHas(order, inA, c);
    forall s | s in c.ins && s !in start
      ensures exists q :: q in list[..k] && s in q.outs
    {
      ReadyFromEarlier(infer, start, order, y, s);
      var q :| q in order[..y] && s in q.outs;
      assert q in order && WaitsFor(start, c, q);
      AwaitsMore(net, start, b, c, q);
      OnlyFromHas(order[..y], inA, q);
    }
  }

  lemma SecondPartInTurn(infer: Inference, net: set<Box>, start: Schemas, order: seq<Box>, inA: seq<Box>, inB: seq<Box>,
                         list: seq<Box>, k: nat)
    requires ValidOrder(infer, start, order) && Within(order, net) && list == TwoParts(order, inA, inB)
    requires forall c :: c in inB <==> c in net && c !in inA
    requires |OnlyFrom(order, inA)| <= k < |list|
    ensures list[k] in net && list[k] !in list[..k] && FedBefore(start, list, k)
  {
    var a, z := OnlyFrom(order, inA), OnlyFrom(order, inB);
    var i := k - |a|;
    assert list[k] == z[i] && list[..k] == a + z[..i];
    var y := OnlyFromAt(order, inB, i);
    var c := list[k];
    NotBefore(infer, start, order, y);
    OnlyFromHas(order[..y], inB, c);
    OnlyFromHas(order, inB, c);
    OnlyFromHas(order, inA, c);
    forall s | s in c.ins && s !in start
      ensures exists q :: q in list[..k] && s in q.outs
    {
      ReadyFromEarlier(infer, start, order, y, s);
      var q :| q in order[..y] && s in q.outs;
      assert q in order;
      OnlyFromHas(order, inA, q);
      OnlyFromHas(order[..y], inB, q);
      assert q in a || q in z[..i];
    }
  }

  /** A box can come before any box it does not wait for. */
  lemma NotAwaitedLater(infer: Inference, net: set<Box>, start: Schemas, order: seq<Box>, b: Box, p: Box)
    returns (order': seq<Box>, k: nat)
    requires Wired(net) && ScanResult(infer, net, start, order, Complete)
    requires b in net && p in net && !Awaits(net, start, b, p)
    ensures ScanResult(infer, net, start, order', Complete)
    ensures k < |order'| && order'[k] == b && p !in order'[..k]
  {
    var inA := SetAsSeq(Ahead(net, start, b));
    var inB := SetAsSeq(net - Ahead(net, start, b));
    PartsInTurn(infer, net, start, order, b, inA, inB);
    order' := TwoParts(order, inA, inB);
    StreamsSuffice(infer, net, start, order, order');
    forall c | c in net
      ensures c in order'
    {
      OnlyFromHas(order, inA, c);
      OnlyFromHas(order, inB, c);
    }
    k := InFirstPart(order, inA, inB, b);
    NotBefore(infer, start, order', k);
    if p != b && p in order'[..k] {
      OnlyFromHas(order, inA, p);
    }
  }

  lemma InFirstPart(order: seq<Box>, inA: seq<Box>, inB: seq<Box>, b: Box) returns (k: nat)
    requires b in order && b in inA
    ensures var list := TwoParts(order, inA, inB); k < |list| && list[k] == b && list[..k] <= OnlyFrom(order, inA)
  {
    var a, list := OnlyFrom(order, inA), TwoParts(order, inA, inB);
    OnlyFromHas(order, inA, b);
    k :| 0 <= k < |a| && a[k] == b;
    assert list[k] == b && list[..k] == a[..k];
  }
}
