/**
  The order the head takes boxes in: each round starts again at the first node and
  takes the first box, node by node and list by list, that can be inferred.
*/
module HeadOrder {
  import opened Basics
  import opened Network
  import opened InferenceOrder
  import opened UpstreamOrder

  /** The position of the first b in a list, or the length when there is none. */
  ghost function Place(list: seq<Box>, b: Box): nat {
    if list == [] || list[0] == b then 0 else 1 + Place(list[1..], b)
  }

  lemma {:induction false} PlaceAt(list: seq<Box>, i: nat)
    requires Distinct(list) && i < |list|
    ensures Place(list, list[i]) == i
  {
    if i > 0 {
      assert list[1..][i - 1] == list[i];
      PlaceAt(list[1..], i - 1);
    }
  }

  ghost predicate OnSomeList(lists: seq<seq<Box>>, b: Box) {
    exists n :: 0 <= n < |lists| && b in lists[n]
  }

  /** x is on an earlier node than y, or earlier on the same. */
  ghost predicate ListedBefore(lists: seq<seq<Box>>, x: Box, y: Box) {
    exists n, k :: 0 <= n <= k < |lists| && x in lists[n] && y in lists[k] && (n < k || Place(lists[n], x) < Place(lists[k], y))
  }

  /** When box k of the order was taken, no box listed before it could be. */
  ghost predicate TakenFirst(infer: Inference, lists: seq<seq<Box>>, start: Schemas, order: seq<Box>, k: nat)
    requires k < |order|
  {
    forall x :: OnSomeList(lists, x) && x !in order[..k] && Ready(After(infer, start, order[..k]), x) ==>
      !ListedBefore(lists, x, order[k])
  }

  ghost predicate FirstReadyEach(infer: Inference, lists: seq<seq<Box>>, start: Schemas, order: seq<Box>) {
    forall k :: 0 <= k < |order| ==> TakenFirst(infer, lists, start, order, k)
  }

  lemma FirstReadyMore(infer: Inference, lists: seq<seq<Box>>, start: Schemas, order: seq<Box>, b: Box)
    requires FirstReadyEach(infer, lists, start, order)
    requires forall x :: OnSomeList(lists, x) && x !in order && Ready(After(infer, start, order), x) ==> !ListedBefore(lists, x, b)
    ensures FirstReadyEach(infer, lists, start, order + [b])
  {
    hide OnSomeList, ListedBefore, Ready;
    var order' := order + [b];
    forall k | 0 <= k < |order'|
      ensures TakenFirst(infer, lists, start, order', k)
    {
      if k < |order| {
        assert order'[..k] == order[..k] && TakenFirst(infer, lists, start, order, k);
      } else {
        assert order'[..k] == order;
      }
    }
  }

  // ----- what comes up first

  /** c waits for p, or is p. */
  ghost predicate Upstream(net: set<Box>, start: Schemas, c: Box, p: Box) {
    c == p || Awaits(net, start, c, p)
  }

  /** Some box that b waits for, or b, waits for every box upstream of p or is listed
      after it: so p is taken before b. */
  ghost predicate ComesUpFirst(net: set<Box>, lists: seq<seq<Box>>, start: Schemas, b: Box, p: Box) {
    exists y :: Upstream(net, start, b, y) && HeldBack(net, lists, start, y, p)
  }

  ghost predicate HeldBack(net: set<Box>, lists: seq<seq<Box>>, start: Schemas, y: Box, p: Box) {
    forall z :: z in net && Upstream(net, start, p, z) ==> Awaits(net, start, y, z) || ListedBefore(lists, z, y)
  }

  lemma AwaitsFurther(net: set<Box>, start: Schemas, b: Box, p: Box, z: Box)
    requires Awaits(net, start, b, p) && Awaits(net, start, p, z)
    ensures Awaits(net, start, b, z)
  {
    var first :| Chain(net, start, first) && |first| >= 2 && first[0] == b && first[|first| - 1] == p;
    var next :| Chain(net, start, next) && |next| >= 2 && next[0] == p && next[|next| - 1] == z;
    var path := first + next[1..];
    forall i | 0 <= i < |path| - 1
      ensures WaitsFor(start, path[i], path[i + 1])
    {
      if i < |first| - 1 {
        assert WaitsFor(start, first[i], first[i + 1]);
      } else {
        var j := i - |first| + 1;
        assert path[i] == next[j] && path[i + 1] == next[j + 1];
        assert WaitsFor(start, next[j], next[j + 1]);
      }
    }
    assert Chain(net, start, path) && path[|path| - 1] == z;
  }

  /** A box that waits for p comes up after it, however the lists are. */
  lemma AwaitedComesUpFirst(net: set<Box>, lists: seq<seq<Box>>, start: Schemas, b: Box, p: Box)
    requires Awaits(net, start, b, p)
    ensures ComesUpFirst(net, lists, start, b, p)
  {
    forall z | z in net && Upstream(net, start, p, z)
      ensures Awaits(net, start, b, z)
    {
      if z != p {
        AwaitsFurther(net, start, b, p, z);
      }
    }
    assert Upstream(net, start, b, b) && HeldBack(net, lists, start, b, p);
  }

  /** The first box upstream of p from place k on. */
  lemma {:induction false} FirstUpstream(net: set<Box>, start: Schemas, order: seq<Box>, p: Box, k: nat, n: nat) returns (q: nat)
    requires k <= n < |order| && Upstream(net, start, p, order[n])
    ensures k <= q < |order| && Upstream(net, start, p, order[q])
    ensures forall j :: k <= j < q ==> !Upstream(net, start, p, order[j])
    decreases n
  {
    hide Upstream;
    if j :| k <= j < n && Upstream(net, start, p, order[j]) {
      q := FirstUpstream(net, start, order, p, k, j);
    } else {
      q := n;
    }
  }

  /** Nothing upstream of p is left before it: it could have been taken at place k. */
  lemma ReadyAlready(infer: Inference, net: set<Box>, start: Schemas, order: seq<Box>, p: Box, k: nat, q: nat)
    requires Wired(net) && ValidOrder(infer, start, order) && Within(order, net) && p in net
    requires k <= q < |order| && Upstream(net, start, p, order[q])
    requires forall j :: k <= j < q ==> !Upstream(net, start, p, order[j])
    ensures Ready(After(infer, start, order[..k]), order[q])
  {
    ValidPrefix(infer, start, order, k);
    AfterStreams(infer, start, order[..k]);
    var z := order[q];
    forall s | s in z.ins
      ensures s in After(infer, start, order[..k])
    {
      ReadyFromEarlier(infer, start, order, q, s);
      if s !in start {
        var u :| u in order[..q] && s in u.outs;
        var j :| 0 <= j < q && order[..q][j] == u;
        assert order[j] == u && u in order && WaitsFor(start, z, u);
        AwaitsMore(net, start, p, z, u);
        assert j < k && order[..k][j] == u;
      }
    }
  }

  /** In the head's order p is taken before b when it comes up first. */
  lemma SourceTakenFirst(infer: Inference, net: set<Box>, lists: seq<seq<Box>>, start: Schemas, order: seq<Box>, b: Box, p: Box, n: nat)
    requires Wired(net) && ScanResult(infer, net, start, order, Complete) && (forall x :: x in net ==> OnSomeList(lists, x))
    requires FirstReadyEach(infer, lists, start, order)
    requires n < |order| && order[n] == b && p in net && ComesUpFirst(net, lists, start, b, p)
    ensures p in order[..n]
  {
    var y :| Upstream(net, start, b, y) && HeldBack(net, lists, start, y, p);
    var k := n;
    if y != b {
      AwaitedIsEarlier(infer, net, start, order, n, y);
      k :| 0 <= k < n && order[..n][k] == y;
    }
    assert order[k] == y && k <= n;
    if p !in order[..k] {
      var i := LaterIn(order, k, p);
      var q := FirstUpstream(net, start, order, p, k, i);
      ReadyAlready(infer, net, start, order, p, k, q);
      var z := order[q];
      assert z in order && z in net;
      TakenByThen(infer, net, lists, start, order, k, z);
      NotTakenYet(infer, start, order, k, q);
    }
    EarlierStays(order, k, n, p);
  }

  /** A ready box that y waits for or that is listed before y has been taken before y. */
  lemma TakenByThen(infer: Inference, net: set<Box>, lists: seq<seq<Box>>, start: Schemas, order: seq<Box>, k: nat, z: Box)
    requires Wired(net) && ValidOrder(infer, start, order) && Within(order, net) && OnSomeList(lists, z) && k < |order|
    requires FirstReadyEach(infer, lists, start, order) && Ready(After(infer, start, order[..k]), z)
    requires Awaits(net, start, order[k], z) || ListedBefore(lists, z, order[k])
    ensures z in order[..k]
  {
    if Awaits(net, start, order[k], z) {
      AwaitedIsEarlier(infer, net, start, order, k, z);
    } else {
      assert TakenFirst(infer, lists, start, order, k);
    }
  }

  lemma LaterIn(order: seq<Box>, k: nat, p: Box) returns (i: nat)
    requires k <= |order| && p in order && p !in order[..k]
    ensures k <= i < |order| && order[i] == p
  {
    assert forall j :: 0 <= j < k ==> order[..k][j] == order[j];
    i :| k <= i < |order| && order[i] == p;
  }

  lemma EarlierStays(order: seq<Box>, k: nat, n: nat, p: Box)
    requires k <= n <= |order|
    ensures p in order[..k] ==> p in order[..n]
  {
    assert order[..k] == order[..n][..k];
  }

  lemma NotTakenYet(infer: Inference, start: Schemas, order: seq<Box>, k: nat, q: nat)
    requires ValidOrder(infer, start, order) && k <= q < |order|
    ensures order[q] !in order[..k]
  {
    NotBefore(infer, start, order, q);
    EarlierStays(order, k, q, order[q]);
  }

  // ----- there is one such order

  /** No box is on two lists, or twice on one. */
  ghost predicate Once(lists: seq<seq<Box>>) {
    && (forall n :: 0 <= n < |lists| ==> Distinct(lists[n]))
    && forall n, k, b :: 0 <= n < |lists| && 0 <= k < |lists| && b in lists[n] && b in lists[k] ==> n == k
  }

  lemma OneIsBefore(lists: seq<seq<Box>>, x: Box, y: Box)
    requires Once(lists) && OnSomeList(lists, x) && OnSomeList(lists, y) && x != y
    ensures ListedBefore(lists, x, y) || ListedBefore(lists, y, x)
  {
    var n :| 0 <= n < |lists| && x in lists[n];
    var k :| 0 <= k < |lists| && y in lists[k];
    if n == k {
      var i :| 0 <= i < |lists[n]| && lists[n][i] == x;
      var j :| 0 <= j < |lists[n]| && lists[n][j] == y;
      PlaceAt(lists[n], i);
      PlaceAt(lists[n], j);
    }
  }

  lemma {:induction false} SameUpTo(infer: Inference, net: set<Box>, lists: seq<seq<Box>>, start: Schemas, a: seq<Box>, b: seq<Box>, n: nat)
    requires Once(lists) && forall x :: x in net ==> OnSomeList(lists, x)
    requires ValidOrder(infer, start, a) && Within(a, net) && FirstReadyEach(infer, lists, start, a)
    requires ValidOrder(infer, start, b) && Within(b, net) && FirstReadyEach(infer, lists, start, b)
    requires n <= |a| && n <= |b|
    ensures a[..n] == b[..n]
  {
    if n > 0 {
      var k := n - 1;
      SameUpTo(infer, net, lists, start, a, b, k);
      hide ValidOrder, FirstReadyEach, Once;
      SameNext(infer, net, lists, start, a, b, k);
      OneFurther(a, b, k);
    }
  }

  lemma OneFurther(a: seq<Box>, b: seq<Box>, k: nat)
    requires k < |a| && k < |b| && a[..k] == b[..k] && a[k] == b[k]
    ensures a[..k + 1] == b[..k + 1]
  {
    assert a[..k + 1] == a[..k] + [a[k]] && b[..k + 1] == b[..k] + [b[k]];
  }

  lemma SameNext(infer: Inference, net: set<Box>, lists: seq<seq<Box>>, start: Schemas, a: seq<Box>, b: seq<Box>, k: nat)
    requires Once(lists) && forall x :: x in net ==> OnSomeList(lists, x)
    requires ValidOrder(infer, start, a) && Within(a, net) && FirstReadyEach(infer, lists, start, a)
    requires ValidOrder(infer, start, b) && Within(b, net) && FirstReadyEach(infer, lists, start, b)
    requires k < |a| && k < |b| && a[..k] == b[..k]
    ensures a[k] == b[k]
  {
    assert TakenFirst(infer, lists, start, a, k) && TakenFirst(infer, lists, start, b, k);
    assert a[k] in a && b[k] in b;
    InItsTurn(infer, start, a, k);
    InItsTurn(infer, start, b, k);
    hide ValidOrder, FirstReadyEach, Once, OnSomeList, ListedBefore, Ready;
    if a[k] != b[k] {
      OneIsBefore(lists, a[k], b[k]);
    }
  }

  lemma InItsTurn(infer: Inference, start: Schemas, order: seq<Box>, k: nat)
    requires ValidOrder(infer, start, order) && k < |order|
    ensures Ready(After(infer, start, order[..k]), order[k]) && order[k] !in order[..k]
  {
    ValidPrefix(infer, start, order, k + 1);
    assert order[..k + 1][..k] == order[..k] && order[..k + 1][k] == order[k];
  }

  /** The head's order is determined by the lists. */
  lemma OneHeadOrder(infer: Inference, net: set<Box>, lists: seq<seq<Box>>, start: Schemas, a: seq<Box>, b: seq<Box>)
    requires Once(lists) && forall x :: x in net ==> OnSomeList(lists, x)
    requires ScanResult(infer, net, start, a, Complete) && FirstReadyEach(infer, lists, start, a)
    requires ScanResult(infer, net, start, b, Complete) && FirstReadyEach(infer, lists, start, b)
    ensures a == b
  {
    var n := if |a| < |b| then |a| else |b|;
    SameUpTo(infer, net, lists, start, a, b, n);
    assert a[..|a|] == a && b[..|b|] == b;
    if |a| <= |b| {
      NoLonger(infer, net, start, a, b);
    } else {
      NoLonger(infer, net, start, b, a);
    }
  }

  /** No order goes on after a complete one. */
  lemma NoLonger(infer: Inference, net: set<Box>, start: Schemas, a: seq<Box>, b: seq<Box>)
    requires ScanResult(infer, net, start, a, Complete) && ValidOrder(infer, start, b) && Within(b, net)
    requires |a| <= |b| && b[..|a|] == a
    ensures |a| == |b|
  {
    if |a| < |b| {
      var x := b[|a|];
      assert x in b;
      InItsTurn(infer, start, b, |a|);
    }
  }
}
