/**
  The head's deployer: infer schemas and list boxes in upstream order, then send
  every pending node its inputs, boxes and subscriptions.
*/
module DeployDiagram {
  import opened Basics
  import opened Network
  import opened InferenceOrder
  import opened UpstreamOrder
  import opened HeadOrder
  import opened Deployment
  import opened DeploymentReach

  /** One node of the pending map: boxes to infer, boxes in deployment order, and
      the subscriptions to streams that come out of its boxes. */
  datatype PendingNode = PendingNode(endpoint: Node, boxInfer: seq<Box>, boxDeploy: seq<Box>, output: seq<Subscription>)

  // ----- pending lists

  ghost function PendingBoxes(pending: seq<PendingNode>): set<Box> {
    set n, b | 0 <= n < |pending| && b in pending[n].boxInfer :: b
  }

  ghost function PendingCount(pending: seq<PendingNode>): nat {
    if pending == [] then 0 else PendingCount(pending[..|pending| - 1]) + |pending[|pending| - 1].boxInfer|
  }

  /** No box is listed twice, on one node or on two. */
  ghost predicate ListedOnce(pending: seq<PendingNode>) {
    && (forall n :: 0 <= n < |pending| ==> Distinct(pending[n].boxInfer))
    && forall n, k, b :: 0 <= n < |pending| && 0 <= k < |pending| && b in pending[n].boxInfer && b in pending[k].boxInfer
                         ==> n == k
  }

  function Without<T>(s: seq<T>, i: nat): seq<T>
    requires i < |s|
  {
    s[..i] + s[i + 1..]
  }

  /** Box i of node n moves from the boxes to infer to the boxes to deploy. */
  function Move(pending: seq<PendingNode>, n: nat, i: nat): (r: seq<PendingNode>)
    requires n < |pending| && i < |pending[n].boxInfer|
  {
    var p := pending[n];
    pending[n := p.(boxDeploy := p.boxDeploy + [p.boxInfer[i]], boxInfer := Without(p.boxInfer, i))]
  }

  /** What is left of a list is in its order. */
  ghost predicate InListOrder(list: seq<Box>, left: seq<Box>) {
    forall i, j :: 0 <= i < j < |left| ==> Place(list, left[i]) < Place(list, left[j])
  }

  /** What one node's lists are once the boxes of order have been moved. */
  ghost predicate NodeMoved(start: PendingNode, order: seq<Box>, p: PendingNode) {
    && p.endpoint == start.endpoint && p.output == start.output
    && p.boxDeploy == start.boxDeploy + OnlyFrom(order, start.boxInfer)
    && Distinct(p.boxInfer) && InListOrder(start.boxInfer, p.boxInfer)
    && forall b :: b in p.boxInfer <==> b in start.boxInfer && b !in order
  }

  ghost predicate Moved(start: seq<PendingNode>, order: seq<Box>, pending: seq<PendingNode>) {
    && |pending| == |start|
    && forall n :: 0 <= n < |start| ==> NodeMoved(start[n], order, pending[n])
  }

  lemma WithoutHas<T>(s: seq<T>, i: nat)
    requires Distinct(s) && i < |s|
    ensures Distinct(Without(s, i))
    ensures forall x :: x in Without(s, i) <==> x in s && x != s[i]
  {
    var w := Without(s, i);
    forall x | x in s && x != s[i]
      ensures x in w
    {
      var k :| 0 <= k < |s| && s[k] == x;
      assert w[if k < i then k else k - 1] == x;
    }
  }

  lemma MoveCount(pending: seq<PendingNode>, n: nat, i: nat)
    requires n < |pending| && i < |pending[n].boxInfer|
    ensures PendingCount(Move(pending, n, i)) == PendingCount(pending) - 1
    decreases |pending|
  {
    var k := |pending| - 1;
    var moved := Move(pending, n, i);
    if n == k {
      assert moved[..k] == pending[..k];
    } else {
      MoveCount(pending[..k], n, i);
      assert moved[..k] == Move(pending[..k], n, i);
    }
  }

  lemma WithoutInOrder(list: seq<Box>, left: seq<Box>, i: nat)
    requires i < |left| && InListOrder(list, left)
    ensures InListOrder(list, Without(left, i))
  {
    hide Place;
    var w := Without(left, i);
    assert forall j :: 0 <= j < |w| ==> w[j] == left[if j < i then j else j + 1];
  }

  lemma NodeMoves(start: PendingNode, order: seq<Box>, p: PendingNode, i: nat)
    requires NodeMoved(start, order, p) && i < |p.boxInfer|
    ensures NodeMoved(start, order + [p.boxInfer[i]],
                      p.(boxDeploy := p.boxDeploy + [p.boxInfer[i]], boxInfer := Without(p.boxInfer, i)))
  {
    WithoutHas(p.boxInfer, i);
    WithoutInOrder(start.boxInfer, p.boxInfer, i);
    hide Place, InListOrder;
    var order' := order + [p.boxInfer[i]];
    assert order'[..|order'| - 1] == order;
  }

  lemma NodeStays(start: PendingNode, order: seq<Box>, p: PendingNode, b: Box)
    requires NodeMoved(start, order, p) && b !in start.boxInfer
    ensures NodeMoved(start, order + [b], p)
  {
    var order' := order + [b];
    assert order'[..|order'| - 1] == order;
  }

  lemma MoveMoves(start: seq<PendingNode>, order: seq<Box>, pending: seq<PendingNode>, n: nat, i: nat)
    requires ListedOnce(start) && Moved(start, order, pending)
    requires n < |pending| && i < |pending[n].boxInfer|
    ensures Moved(start, order + [pending[n].boxInfer[i]], Move(pending, n, i))
  {
    var b := pending[n].boxInfer[i];
    assert NodeMoved(start[n], order, pending[n]);
    hide NodeMoved;
    forall k | 0 <= k < |start|
      ensures NodeMoved(start[k], order + [b], Move(pending, n, i)[k])
    {
      assert NodeMoved(start[k], order, pending[k]);
      if k == n {
        NodeMoves(start[k], order, pending[k], i);
      } else {
        NodeStays(start[k], order, pending[k], b);
      }
    }
  }

  lemma WholeInOrder(list: seq<Box>)
    requires Distinct(list)
    ensures InListOrder(list, list)
  {
    forall i | 0 <= i < |list|
      ensures Place(list, list[i]) == i
    {
      PlaceAt(list, i);
    }
  }

  lemma NothingMoved(pending: seq<PendingNode>)
    requires ListedOnce(pending)
    ensures Moved(pending, [], pending)
  {
    forall n | 0 <= n < |pending|
      ensures NodeMoved(pending[n], [], pending[n])
    {
      WholeInOrder(pending[n].boxInfer);
      assert pending[n].boxDeploy + [] == pending[n].boxDeploy;
    }
  }

  function Lists(pending: seq<PendingNode>): (r: seq<seq<Box>>)
    ensures |r| == |pending| && forall n :: 0 <= n < |r| ==> r[n] == pending[n].boxInfer
  {
    seq(|pending|, n requires 0 <= n < |pending| => pending[n].boxInfer)
  }

  lemma AllListed(pending: seq<PendingNode>)
    ensures forall b :: b in PendingBoxes(pending) <==> OnSomeList(Lists(pending), b)
    ensures ListedOnce(pending) ==> Once(Lists(pending))
  {
    forall b | OnSomeList(Lists(pending), b)
      ensures b in PendingBoxes(pending)
    {
      var n :| 0 <= n < |Lists(pending)| && b in Lists(pending)[n];
      assert b in pending[n].boxInfer;
    }
    forall b | b in PendingBoxes(pending)
      ensures OnSomeList(Lists(pending), b)
    {
      var n :| 0 <= n < |pending| && b in pending[n].boxInfer;
      assert b in Lists(pending)[n];
    }
  }

  /** No box before place (n, i) of the lists is ready. */
  ghost predicate NoneReadyBefore(pending: seq<PendingNode>, m: Schemas, n: nat, i: nat) {
    forall k, j :: 0 <= k < |pending| && 0 <= j < |pending[k].boxInfer| && (k < n || (k == n && j < i)) ==>
      !Ready(m, pending[k].boxInfer[j])
  }

  /** The first ready box of what is left is first among all listed boxes not yet taken. */
  lemma FirstLeft(start: seq<PendingNode>, order: seq<Box>, pending: seq<PendingNode>, m: Schemas, n: nat, i: nat, x: Box)
    requires ListedOnce(start) && Moved(start, order, pending)
    requires n < |pending| && i < |pending[n].boxInfer| && NoneReadyBefore(pending, m, n, i)
    requires OnSomeList(Lists(start), x) && x !in order && Ready(m, x)
    ensures !ListedBefore(Lists(start), x, pending[n].boxInfer[i])
  {
    var b := pending[n].boxInfer[i];
    AllListed(start);
    var k, j := StillListed(start, order, pending, x);
    assert NodeMoved(start[n], order, pending[n]) && NodeMoved(start[k], order, pending[k]);
    assert b in pending[n].boxInfer && x in pending[k].boxInfer;
    assert b in start[n].boxInfer && x in start[k].boxInfer;
    hide Ready, NodeMoved, Moved;
    forall n', k' | 0 <= n' <= k' < |start| && x in Lists(start)[n'] && b in Lists(start)[k']
      ensures n' == k' && Place(Lists(start)[n'], x) >= Place(Lists(start)[k'], b)
    {
      assert n' == k && k' == n;
    }
  }

  /** A box still listed is one of those that started pending and not yet moved. */
  lemma StillPending(start: seq<PendingNode>, order: seq<Box>, pending: seq<PendingNode>, n: nat, i: nat)
    requires Moved(start, order, pending)
    requires n < |pending| && i < |pending[n].boxInfer|
    ensures pending[n].boxInfer[i] in PendingBoxes(start) && pending[n].boxInfer[i] !in order
  {
    assert NodeMoved(start[n], order, pending[n]);
    assert pending[n].boxInfer[i] in pending[n].boxInfer && pending[n].boxInfer[i] in start[n].boxInfer;
  }

  /** A box that started pending and has not moved is still listed. */
  lemma StillListed(start: seq<PendingNode>, order: seq<Box>, pending: seq<PendingNode>, b: Box) returns (n: nat, i: nat)
    requires Moved(start, order, pending)
    requires b in PendingBoxes(start) && b !in order
    ensures n < |pending| && i < |pending[n].boxInfer| && pending[n].boxInfer[i] == b
  {
    n :| 0 <= n < |start| && b in start[n].boxInfer;
    assert NodeMoved(start[n], order, pending[n]);
    i :| 0 <= i < |pending[n].boxInfer| && pending[n].boxInfer[i] == b;
  }

  // ----- scanning

  /** What one round over the pending lists finds. */
  datatype Round = AllDone | Stuck | Inferred(n: nat, i: nat) | Refused(n: nat, i: nat)

  ghost predicate NoneReady(pending: seq<PendingNode>, m: Schemas) {
    forall n, i :: 0 <= n < |pending| && 0 <= i < |pending[n].boxInfer| ==> !Ready(m, pending[n].boxInfer[i])
  }

  ghost predicate At(pending: seq<PendingNode>, n: nat, i: nat) {
    n < |pending| && i < |pending[n].boxInfer|
  }

  lemma DoneEnds(start: seq<PendingNode>, order: seq<Box>, pending: seq<PendingNode>)
    requires Moved(start, order, pending)
    requires forall n :: 0 <= n < |pending| ==> pending[n].boxInfer == []
    ensures forall b :: b in PendingBoxes(start) ==> b in order
  {
    forall b | b in PendingBoxes(start)
      ensures b in order
    {
      if b !in order {
        var n, i := StillListed(start, order, pending, b);
      }
    }
  }

  lemma StuckEnds(infer: Inference, start: seq<PendingNode>, m0: Schemas, order: seq<Box>, pending: seq<PendingNode>)
    requires ValidOrder(infer, m0, order) && Within(order, PendingBoxes(start))
    requires Moved(start, order, pending)
    requires NoneReady(pending, After(infer, m0, order)) && exists n, i :: At(pending, n, i)
    ensures ScanResult(infer, PendingBoxes(start), m0, order, Cyclic)
  {
    var n, i :| At(pending, n, i);
    StillPending(start, order, pending, n, i);
    forall b | b in PendingBoxes(start) && b !in order
      ensures !Ready(After(infer, m0, order), b)
    {
      var k, j := StillListed(start, order, pending, b);
    }
  }

  // ----- from the scan to the plans

  /** The streams published at a node, in the order they are walked. */
  function PublishedAt(publisher: map<Node, seq<Stream>>, node: Node): seq<Stream> {
    if node in publisher then publisher[node] else []
  }

  function PlanOf(publisher: map<Node, seq<Stream>>, p: PendingNode): Plan {
    Plan(p.endpoint, PublishedAt(publisher, p.endpoint), p.boxDeploy, p.output)
  }

  function Plans(publisher: map<Node, seq<Stream>>, pending: seq<PendingNode>): (r: seq<Plan>)
    ensures |r| == |pending| && forall n :: 0 <= n < |r| ==> r[n] == PlanOf(publisher, pending[n])
  {
    seq(|pending|, n requires 0 <= n < |pending| => PlanOf(publisher, pending[n]))
  }

  /** The network as located: every box is listed on the node it is assigned to, a
      node has one entry, source gives the box each stream comes out of, and input
      streams have schemas and are published where they are read. */
  ghost predicate Located(pending: seq<PendingNode>, publisher: map<Node, seq<Stream>>, source: Sources, m: Schemas) {
    && ListedOnce(pending)
    && Wired(PendingBoxes(pending))
    && (forall n, k :: 0 <= n < k < |pending| ==> pending[n].endpoint != pending[k].endpoint)
    && (forall n :: 0 <= n < |pending| ==> pending[n].boxDeploy == [])
    && (forall n, b :: 0 <= n < |pending| && b in pending[n].boxInfer ==> b.node == pending[n].endpoint)
    && (forall s :: s in source ==> source[s] in PendingBoxes(pending) && s in source[s].outs)
    && (forall b, s :: b in PendingBoxes(pending) && s in b.outs ==> s in source)
    && (forall n, s :: 0 <= n < |pending| && s in PublishedAt(publisher, pending[n].endpoint) ==> s in m)
    && forall n, b, s :: 0 <= n < |pending| && b in pending[n].boxInfer && s in b.ins && s !in source ==>
                           s in PublishedAt(publisher, pending[n].endpoint)
  }

  /** No node is subscribed, before its turn, to a stream that one of its boxes reads. */
  ghost predicate SubscribedInTurn(pending: seq<PendingNode>) {
    forall n, k, o, b :: 0 <= n < k < |pending| && o in pending[n].output && b in pending[k].boxInfer && o.stream in b.ins ==>
                           o.endpoint != pending[k].endpoint
  }

  /** b reads s on the node of the box it comes from, where it is not published. */
  ghost predicate ReadsLocally(p: PendingNode, publisher: map<Node, seq<Stream>>, source: Sources, b: Box, s: Stream) {
    && b in p.boxInfer && s in b.ins
    && s in source && source[s].node == p.endpoint && s !in PublishedAt(publisher, p.endpoint)
  }

  /** A box that reads a stream of another box of its node waits for that box, if need
      be through others: the stream, or one on the way, starts without a schema. */
  ghost predicate ReadersWait(pending: seq<PendingNode>, publisher: map<Node, seq<Stream>>, source: Sources, m: Schemas) {
    forall n, b, s :: 0 <= n < |pending| && ReadsLocally(pending[n], publisher, source, b, s) ==>
                        Awaits(PendingBoxes(pending), m, b, source[s])
  }

  /** As they do when no stream read locally starts with a schema. */
  lemma UndeclaredReadersWait(pending: seq<PendingNode>, publisher: map<Node, seq<Stream>>, source: Sources, m: Schemas)
    requires Located(pending, publisher, source, m)
    requires forall n, b, s :: 0 <= n < |pending| && ReadsLocally(pending[n], publisher, source, b, s) ==> s !in m
    ensures ReadersWait(pending, publisher, source, m)
  {
    forall n, b, s | 0 <= n < |pending| && ReadsLocally(pending[n], publisher, source, b, s)
      ensures Awaits(PendingBoxes(pending), m, b, source[s])
    {
      assert b in PendingBoxes(pending) && WaitsFor(m, b, source[s]);
      assert Chain(PendingBoxes(pending), m, [b, source[s]]);
    }
  }

  /** The plan of a node after a scan that inferred the boxes of order. */
  ghost function PlanIn(publisher: map<Node, seq<Stream>>, p: PendingNode, order: seq<Box>): Plan {
    Plan(p.endpoint, PublishedAt(publisher, p.endpoint), OnlyFrom(order, p.boxInfer), p.output)
  }

  /** Each box of p's node in the order comes after the boxes it reads from there. */
  ghost predicate ReadersLater(p: PendingNode, publisher: map<Node, seq<Stream>>, source: Sources, order: seq<Box>) {
    forall y, s :: 0 <= y < |order| && ReadsLocally(p, publisher, source, order[y], s) ==> source[s] in order[..y]
  }

  /** After a complete scan the plans have their schemas, and are ordered when readers
      come later. */
  lemma PlansFromOrder(infer: Inference, start: seq<PendingNode>, publisher: map<Node, seq<Stream>>, source: Sources,
                       m: Schemas, order: seq<Box>, n: nat)
    requires Located(start, publisher, source, m)
    requires ScanResult(infer, PendingBoxes(start), m, order, Complete) && n < |start|
    ensures HasSchemas(PlanIn(publisher, start[n], order), source, After(infer, m, order))
    ensures ReadersLater(start[n], publisher, source, order) ==> Ordered(PlanIn(publisher, start[n], order), source)
  {
    var list, boxes := start[n].boxInfer, OnlyFrom(order, start[n].boxInfer);
    var end := After(infer, m, order);
    AfterStreams(infer, m, order);
    forall b | b in boxes
      ensures b in order && b in list
    {
      OnlyFromHas(order, list, b);
    }
    forall i, s | 0 <= i < |boxes| && s in boxes[i].ins
      ensures s in end
      ensures ReadersLater(start[n], publisher, source, order) && !Remote(s, source, start[n].endpoint) ==>
                s in PublishedAt(publisher, start[n].endpoint) || exists j :: 0 <= j < i && s in boxes[j].outs
    {
      var y := OnlyFromAt(order, list, i);
      ReadyFromEarlier(infer, m, order, y, s);
      if ReadersLater(start[n], publisher, source, order) {
        if ReadsLocally(start[n], publisher, source, boxes[i], s) {
          var p := source[s];
          assert p in order[..y];
          ListedHere(start, publisher, source, m, n, p);
          OnlyFromHas(order[..y], list, p);
          assert p in boxes[..i];
        }
      }
    }
  }

  /** A complete scan turns a located network into ordered plans. */
  lemma PlansOrdered(infer: Inference, start: seq<PendingNode>, publisher: map<Node, seq<Stream>>, source: Sources,
                     m: Schemas, order: seq<Box>, n: nat)
    requires Located(start, publisher, source, m) && ReadersWait(start, publisher, source, m)
    requires ScanResult(infer, PendingBoxes(start), m, order, Complete) && n < |start|
    ensures HasSchemas(PlanIn(publisher, start[n], order), source, After(infer, m, order))
    ensures Ordered(PlanIn(publisher, start[n], order), source)
  {
    PlansFromOrder(infer, start, publisher, source, m, order, n);
    forall y, s | 0 <= y < |order| && ReadsLocally(start[n], publisher, source, order[y], s)
      ensures source[s] in order[..y]
    {
      AwaitedIsEarlier(infer, PendingBoxes(start), m, order, y, source[s]);
    }
  }

  // ----- the head's own order

  /** In the order the head takes the boxes every plan is ordered. */
  ghost predicate HeadListsInOrder(infer: Inference, start: seq<PendingNode>, publisher: map<Node, seq<Stream>>, source: Sources,
                                   m: Schemas) {
    forall order, n :: 0 <= n < |start| && FirstReadyEach(infer, Lists(start), m, order)
                       && ScanResult(infer, PendingBoxes(start), m, order, Complete) ==>
                         Ordered(PlanIn(publisher, start[n], order), source)
  }

  /** Where a box reads a stream of its own node, the box it comes from comes up first. */
  ghost predicate SourcesFirst(start: seq<PendingNode>, publisher: map<Node, seq<Stream>>, source: Sources, m: Schemas) {
    forall n, b, s :: 0 <= n < |start| && ReadsLocally(start[n], publisher, source, b, s) ==>
                        ComesUpFirst(PendingBoxes(start), Lists(start), m, b, source[s])
  }

  lemma ReadersWaitForFirst(start: seq<PendingNode>, publisher: map<Node, seq<Stream>>, source: Sources, m: Schemas)
    requires ReadersWait(start, publisher, source, m)
    ensures SourcesFirst(start, publisher, source, m)
  {
    forall n, b, s | 0 <= n < |start| && ReadsLocally(start[n], publisher, source, b, s)
      ensures ComesUpFirst(PendingBoxes(start), Lists(start), m, b, source[s])
    {
      AwaitedComesUpFirst(PendingBoxes(start), Lists(start), m, b, source[s]);
    }
  }

  lemma SourcesFirstListInOrder(infer: Inference, start: seq<PendingNode>, publisher: map<Node, seq<Stream>>, source: Sources,
                                m: Schemas)
    requires Located(start, publisher, source, m) && SourcesFirst(start, publisher, source, m)
    ensures HeadListsInOrder(infer, start, publisher, source, m)
  {
    AllListed(start);
    forall order, n | 0 <= n < |start| && FirstReadyEach(infer, Lists(start), m, order)
                      && ScanResult(infer, PendingBoxes(start), m, order, Complete)
      ensures Ordered(PlanIn(publisher, start[n], order), source)
    {
      forall y, s | 0 <= y < |order| && ReadsLocally(start[n], publisher, source, order[y], s)
        ensures source[s] in order[..y]
      {
        SourceTakenFirst(infer, PendingBoxes(start), Lists(start), m, order, order[y], source[s], y);
      }
      PlansFromOrder(infer, start, publisher, source, m, order, n);
    }
  }

  /** There is one such order, so its plans decide. */
  lemma HeadListsIff(infer: Inference, start: seq<PendingNode>, publisher: map<Node, seq<Stream>>, source: Sources,
                     m: Schemas, order: seq<Box>)
    requires ListedOnce(start) && FirstReadyEach(infer, Lists(start), m, order)
    requires ScanResult(infer, PendingBoxes(start), m, order, Complete)
    ensures HeadListsInOrder(infer, start, publisher, source, m) <==>
            forall n :: 0 <= n < |start| ==> Ordered(PlanIn(publisher, start[n], order), source)
  {
    AllListed(start);
    forall order' | FirstReadyEach(infer, Lists(start), m, order') && ScanResult(infer, PendingBoxes(start), m, order', Complete)
      ensures order' == order
    {
      OneHeadOrder(infer, PendingBoxes(start), Lists(start), m, order, order');
    }
    hide FirstReadyEach, Ordered;
  }

  /** When the reader does not wait, some complete scan lists it before its source. */
  lemma ReaderListedFirst(infer: Inference, start: seq<PendingNode>, publisher: map<Node, seq<Stream>>, source: Sources,
                          m: Schemas, order: seq<Box>, n: nat, b: Box, s: Stream) returns (order': seq<Box>)
    requires Located(start, publisher, source, m) && n < |start| && ReadsLocally(start[n], publisher, source, b, s)
    requires ScanResult(infer, PendingBoxes(start), m, order, Complete)
    requires !Awaits(PendingBoxes(start), m, b, source[s])
    ensures ScanResult(infer, PendingBoxes(start), m, order', Complete)
    ensures !Ordered(PlanIn(publisher, start[n], order'), source)
  {
    var p := source[s];
    var k;
    order', k := NotAwaitedLater(infer, PendingBoxes(start), m, order, b, p);
    var boxes := OnlyFrom(order', start[n].boxInfer);
    OnlyFromHas(order', start[n].boxInfer, b);
    var i :| 0 <= i < |boxes| && boxes[i] == b;
    var y := OnlyFromAt(order', start[n].boxInfer, i);
    OnceInOrder(infer, m, order', y, k);
    forall j | 0 <= j < i
      ensures s !in boxes[j].outs
    {
      OnlyFromHas(order'[..y], start[n].boxInfer, boxes[..i][j]);
      assert boxes[j] in order'[..k] && boxes[j] in PendingBoxes(start);
    }
  }

  /** Every complete scan gives ordered plans exactly when each box that reads a stream
      of its own node waits for the box it comes from. */
  lemma OrderedIffReadersWait(infer: Inference, start: seq<PendingNode>, publisher: map<Node, seq<Stream>>, source: Sources,
                              m: Schemas, order: seq<Box>)
    requires Located(start, publisher, source, m) && ScanResult(infer, PendingBoxes(start), m, order, Complete)
    ensures (forall order', n :: ScanResult(infer, PendingBoxes(start), m, order', Complete) && 0 <= n < |start| ==>
                                   Ordered(PlanIn(publisher, start[n], order'), source))
            <==> ReadersWait(start, publisher, source, m)
  {
    if ReadersWait(start, publisher, source, m) {
      forall order', n | ScanResult(infer, PendingBoxes(start), m, order', Complete) && 0 <= n < |start|
        ensures Ordered(PlanIn(publisher, start[n], order'), source)
      {
        PlansOrdered(infer, start, publisher, source, m, order', n);
      }
    } else {
      var n, b, s :| 0 <= n < |start| && ReadsLocally(start[n], publisher, source, b, s)
                     && !Awaits(PendingBoxes(start), m, b, source[s]);
      var order' := ReaderListedFirst(infer, start, publisher, source, m, order, n, b, s);
    }
  }

  lemma ListedHere(start: seq<PendingNode>, publisher: map<Node, seq<Stream>>, source: Sources, m: Schemas, n: nat, p: Box)
    requires Located(start, publisher, source, m) && n < |start|
    requires p in PendingBoxes(start) && p.node == start[n].endpoint
    ensures p in start[n].boxInfer
  {
    var k :| 0 <= k < |start| && p in start[k].boxInfer;
    assert start[k].endpoint == start[n].endpoint;
  }

  lemma PlansMoved(start: seq<PendingNode>, publisher: map<Node, seq<Stream>>, order: seq<Box>, pending: seq<PendingNode>)
    requires Moved(start, order, pending) && forall n :: 0 <= n < |start| ==> start[n].boxDeploy == []
    ensures forall n :: 0 <= n < |start| ==> PlanOf(publisher, pending[n]) == PlanIn(publisher, start[n], order)
  {
    forall n | 0 <= n < |start|
      ensures PlanOf(publisher, pending[n]) == PlanIn(publisher, start[n], order)
    {
      assert NodeMoved(start[n], order, pending[n]);
      assert [] + OnlyFrom(order, start[n].boxInfer) == OnlyFrom(order, start[n].boxInfer);
    }
  }

  lemma PlansApart(start: seq<PendingNode>, publisher: map<Node, seq<Stream>>, order: seq<Box>, pending: seq<PendingNode>)
    requires SubscribedInTurn(start) && Moved(start, order, pending) && forall n :: 0 <= n < |start| ==> start[n].boxDeploy == []
    ensures NoneHidden(Plans(publisher, pending))
  {
    PlansMoved(start, publisher, order, pending);
    var plans := Plans(publisher, pending);
    forall i, j | 0 <= i < j < |plans|
      ensures Apart(plans[i], plans[j])
    {
      forall o, b | o in plans[i].output && b in plans[j].boxes && o.stream in b.ins
        ensures o.endpoint != plans[j].node
      {
        OnlyFromHas(order, start[j].boxInfer, b);
      }
    }
  }

  lemma AllPlanned(infer: Inference, start: seq<PendingNode>, publisher: map<Node, seq<Stream>>, source: Sources,
                   m: Schemas, order: seq<Box>, pending: seq<PendingNode>)
    requires Located(start, publisher, source, m)
    requires ScanResult(infer, PendingBoxes(start), m, order, Complete)
    requires Moved(start, order, pending)
    ensures forall b :: b in PendingBoxes(start) ==>
                          exists p :: p in Plans(publisher, pending) && b in p.boxes && b.node == p.node
  {
    forall b | b in PendingBoxes(start)
      ensures exists p :: p in Plans(publisher, pending) && b in p.boxes && b.node == p.node
    {
      var n :| 0 <= n < |start| && b in start[n].boxInfer;
      assert NodeMoved(start[n], order, pending[n]);
      OnlyFromHas(order, start[n].boxInfer, b);
      var p := Plans(publisher, pending)[n];
      assert p in Plans(publisher, pending) && b in p.boxes;
    }
  }

  /** After a complete scan every plan has its schemas, and in the head's order the plans
      are ordered. */
  lemma PlansRight(infer: Inference, start: seq<PendingNode>, publisher: map<Node, seq<Stream>>, source: Sources,
                   m: Schemas, order: seq<Box>, pending: seq<PendingNode>)
    requires Located(start, publisher, source, m)
    requires ScanResult(infer, PendingBoxes(start), m, order, Complete) && Moved(start, order, pending)
    ensures forall p :: p in Plans(publisher, pending) ==> HasSchemas(p, source, After(infer, m, order))
    ensures SubscribedInTurn(start) ==> NoneHidden(Plans(publisher, pending))
    ensures HeadListsInOrder(infer, start, publisher, source, m) && FirstReadyEach(infer, Lists(start), m, order) ==>
              forall p :: p in Plans(publisher, pending) ==> Ordered(p, source)
  {
    PlansMoved(start, publisher, order, pending);
    if SubscribedInTurn(start) {
      PlansApart(start, publisher, order, pending);
    }
    hide HasSchemas, Ordered, FirstReadyEach;
    forall n | 0 <= n < |start|
      ensures HasSchemas(PlanOf(publisher, pending[n]), source, After(infer, m, order))
    {
      PlansFromOrder(infer, start, publisher, source, m, order, n);
    }
  }

  // ----- what a whole deployment reaches

  /** Some complete scan of the pending boxes exists; by Confluence the head's then is one. */
  ghost predicate Inferable(infer: Inference, pending: seq<PendingNode>, m: Schemas) {
    exists order :: ScanResult(infer, PendingBoxes(pending), m, order, Complete)
  }

  lemma LocatedLists(pending: seq<PendingNode>, publisher: map<Node, seq<Stream>>, source: Sources, m: Schemas)
    requires Located(pending, publisher, source, m)
    ensures ListedOnce(pending) && Wired(PendingBoxes(pending))
  {
  }

  lemma OneVerdict(infer: Inference, pending: seq<PendingNode>, m: Schemas, order: seq<Box>, outcome: Outcome)
    requires Wired(PendingBoxes(pending)) && ScanResult(infer, PendingBoxes(pending), m, order, outcome)
    ensures Inferable(infer, pending, m) <==> outcome.Complete?
  {
    if order' :| ScanResult(infer, PendingBoxes(pending), m, order', Complete) {
      Confluence(infer, PendingBoxes(pending), m, order, outcome, order', Complete);
    }
  }

  lemma NothingInOrder(wanted: seq<Plan>, source: Sources, m: Schemas)
    ensures AllInOrder(NOTHING, m) && AllSentOnce(NOTHING) && OnlyCalled(NOTHING, NOTHING, wanted, source, m)
  {
  }

  /** What a node is to be sent, read off its entry before any box has moved. */
  function Wanted(publisher: map<Node, seq<Stream>>, p: PendingNode): Plan {
    Plan(p.endpoint, PublishedAt(publisher, p.endpoint), p.boxInfer, p.output)
  }

  function AllWanted(publisher: map<Node, seq<Stream>>, pending: seq<PendingNode>): (r: seq<Plan>)
    ensures |r| == |pending| && forall n :: 0 <= n < |r| ==> r[n] == Wanted(publisher, pending[n])
  {
    seq(|pending|, n requires 0 <= n < |pending| => Wanted(publisher, pending[n]))
  }

  /** Stream s is known at an endpoint: the node there took it as an input, or as a stream
      from the node of its source, or a node subscribed to it for that endpoint took that. */
  ghost predicate KnownAt(pending: seq<PendingNode>, source: Sources, d: Deployed, endpoint: Node, s: Stream) {
    || InputMsg(s) in TraceAt(d, endpoint)
    || (Remote(s, source, endpoint) && RemoteInputMsg(s, source[s].node) in TraceAt(d, endpoint))
    || exists n :: 0 <= n < |pending| && Subscription(s, endpoint) in pending[n].output
                   && SubscribeMsg(s, endpoint) in TraceAt(d, pending[n].endpoint)
  }

  ghost predicate BoxesThere(pending: seq<PendingNode>, d: Deployed) {
    forall b :: b in PendingBoxes(pending) ==> BoxMsg(b) in TraceAt(d, b.node)
  }

  ghost predicate InputsKnown(pending: seq<PendingNode>, publisher: map<Node, seq<Stream>>, source: Sources, d: Deployed) {
    forall n, s :: 0 <= n < |pending| && pending[n].endpoint in publisher && s in publisher[pending[n].endpoint] ==>
                     KnownAt(pending, source, d, pending[n].endpoint, s)
  }

  ghost predicate SubscriptionsKnown(pending: seq<PendingNode>, source: Sources, d: Deployed) {
    forall n, o :: 0 <= n < |pending| && o in pending[n].output ==> KnownAt(pending, source, d, o.endpoint, o.stream)
  }

  lemma ProvidedIsKnown(pending: seq<PendingNode>, publisher: map<Node, seq<Stream>>, source: Sources, m: Schemas, d: Deployed,
                        endpoint: Node, s: Stream)
    requires OnlyCalled(NOTHING, d, AllWanted(publisher, pending), source, m) && Provided(d, endpoint, s)
    ensures KnownAt(pending, source, d, endpoint, s)
  {
    var node, msg :| msg in TraceAt(d, node) && Provides(node, msg, endpoint, s);
    var wanted := AllWanted(publisher, pending);
    assert Called(wanted, source, m, node, msg);
    var p :| p in wanted && p.node == node && CallsFor(p, source, m, msg);
    var n :| 0 <= n < |wanted| && wanted[n] == p;
    assert p == Wanted(publisher, pending[n]);
  }

  lemma BoxAtItsNode(start: seq<PendingNode>, publisher: map<Node, seq<Stream>>, source: Sources, m0: Schemas, m: Schemas,
                     d: Deployed, b: Box)
    requires Located(start, publisher, source, m0)
    requires OnlyCalled(NOTHING, d, AllWanted(publisher, start), source, m) && MarksExact(d) && b in d.boxes
    ensures BoxMsg(b) in TraceAt(d, b.node)
  {
    var wanted := AllWanted(publisher, start);
    var node :| BoxMsg(b) in TraceAt(d, node);
    assert Called(wanted, source, m, node, BoxMsg(b));
    var p :| p in wanted && p.node == node && CallsFor(p, source, m, BoxMsg(b));
    var n :| 0 <= n < |wanted| && wanted[n] == p;
    assert p == Wanted(publisher, start[n]);
  }

  /** What the moved lists call for, the lists called for as they were. */
  lemma CalledIsWanted(start: seq<PendingNode>, publisher: map<Node, seq<Stream>>, source: Sources, m: Schemas,
                       order: seq<Box>, pending: seq<PendingNode>, d: Deployed)
    requires Moved(start, order, pending) && forall n :: 0 <= n < |start| ==> start[n].boxDeploy == []
    requires OnlyCalled(NOTHING, d, Plans(publisher, pending), source, m)
    ensures OnlyCalled(NOTHING, d, AllWanted(publisher, start), source, m)
  {
    var plans, wanted := Plans(publisher, pending), AllWanted(publisher, start);
    PlansMoved(start, publisher, order, pending);
    forall node, msg | msg in TraceAt(d, node)
      ensures Called(wanted, source, m, node, msg)
    {
      assert Called(plans, source, m, node, msg);
      var p :| p in plans && p.node == node && CallsFor(p, source, m, msg);
      var n :| 0 <= n < |plans| && plans[n] == p;
      forall b | b in p.boxes
        ensures b in wanted[n].boxes
      {
        OnlyFromHas(order, start[n].boxInfer, b);
      }
      MoreBoxesCall(p, wanted[n], source, m, msg);
      assert wanted[n] in wanted;
    }
  }

  lemma MoreBoxesCall(p: Plan, p': Plan, source: Sources, m: Schemas, msg: Message)
    requires p'.node == p.node && p'.inputs == p.inputs && p'.output == p.output && forall b :: b in p.boxes ==> b in p'.boxes
    requires CallsFor(p, source, m, msg)
    ensures CallsFor(p', source, m, msg)
  {
    forall s | ReadsRemotely(p, source, s)
      ensures ReadsRemotely(p', source, s)
    {
    }
    if msg.SchemaMsg? {
      var s :| (s in p.inputs || ReadsRemotely(p, source, s)) && SchemaOf(m, s, msg.schema);
    }
  }

  /** The reach of DeployNodes said of the pending lists. */
  lemma DeploymentReaches(ack: Answers, start: seq<PendingNode>, publisher: map<Node, seq<Stream>>, source: Sources, m0: Schemas,
                          m: Schemas, order: seq<Box>, pending: seq<PendingNode>, ok: bool, d: Deployed)
    requires Located(start, publisher, source, m0) && Moved(start, order, pending)
    requires forall b :: b in PendingBoxes(start) ==> exists p :: p in Plans(publisher, pending) && b in p.boxes && b.node == p.node
    requires forall p :: p in Plans(publisher, pending) ==> HasSchemas(p, source, m)
    requires (ok, d) == DeployNodes(ack, NOTHING, Plans(publisher, pending), source, m)
    ensures ok <==> d.sent == 0 || ack(d.sent - 1)
    ensures AllSentOnce(d) && OnlyCalled(NOTHING, d, AllWanted(publisher, start), source, m)
    ensures ok ==> BoxesThere(start, d) && InputsKnown(start, publisher, source, d)
    ensures AllTaken(ack, NOTHING, d) && ok ==> SubscriptionsKnown(start, source, d)
  {
    var plans := Plans(publisher, pending);
    NodesLast(ack, NOTHING, plans, source, m);
    NodesReached(ack, NOTHING, plans, source, m);
    CalledIsWanted(start, publisher, source, m, order, pending, d);
    PlansMoved(start, publisher, order, pending);
    hide DeployNodes, HasSchemas, OnlyCalled, AllSentOnce, KnownAt, Moved;
    if ok {
      forall b | b in PendingBoxes(start)
        ensures BoxMsg(b) in TraceAt(d, b.node)
      {
        assert b in d.boxes;
        BoxAtItsNode(start, publisher, source, m0, m, d, b);
      }
      forall n, s | 0 <= n < |start| && start[n].endpoint in publisher && s in publisher[start[n].endpoint]
        ensures KnownAt(start, source, d, start[n].endpoint, s)
      {
        assert plans[n] in plans && s in plans[n].inputs;
        ProvidedIsKnown(start, publisher, source, m, d, start[n].endpoint, s);
      }
    }
    if AllTaken(ack, NOTHING, d) && ok {
      forall n, o | 0 <= n < |start| && o in start[n].output
        ensures KnownAt(start, source, d, o.endpoint, o.stream)
      {
        assert plans[n] in plans && o in plans[n].output;
        ProvidedIsKnown(start, publisher, source, m, d, o.endpoint, o.stream);
      }
    }
  }

  /** What Deploy promises once its boxes are inferred. */
  lemma DeployedRight(infer: Inference, ack: Answers, start: seq<PendingNode>, publisher: map<Node, seq<Stream>>, source: Sources,
                      m: Schemas, order: seq<Box>, pending: seq<PendingNode>, ok: bool, d: Deployed)
    requires Located(start, publisher, source, m)
    requires FirstReadyEach(infer, Lists(start), m, order)
    requires ScanResult(infer, PendingBoxes(start), m, order, Complete) && Moved(start, order, pending)
    requires forall p :: p in Plans(publisher, pending) ==> HasSchemas(p, source, After(infer, m, order))
    requires (ok, d) == DeployNodes(ack, NOTHING, Plans(publisher, pending), source, After(infer, m, order))
    ensures ok <==> d.sent == 0 || ack(d.sent - 1)
    ensures AllSentOnce(d) && OnlyCalled(NOTHING, d, AllWanted(publisher, start), source, After(infer, m, order))
    ensures ok ==> BoxesThere(start, d) && InputsKnown(start, publisher, source, d)
    ensures AllTaken(ack, NOTHING, d) && ok ==> SubscriptionsKnown(start, source, d)
    ensures HeadListsInOrder(infer, start, publisher, source, m) && SubscribedInTurn(start) ==> AllInOrder(d, After(infer, m, order))
  {
    var end := After(infer, m, order);
    PlansRight(infer, start, publisher, source, m, order, pending);
    AllPlanned(infer, start, publisher, source, m, order, pending);
    hide HasSchemas, Ordered, FirstReadyEach, Moved, DeployNodes;
    DeploymentReaches(ack, start, publisher, source, m, end, order, pending, ok, d);
    NothingIsSound(Plans(publisher, pending), end);
    if HeadListsInOrder(infer, start, publisher, source, m) && SubscribedInTurn(start) {
      DeployNodesInOrder(ack, NOTHING, Plans(publisher, pending), source, end);
    }
  }

  class DeployDiagram {
    const infer: Inference
    const publisher: map<Node, seq<Stream>>
    const source: Sources

    // Answers of the nodes to the sends, and how many have been made.
    const ack: Answers
    var sent: nat

    var pending: seq<PendingNode>
    var schemas: Schemas

    var deployedBox: set<Box>
    var deployedStream: map<Node, set<Stream>>
    var deployedSchema: map<Node, set<Schema>>

    // What each node has acknowledged.
    var trace: map<Node, seq<Message>>

    constructor (infer: Inference, publisher: map<Node, seq<Stream>>, source: Sources, ack: Answers,
                 pending: seq<PendingNode>, schemas: Schemas)
      ensures this.infer == infer && this.publisher == publisher && this.source == source && this.ack == ack
      ensures this.pending == pending && this.schemas == schemas && Now() == NOTHING
    {
      this.infer, this.publisher, this.source, this.ack := infer, publisher, source, ack;
      this.pending, this.schemas := pending, schemas;
      sent, deployedBox, deployedStream, deployedSchema, trace := 0, {}, map[], map[], map[];
    }

    function Now(): Deployed
      reads `sent, `deployedBox, `deployedStream, `deployedSchema, `trace
    {
      Deployed(sent, deployedBox, deployedStream, deployedSchema, trace)
    }

    /** One round: nodes in order, and on each node its boxes in order, up to the
        first box whose in streams all have schemas. */
    method Scan() returns (cyclic: bool, done: bool, refused: Option<Box>, ghost found: Round)
      modifies this`pending, this`schemas
      ensures done <==> found.AllDone?
      ensures cyclic <==> found.Stuck?
      ensures refused.Some? <==> found.Refused?
      ensures !found.Inferred? ==> pending == old(pending) && schemas == old(schemas)
      ensures found.AllDone? ==> forall n :: 0 <= n < |pending| ==> pending[n].boxInfer == []
      ensures found.Stuck? ==> NoneReady(pending, schemas) && exists n, i :: At(pending, n, i)
      ensures found.Refused? ==>
                && At(pending, found.n, found.i)
                && var b := pending[found.n].boxInfer[found.i];
                refused == Some(b) && Ready(schemas, b) && !InferBoxOut(infer, b, schemas).Done?
      ensures found.Inferred? ==>
                && At(old(pending), found.n, found.i)
                && pending == Move(old(pending), found.n, found.i)
                && var b := old(pending)[found.n].boxInfer[found.i];
                Ready(old(schemas), b) && InferBoxOut(infer, b, old(schemas)) == Done(schemas)
      ensures found.Inferred? || found.Refused? ==> NoneReadyBefore(old(pending), old(schemas), found.n, found.i)
    {
      cyclic, done, refused := false, true, None;
      found := AllDone;
      var n := 0;
      while n < |pending|
        invariant 0 <= n <= |pending|
        invariant pending == old(pending) && schemas == old(schemas)
        invariant refused.None? && cyclic == !done && found == if done then AllDone else Stuck
        invariant NoneReady(pending[..n], schemas)
        invariant done <==> forall k :: 0 <= k < n ==> pending[k].boxInfer == []
      {
        var i := 0;
        while i < |pending[n].boxInfer|
          invariant pending == old(pending) && schemas == old(schemas)
          invariant 0 <= i <= |pending[n].boxInfer|
          invariant refused.None? && cyclic == !done && found == if done then AllDone else Stuck
          invariant forall j :: 0 <= j < i ==> !Ready(schemas, pending[n].boxInfer[j])
          invariant done <==> i == 0 && forall k :: 0 <= k < n ==> pending[k].boxInfer == []
        {
          cyclic, done := true, false;
          var b := pending[n].boxInfer[i];
          var inferNow := AllInsHaveSchemas(schemas, b);
          if inferNow {
            cyclic := false;
            var inferred := InferBox(infer, b, schemas);
            if !inferred.Done? {
              refused := Some(b);
              found := Refused(n, i);
              return;
            }
            schemas := inferred.schemas;
            pending := Move(pending, n, i);
            found := Inferred(n, i);
            return;
          }
          found := Stuck;
          i := i + 1;
        }
        forall k, j | 0 <= k < n + 1 && 0 <= j < |pending[k].boxInfer|
          ensures !Ready(schemas, pending[k].boxInfer[j])
        {
          assert k < n ==> pending[..n][k] == pending[k];
        }
        n := n + 1;
      }
      assert pending[..n] == pending;
      if !done {
        var k :| 0 <= k < n && pending[k].boxInfer != [];
        assert At(pending, k, 0);
      }
    }

    /** Rounds until every list is empty, a box is refused or a round finds nothing. */
    method InferSchema() returns (outcome: Outcome, ghost order: seq<Box>)
      requires ListedOnce(pending)
      modifies this`pending, this`schemas
      ensures ScanResult(infer, PendingBoxes(old(pending)), old(schemas), order, outcome)
      ensures schemas == After(infer, old(schemas), order)
      ensures Moved(old(pending), order, pending)
      ensures FirstReadyEach(infer, Lists(old(pending)), old(schemas), order)
    {
      order, outcome := [], Complete;
      var status, done := true, false;
      NothingMoved(pending);
      while status && !done
        invariant status ==> outcome == Complete && ValidOrder(infer, old(schemas), order)
                             && Within(order, PendingBoxes(old(pending)))
        invariant !status || done ==> ScanResult(infer, PendingBoxes(old(pending)), old(schemas), order, outcome)
        invariant schemas == After(infer, old(schemas), order)
        invariant Moved(old(pending), order, pending)
        invariant FirstReadyEach(infer, Lists(old(pending)), old(schemas), order)
        decreases PendingCount(pending), status && !done
      {
        var cyclic, refused;
        ghost var found;
        ghost var before, m := pending, schemas;
        cyclic, done, refused, found := Scan();
        if cyclic {
          status, outcome := false, Cyclic;
          StuckEnds(infer, old(pending), old(schemas), order, pending);
        } else if refused.Some? {
          status, outcome := false, Rejected(refused.value);
          StillPending(old(pending), order, pending, found.n, found.i);
        } else if done {
          DoneEnds(old(pending), order, pending);
        } else {
          ghost var b := before[found.n].boxInfer[found.i];
          StillPending(old(pending), order, before, found.n, found.i);
          forall x | OnSomeList(Lists(old(pending)), x) && x !in order && Ready(m, x)
            ensures !ListedBefore(Lists(old(pending)), x, b)
          {
            FirstLeft(old(pending), order, before, m, found.n, found.i, x);
          }
          FirstReadyMore(infer, Lists(old(pending)), old(schemas), order, b);
          OrderStep(infer, old(schemas), order, b);
          MoveMoves(old(pending), order, before, found.n, found.i);
          MoveCount(before, found.n, found.i);
          order := order + [b];
        }
      }
    }

    /** Infer, then deploy every pending node.  When the boxes can be inferred the answer to
        the last send is the status, so that nothing but a refusal ends a deployment badly;
        when they cannot, nothing is sent.  The traces hold what the lists call for and,
        schemas aside, no message twice; with a good status every box is in its node's
        trace and every published stream is known at its node, and with no send refused
        every stream subscribed to is known at its endpoint.  With lists in order as the
        head takes the boxes, and no node subscribed too early, every trace is in order
        whatever the nodes answer. */
    method Deploy() returns (status: bool)
      requires Now() == NOTHING
      requires Located(pending, publisher, source, schemas)
      modifies this
      ensures Inferable(infer, old(pending), old(schemas)) ==> (status <==> Now().sent == 0 || ack(Now().sent - 1))
      ensures !Inferable(infer, old(pending), old(schemas)) ==> !status && Now() == NOTHING
      ensures AllSentOnce(Now()) && OnlyCalled(NOTHING, Now(), AllWanted(publisher, old(pending)), source, schemas)
      ensures status ==> BoxesThere(old(pending), Now()) && InputsKnown(old(pending), publisher, source, Now())
      ensures AllTaken(ack, NOTHING, Now()) && status ==> SubscriptionsKnown(old(pending), source, Now())
      ensures HeadListsInOrder(infer, old(pending), publisher, source, old(schemas)) && SubscribedInTurn(old(pending)) ==>
                AllInOrder(Now(), schemas)
    {
      ghost var start, m := pending, schemas;
      var outcome;
      ghost var order;
      hide *;
      LocatedLists(start, publisher, source, m);
      outcome, order := InferSchema();
      status := outcome.Complete?;
      OneVerdict(infer, start, m, order, outcome);
      if status {
        PlansRight(infer, start, publisher, source, m, order, pending);
        status := DeployPending();
        DeployedRight(infer, ack, start, publisher, source, m, order, pending, status, Now());
      } else {
        NothingInOrder(AllWanted(publisher, start), source, schemas);
      }
    }

    method DeployPending() returns (status: bool)
      requires forall p :: p in Plans(publisher, pending) ==> HasSchemas(p, source, schemas)
      modifies this`sent, this`deployedBox, this`deployedStream, this`deployedSchema, this`trace
      ensures (status, Now()) == DeployNodes(ack, old(Now()), Plans(publisher, pending), source, schemas)
    {
      status := true;
      ghost var plans := Plans(publisher, pending);
      var n := 0;
      while n < |pending| && status
        invariant 0 <= n <= |pending|
        invariant if status then DeployNodes(ack, old(Now()), plans, source, schemas)
                                 == DeployNodes(ack, Now(), plans[n..], source, schemas)
                  else DeployNodes(ack, old(Now()), plans, source, schemas) == (false, Now())
      {
        assert plans[n..][1..] == plans[n + 1..];
        status := DeployPendingNode(pending[n]);
        n := n + 1;
      }
    }

    /** Inputs before boxes, as boxes may read them; subscriptions after boxes. */
    method DeployPendingNode(p: PendingNode) returns (status: bool)
      requires HasSchemas(PlanOf(publisher, p), source, schemas)
      modifies this`sent, this`deployedBox, this`deployedStream, this`deployedSchema, this`trace
      ensures (status, Now()) == DeployNode(ack, old(Now()), PlanOf(publisher, p), source, schemas)
    {
      status := DeployNodeInput(p.endpoint);
      if status {
        status := DeployBoxNode(p.endpoint, p.boxDeploy);
      }
      if status {
        status := DeployNodeOutput(p.endpoint, p.output);
      }
    }

    method AddXml(node: Node, msg: Message) returns (ok: bool)
      modifies this`sent, this`trace
      ensures (ok, Now()) == Send(ack, old(Now()), node, msg)
    {
      ok := ack(sent);
      sent := sent + 1;
      if ok {
        trace := trace[node := (if node in trace then trace[node] else []) + [msg]];
      }
    }

    method DeploySchemaTo(node: Node, schema: Schema) returns (status: bool)
      modifies this`sent, this`deployedSchema, this`trace
      ensures (status, Now()) == DeploySchema(ack, old(Now()), node, schema)
    {
      status := true;
      if schema !in SchemasAt(Now(), node) {
        var f := 0;
        while f < |schema.fields|
          invariant 0 <= f <= |schema.fields|
          invariant SendElements(ack, old(Now()), node, schema, schema.fields, true)
                    == SendElements(ack, Now(), node, schema, schema.fields[f..], status)
        {
          assert schema.fields[f..][1..] == schema.fields[f + 1..];
          var field := schema.fields[f];
          if field.kind == ARRAY && field.element.Some? && field.element.value !in SchemasAt(Now(), node) {
            status := AddXml(node, SchemaMsg(field.element.value));
            if status {
              deployedSchema := deployedSchema[node := SchemasAt(Now(), node) + {schema}];
            }
          }
          f := f + 1;
        }
        if status {
          status := AddXml(node, SchemaMsg(schema));
          if status {
            deployedSchema := deployedSchema[node := SchemasAt(Now(), node) + {schema}];
          }
        }
      }
    }

    method DeployNodeInput(node: Node) returns (status: bool)
      requires forall s :: s in PublishedAt(publisher, node) ==> s in schemas
      modifies this`sent, this`deployedStream, this`deployedSchema, this`trace
      ensures (status, Now()) == DeployInput(ack, old(Now()), node, PublishedAt(publisher, node), schemas)
    {
      hide DeploySchema;
      status := true;
      var inputs := PublishedAt(publisher, node);
      var i := 0;
      while i < |inputs|
        invariant 0 <= i <= |inputs|
        invariant status
        invariant DeployInput(ack, old(Now()), node, inputs, schemas) == DeployInput(ack, Now(), node, inputs[i..], schemas)
      {
        assert inputs[i..][1..] == inputs[i + 1..];
        var s := inputs[i];
        if s !in StreamsAt(Now(), node) {
          status := DeploySchemaTo(node, schemas[s]);
          if !status {
            return;
          }
          deployedStream := deployedStream[node := StreamsAt(Now(), node) + {s}];
          status := AddXml(node, InputMsg(s));
          if !status {
            return;
          }
        }
        i := i + 1;
      }
    }

    method DeployBoxNode(node: Node, boxes: seq<Box>) returns (status: bool)
      requires forall b, s :: b in boxes && s in b.ins && s in source ==> s in schemas
      modifies this`sent, this`deployedBox, this`deployedStream, this`deployedSchema, this`trace
      ensures (status, Now()) == DeployBoxes(ack, old(Now()), node, boxes, source, schemas)
    {
      status := true;
      var i := 0;
      while i < |boxes|
        invariant 0 <= i <= |boxes|
        invariant status
        invariant DeployBoxes(ack, old(Now()), node, boxes, source, schemas)
                  == DeployBoxes(ack, Now(), node, boxes[i..], source, schemas)
      {
        assert boxes[i..][1..] == boxes[i + 1..];
        if boxes[i] !in deployedBox {
          status := DeployOneBox(node, boxes[i]);
          if !status {
            return;
          }
        }
        i := i + 1;
      }
    }

    method DeployOneBox(node: Node, b: Box) returns (status: bool)
      requires forall s :: s in b.ins && s in source ==> s in schemas
      modifies this`sent, this`deployedBox, this`deployedStream, this`deployedSchema, this`trace
      ensures (status, Now()) == DeployBox(ack, old(Now()), node, b, source, schemas)
    {
      status := DeployBoxIns(node, b.ins);
      if status {
        status := AddXml(node, BoxMsg(b));
      }
      if status {
        deployedBox := deployedBox + {b};
      }
    }

    method DeployBoxIns(node: Node, ins: seq<Stream>) returns (status: bool)
      requires forall s :: s in ins && s in source ==> s in schemas
      modifies this`sent, this`deployedStream, this`deployedSchema, this`trace
      ensures (status, Now()) == DeployIns(ack, old(Now()), node, ins, source, schemas)
    {
      status := true;
      var i := 0;
      while i < |ins|
        invariant 0 <= i <= |ins|
        invariant status
        invariant DeployIns(ack, old(Now()), node, ins, source, schemas)
                  == DeployIns(ack, Now(), node, ins[i..], source, schemas)
      {
        assert ins[i..][1..] == ins[i + 1..];
        var s := ins[i];
        if s in source && source[s].node != node {
          status := DeploySchemaTo(node, schemas[s]);
          if !status {
            return;
          }
          if s !in StreamsAt(Now(), node) {
            status := AddXml(node, RemoteInputMsg(s, source[s].node));
            if !status {
              return;
            }
            deployedStream := deployedStream[node := StreamsAt(Now(), node) + {s}];
          }
        }
        i := i + 1;
      }
    }

    method DeployNodeOutput(node: Node, output: seq<Subscription>) returns (status: bool)
      modifies this`sent, this`deployedStream, this`trace
      ensures (status, Now()) == DeployOutput(ack, old(Now()), node, output, true)
    {
      status := true;
      var i := 0;
      while i < |output|
        invariant 0 <= i <= |output|
        invariant DeployOutput(ack, old(Now()), node, output, true) == DeployOutput(ack, Now(), node, output[i..], status)
      {
        assert output[i..][1..] == output[i + 1..];
        var o := output[i];
        if o.stream !in StreamsAt(Now(), o.endpoint) {
          status := AddXml(node, SubscribeMsg(o.stream, o.endpoint));
          if status {
            deployedStream := deployedStream[o.endpoint := StreamsAt(Now(), o.endpoint) + {o.stream}];
          }
        }
        i := i + 1;
      }
    }
  }
}
