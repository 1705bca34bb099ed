/**
  A located network from the head's scan to the traces: exactly when every trace is in
  order whatever the nodes answer.
*/
module HeadDeployment {
  import opened Basics
  import opened Network
  import opened InferenceOrder
  import opened UpstreamOrder
  import opened HeadOrder
  import opened Deployment
  import opened DeploymentGaps
  import opened DeploymentOrder
  import opened DeployDiagram

  /** The plans after a scan that took the boxes of order. */
  ghost function PlansIn(publisher: map<Node, seq<Stream>>, start: seq<PendingNode>, order: seq<Box>): (r: seq<Plan>)
    ensures |r| == |start| && forall n :: 0 <= n < |r| ==> r[n] == PlanIn(publisher, start[n], order)
  {
    seq(|start|, n requires 0 <= n < |start| => PlanIn(publisher, start[n], order))
  }

  /** Subscriptions are to streams that come out of the node's own boxes. */
  ghost predicate SubscribedFromHere(start: seq<PendingNode>, source: Sources) {
    forall n, o :: 0 <= n < |start| && o in start[n].output ==> o.stream in source && source[o.stream].node == start[n].endpoint
  }

  lemma {:induction false} OnlyFromOnce(infer: Inference, start: Schemas, order: seq<Box>, list: seq<Box>)
    requires ValidOrder(infer, start, order)
    ensures Distinct(OnlyFrom(order, list))
  {
    if order != [] {
      var n := |order| - 1;
      OnlyFromOnce(infer, start, order[..n], list);
      OnlyFromHas(order[..n], list, order[n]);
    }
  }

  lemma Planned(infer: Inference, start: seq<PendingNode>, m: Schemas, order: seq<Box>, n: nat, b: Box)
    requires ScanResult(infer, PendingBoxes(start), m, order, Complete) && n < |start|
    ensures b in OnlyFrom(order, start[n].boxInfer) <==> b in start[n].boxInfer
  {
    OnlyFromHas(order, start[n].boxInfer, b);
    assert b in start[n].boxInfer ==> b in PendingBoxes(start);
  }

  lemma PlansInHaveSchemas(infer: Inference, start: seq<PendingNode>, publisher: map<Node, seq<Stream>>, source: Sources,
                           m: Schemas, order: seq<Box>)
    requires Located(start, publisher, source, m) && ScanResult(infer, PendingBoxes(start), m, order, Complete)
    ensures forall p :: p in PlansIn(publisher, start, order) ==> HasSchemas(p, source, After(infer, m, order)) && Distinct(p.boxes)
  {
    var plans := PlansIn(publisher, start, order);
    hide HasSchemas, Located, Distinct;
    forall p | p in plans
      ensures HasSchemas(p, source, After(infer, m, order)) && Distinct(p.boxes)
    {
      var n :| 0 <= n < |plans| && plans[n] == p;
      PlansFromOrder(infer, start, publisher, source, m, order, n);
      OnlyFromOnce(infer, m, order, start[n].boxInfer);
    }
  }

  /** A box of a located network is on the node it is listed on and the source of its outs. */
  lemma BoxLocated(start: seq<PendingNode>, publisher: map<Node, seq<Stream>>, source: Sources, m: Schemas, n: nat, b: Box)
    requires Located(start, publisher, source, m) && n < |start| && b in start[n].boxInfer
    ensures b.node == start[n].endpoint && forall s :: s in b.outs ==> s in source && source[s] == b
  {
    assert b in PendingBoxes(start);
  }

  lemma PlanBoxes(infer: Inference, start: seq<PendingNode>, publisher: map<Node, seq<Stream>>, source: Sources,
                  m: Schemas, order: seq<Box>, p: Plan, b: Box)
    requires Located(start, publisher, source, m) && ScanResult(infer, PendingBoxes(start), m, order, Complete)
    requires p in PlansIn(publisher, start, order) && b in p.boxes
    ensures b.node == p.node && forall s :: s in b.outs ==> s in source && source[s] == b
  {
    hide Located, ScanResult, PendingBoxes;
    var plans := PlansIn(publisher, start, order);
    var n :| 0 <= n < |plans| && plans[n] == p;
    Planned(infer, start, m, order, n, b);
    BoxLocated(start, publisher, source, m, n, b);
  }

  lemma PlanNodes(start: seq<PendingNode>, publisher: map<Node, seq<Stream>>, source: Sources, m: Schemas, order: seq<Box>)
    requires Located(start, publisher, source, m) && SubscribedFromHere(start, source)
    ensures var plans := PlansIn(publisher, start, order);
            && (forall i, j :: 0 <= i < j < |plans| ==> plans[i].node != plans[j].node)
            && forall p, o :: p in plans && o in p.output ==> o.stream in source && source[o.stream].node == p.node
  {
    hide OnlyFrom;
  }

  lemma PlansInWired(infer: Inference, start: seq<PendingNode>, publisher: map<Node, seq<Stream>>, source: Sources,
                     m: Schemas, order: seq<Box>)
    requires Located(start, publisher, source, m) && SubscribedFromHere(start, source)
    requires ScanResult(infer, PendingBoxes(start), m, order, Complete)
    ensures PlansWired(PlansIn(publisher, start, order), source)
  {
    PlanNodes(start, publisher, source, m, order);
    hide Located, ScanResult, PendingBoxes, PlanIn, PlansIn;
    forall p, b | p in PlansIn(publisher, start, order) && b in p.boxes
      ensures b.node == p.node && forall s :: s in b.outs ==> s in source && source[s] == b
    {
      PlanBoxes(infer, start, publisher, source, m, order, p, b);
    }
  }

  lemma SubscribedIff(infer: Inference, start: seq<PendingNode>, publisher: map<Node, seq<Stream>>, m: Schemas, order: seq<Box>)
    requires ScanResult(infer, PendingBoxes(start), m, order, Complete)
    ensures NoneHidden(PlansIn(publisher, start, order)) <==> SubscribedInTurn(start)
  {
    var plans := PlansIn(publisher, start, order);
    hide ScanResult;
    forall n, b | 0 <= n < |start|
      ensures b in plans[n].boxes <==> b in start[n].boxInfer
    {
      Planned(infer, start, m, order, n, b);
    }
    if NoneHidden(plans) {
      forall n, k, o, b | 0 <= n < k < |start| && o in start[n].output && b in start[k].boxInfer && o.stream in b.ins
        ensures o.endpoint != start[k].endpoint
      {
        assert Apart(plans[n], plans[k]) && b in plans[k].boxes;
      }
    }
  }

  lemma OrderedEach(publisher: map<Node, seq<Stream>>, start: seq<PendingNode>, order: seq<Box>, source: Sources)
    ensures AllOrdered(PlansIn(publisher, start, order), source) <==>
            forall n :: 0 <= n < |start| ==> Ordered(PlanIn(publisher, start[n], order), source)
  {
    hide Ordered, PlanIn;
    var plans := PlansIn(publisher, start, order);
    forall n | 0 <= n < |start|
      ensures plans[n] in plans && plans[n] == PlanIn(publisher, start[n], order)
    {
    }
  }

  /** Of a network the head can infer every trace is in order whatever the nodes answer,
      exactly when the head's own order takes each box after those of its node it reads
      from, and no node is subscribed, before its turn, to a stream its boxes read. */
  lemma HeadInOrderIff(infer: Inference, start: seq<PendingNode>, publisher: map<Node, seq<Stream>>, source: Sources,
                       m: Schemas, order: seq<Box>)
    requires Located(start, publisher, source, m) && SubscribedFromHere(start, source)
    requires FirstReadyEach(infer, Lists(start), m, order) && ScanResult(infer, PendingBoxes(start), m, order, Complete)
    ensures forall p :: p in PlansIn(publisher, start, order) ==> HasSchemas(p, source, After(infer, m, order))
    ensures var plans, end := PlansIn(publisher, start, order), After(infer, m, order);
            (forall ack: Answers :: AllInOrder(DeployNodes(ack, NOTHING, plans, source, end).1, end)) <==>
            HeadListsInOrder(infer, start, publisher, source, m) && SubscribedInTurn(start)
  {
    PlansInHaveSchemas(infer, start, publisher, source, m, order);
    PlansInWired(infer, start, publisher, source, m, order);
    SubscribedIff(infer, start, publisher, m, order);
    HeadListsIff(infer, start, publisher, source, m, order);
    hide HasSchemas, PlansWired, AllInOrder, NoneHidden, Ordered, ScanResult, FirstReadyEach, Located, HeadListsInOrder;
    OrderedEach(publisher, start, order, source);
    hide PlanIn, AllOrdered, PlansIn;
    InOrderIff(PlansIn(publisher, start, order), source, After(infer, m, order));
  }
}
