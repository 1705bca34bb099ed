/**
  Exactly when every trace is in order whatever the nodes answer: plans list a box
  after the boxes of its node it reads from, and no node is subscribed too early.
*/
module DeploymentOrder {
  import opened Basics
  import opened Network
  import opened Deployment
  import opened DeploymentGaps

  /** Box b is in the trace before anything that defines its in stream s. */
  ghost predicate TooEarly(trace: seq<Message>, b: Box, s: Stream) {
    exists k :: 0 <= k < |trace| && trace[k] == BoxMsg(b) && s in b.ins && !DefinedIn(trace[..k], s)
  }

  lemma StaysTooEarly(trace: seq<Message>, longer: seq<Message>, b: Box, s: Stream)
    requires TooEarly(trace, b, s) && trace <= longer
    ensures TooEarly(longer, b, s)
  {
    var k :| 0 <= k < |trace| && trace[k] == BoxMsg(b) && s in b.ins && !DefinedIn(trace[..k], s);
    assert longer[..k] == trace[..k] && longer[k] == trace[k];
  }

  lemma TooEarlyIsWrong(d: Deployed, node: Node, b: Box, s: Stream, m: Schemas)
    requires TooEarly(TraceAt(d, node), b, s)
    ensures !AllInOrder(d, m)
  {
    var trace := TraceAt(d, node);
    var k :| 0 <= k < |trace| && trace[k] == BoxMsg(b) && s in b.ins && !DefinedIn(trace[..k], s);
    assert !Prepared(trace[..k], trace[k], m);
    assert !InOrder(trace, m);
  }

  function Elsewhere(node: Node): (r: Node)
    ensures r != node
  {
    node + "*"
  }

  /** Box i of the list reads s on its own node, and nothing before it puts s out. */
  ghost predicate Misplaced(boxes: seq<Box>, node: Node, source: Sources, i: nat, s: Stream) {
    && i < |boxes| && s in boxes[i].ins && !Remote(s, source, node)
    && forall j :: 0 <= j < i ==> s !in boxes[j].outs
  }

  lemma FirstBoxTooEarly(ack: Answers, d: Deployed, node: Node, boxes: seq<Box>, source: Sources, m: Schemas, s: Stream)
    requires AllTaken(ack) && (forall b, t :: b in boxes && t in b.ins && t in source ==> t in m)
    requires forall b :: b in boxes ==> b.node == node
    requires Misplaced(boxes, node, source, 0, s) && boxes[0] !in d.boxes && !DefinedIn(TraceAt(d, node), s)
    ensures TooEarly(TraceAt(DeployBoxes(ack, d, node, boxes, source, m).1, node), boxes[0], s)
  {
    var b := boxes[0];
    hide DefinedIn, BoxesSent;
    InsFollow(ack, d, node, b.ins, source, m, node, s);
    var (_, d1) := DeployIns(ack, d, node, b.ins, source, m);
    var trace := TraceAt(d1, node) + [BoxMsg(b)];
    assert trace[..|trace| - 1] == TraceAt(d1, node) && trace[|trace| - 1] == BoxMsg(b);
    assert TooEarly(trace, b, s);
    var d2 := DeployBox(ack, d, node, b, source, m).1;
    assert TraceAt(d2, node) == trace;
    hide TooEarly;
    BoxesFollow(ack, d2, node, boxes[1..], source, m, Elsewhere(node), s);
    StaysTooEarly(trace, TraceAt(DeployBoxes(ack, d2, node, boxes[1..], source, m).1, node), b, s);
  }

  lemma {:induction false} BoxTooEarly(ack: Answers, d: Deployed, node: Node, boxes: seq<Box>, source: Sources, m: Schemas,
                                       i: nat, s: Stream)
    requires AllTaken(ack) && (forall b, t :: b in boxes && t in b.ins && t in source ==> t in m)
    requires (forall b :: b in boxes ==> b.node == node) && Distinct(boxes)
    requires Misplaced(boxes, node, source, i, s) && boxes[i] !in d.boxes && !DefinedIn(TraceAt(d, node), s)
    ensures TooEarly(TraceAt(DeployBoxes(ack, d, node, boxes, source, m).1, node), boxes[i], s)
    decreases |boxes|
  {
    hide DefinedIn, BoxesSent, TooEarly;
    if i == 0 {
      FirstBoxTooEarly(ack, d, node, boxes, source, m, s);
    } else {
      var rest := boxes[1..];
      assert rest[i - 1] == boxes[i] && boxes[0] != boxes[i] && forall j :: 0 <= j < |rest| ==> rest[j] == boxes[j + 1];
      if boxes[0] in d.boxes {
        BoxTooEarly(ack, d, node, rest, source, m, i - 1, s);
      } else {
        BoxFollows(ack, d, node, boxes[0], source, m, node, s);
        BoxTooEarly(ack, DeployBox(ack, d, node, boxes[0], source, m).1, node, rest, source, m, i - 1, s);
      }
    }
  }

  lemma PlanTooEarly(ack: Answers, d: Deployed, plan: Plan, source: Sources, m: Schemas, i: nat, s: Stream)
    requires AllTaken(ack) && HasSchemas(plan, source, m) && Distinct(plan.boxes) && TraceAt(d, plan.node) == []
    requires forall b :: b in plan.boxes ==> b.node == plan.node && b !in d.boxes
    requires Misplaced(plan.boxes, plan.node, source, i, s) && s !in plan.inputs
    ensures TooEarly(TraceAt(DeployNode(ack, d, plan, source, m).1, plan.node), plan.boxes[i], s)
  {
    InputFollows(ack, d, plan.node, plan.inputs, m, plan.node, s);
    var (_, d1) := DeployInput(ack, d, plan.node, plan.inputs, m);
    assert !DefinedIn(TraceAt(d, plan.node), s);
    hide DefinedIn, BoxesSent, TooEarly, Misplaced;
    assert plan.boxes[i] !in d1.boxes;
    BoxTooEarly(ack, d1, plan.node, plan.boxes, source, m, i, s);
    BoxesFollow(ack, d1, plan.node, plan.boxes, source, m, Elsewhere(plan.node), s);
    var (_, d2) := DeployBoxes(ack, d1, plan.node, plan.boxes, source, m);
    OutputFollows(ack, d2, plan.node, plan.output, true, Elsewhere(plan.node), s);
    StaysTooEarly(TraceAt(d2, plan.node), TraceAt(DeployOutput(ack, d2, plan.node, plan.output, true).1, plan.node),
                  plan.boxes[i], s);
  }

  lemma {:induction false} TracesGrow(ack: Answers, d: Deployed, plans: seq<Plan>, source: Sources, m: Schemas, node: Node)
    requires (forall p :: p in plans ==> HasSchemas(p, source, m)) && PlansWired(plans, source)
    ensures TraceAt(d, node) <= TraceAt(DeployNodes(ack, d, plans, source, m).1, node)
    decreases |plans|
  {
    if plans != [] {
      NodeFollows(ack, d, plans[0], source, m, Elsewhere(plans[0].node), "");
      var (ok, d1) := DeployNode(ack, d, plans[0], source, m);
      if ok {
        WiredRest(plans, source);
        TracesGrow(ack, d1, plans[1..], source, m, node);
      }
    }
  }

  /** Nothing has been sent to the nodes of these plans. */
  ghost predicate Untouched(d: Deployed, plans: seq<Plan>) {
    forall p :: p in plans ==> TraceAt(d, p.node) == [] && forall b :: b in p.boxes ==> b !in d.boxes
  }

  lemma UntouchedRest(ack: Answers, d: Deployed, plans: seq<Plan>, source: Sources, m: Schemas)
    requires (forall p :: p in plans ==> HasSchemas(p, source, m)) && PlansWired(plans, source)
    requires plans != [] && Untouched(d, plans)
    ensures PlansWired(plans[1..], source) && Untouched(DeployNode(ack, d, plans[0], source, m).1, plans[1..])
    ensures AllTaken(ack) ==> DeployNode(ack, d, plans[0], source, m).0
  {
    WiredRest(plans, source);
    NodeFollows(ack, d, plans[0], source, m, Elsewhere(plans[0].node), "");
    var d1 := DeployNode(ack, d, plans[0], source, m).1;
    forall p | p in plans[1..]
      ensures TraceAt(d1, p.node) == [] && forall b :: b in p.boxes ==> b !in d1.boxes
    {
      var i :| 0 <= i < |plans[1..]| && plans[1..][i] == p;
      assert plans[i + 1] == p && p in plans && plans[0] in plans && plans[0].node != p.node;
      hide HasSchemas, DefinedIn, BoxesSent;
    }
  }

  lemma {:induction false} PlansTooEarly(ack: Answers, d: Deployed, plans: seq<Plan>, source: Sources, m: Schemas,
                                         k: nat, i: nat, s: Stream)
    requires (forall p :: p in plans ==> HasSchemas(p, source, m) && Distinct(p.boxes)) && PlansWired(plans, source)
    requires AllTaken(ack) && Untouched(d, plans) && k < |plans|
    requires Misplaced(plans[k].boxes, plans[k].node, source, i, s) && s !in plans[k].inputs
    ensures TooEarly(TraceAt(DeployNodes(ack, d, plans, source, m).1, plans[k].node), plans[k].boxes[i], s)
    decreases |plans|
  {
    var (_, d1) := DeployNode(ack, d, plans[0], source, m);
    assert plans[0] in plans && plans[k] in plans;
    UntouchedRest(ack, d, plans, source, m);
    hide HasSchemas, TooEarly, Misplaced, DeployNode, Untouched;
    if k == 0 {
      assert forall b :: b in plans[0].boxes ==> b.node == plans[0].node;
      OnlyPlan(ack, d, plans, source, m, i, s);
      TracesGrow(ack, d1, plans[1..], source, m, plans[0].node);
      StaysTooEarly(TraceAt(d1, plans[0].node), TraceAt(DeployNodes(ack, d1, plans[1..], source, m).1, plans[0].node),
                    plans[0].boxes[i], s);
    } else {
      assert plans[1..][k - 1] == plans[k];
      PlansTooEarly(ack, d1, plans[1..], source, m, k - 1, i, s);
    }
  }

  lemma OnlyPlan(ack: Answers, d: Deployed, plans: seq<Plan>, source: Sources, m: Schemas, i: nat, s: Stream)
    requires plans != [] && PlansWired(plans, source) && Untouched(d, plans) && AllTaken(ack)
    requires HasSchemas(plans[0], source, m) && Distinct(plans[0].boxes)
    requires Misplaced(plans[0].boxes, plans[0].node, source, i, s) && s !in plans[0].inputs
    ensures TooEarly(TraceAt(DeployNode(ack, d, plans[0], source, m).1, plans[0].node), plans[0].boxes[i], s)
  {
    assert plans[0] in plans;
    hide HasSchemas, TooEarly, Misplaced, DeployNode;
    PlanTooEarly(ack, d, plans[0], source, m, i, s);
  }

  ghost predicate AllOrdered(plans: seq<Plan>, source: Sources) {
    forall p :: p in plans ==> Ordered(p, source)
  }

  lemma MisplacedBox(plans: seq<Plan>, source: Sources) returns (k: nat, i: nat, s: Stream)
    requires PlansWired(plans, source) && !AllOrdered(plans, source)
    ensures k < |plans| && Misplaced(plans[k].boxes, plans[k].node, source, i, s) && s !in plans[k].inputs
  {
    var p :| p in plans && !Ordered(p, source);
    k :| 0 <= k < |plans| && plans[k] == p;
    i, s :| 0 <= i < |p.boxes| && s in p.boxes[i].ins && !Remote(s, source, p.node)
            && !(s in p.inputs || exists j :: 0 <= j < i && s in p.boxes[j].outs);
  }

  /** Whatever the nodes answer every trace is in order, exactly when on every node each
      box is listed after those of its node it reads from, and no node is subscribed,
      before its turn, to a stream that one of its boxes reads. */
  lemma InOrderIff(plans: seq<Plan>, source: Sources, m: Schemas)
    requires forall p :: p in plans ==> HasSchemas(p, source, m) && Distinct(p.boxes)
    requires PlansWired(plans, source)
    ensures (forall ack: Answers :: AllInOrder(DeployNodes(ack, NOTHING, plans, source, m).1, m)) <==>
            AllOrdered(plans, source) && NoneHidden(plans)
  {
    hide HasSchemas, PlansWired, AllInOrder, NoneHidden, Ordered, Distinct;
    if AllOrdered(plans, source) {
      InOrderIffNoneHidden(plans, source, m);
    } else {
      var k, i, s := MisplacedBox(plans, source);
      var ack: Answers := n => true;
      PlansTooEarly(ack, NOTHING, plans, source, m, k, i, s);
      TooEarlyIsWrong(DeployNodes(ack, NOTHING, plans, source, m).1, plans[k].node, plans[k].boxes[i], s, m);
    }
  }
}
