/**
  How far a deployment gets: when it ends well, what the traces then hold, and that
  they hold nothing else.
*/
module DeploymentReach {
  import opened Basics
  import opened Network
  import opened Deployment

  // ----- the last answer decides

  /** The status is the answer to the last send; without one it is what it was. */
  ghost predicate LastDecides(ack: Answers, d: Deployed, status: bool, ok: bool, d': Deployed) {
    && d.sent <= d'.sent
    && (ok <==> if d'.sent == d.sent then status else ack(d'.sent - 1))
  }

  lemma {:induction false} ElementsLast(ack: Answers, d: Deployed, node: Node, schema: Schema, fields: seq<Field>, status: bool)
    ensures var (ok, d') := SendElements(ack, d, node, schema, fields, status); LastDecides(ack, d, status, ok, d')
    decreases |fields|
  {
    if fields != [] {
      var e := fields[0].element;
      if fields[0].kind == ARRAY && e.Some? && e.value !in SchemasAt(d, node) {
        var (ok, d1) := Send(ack, d, node, SchemaMsg(e.value));
        ElementsLast(ack, if ok then MarkSchema(d1, node, schema) else d1, node, schema, fields[1..], ok);
      } else {
        ElementsLast(ack, d, node, schema, fields[1..], status);
      }
    }
  }

  lemma SchemaLast(ack: Answers, d: Deployed, node: Node, schema: Schema)
    ensures var (ok, d') := DeploySchema(ack, d, node, schema); LastDecides(ack, d, true, ok, d')
  {
    ElementsLast(ack, d, node, schema, schema.fields, true);
  }

  lemma {:induction false} InputLast(ack: Answers, d: Deployed, node: Node, inputs: seq<Stream>, m: Schemas)
    requires forall s :: s in inputs ==> s in m
    ensures var (ok, d') := DeployInput(ack, d, node, inputs, m); LastDecides(ack, d, true, ok, d')
    decreases |inputs|
  {
    hide DeploySchema;
    if inputs != [] {
      var s := inputs[0];
      if s in StreamsAt(d, node) {
        InputLast(ack, d, node, inputs[1..], m);
      } else {
        SchemaLast(ack, d, node, m[s]);
        var (known, d1) := DeploySchema(ack, d, node, m[s]);
        if known {
          InputLast(ack, Send(ack, MarkStream(d1, node, s), node, InputMsg(s)).1, node, inputs[1..], m);
        }
      }
    }
  }

  lemma {:induction false} InsLast(ack: Answers, d: Deployed, node: Node, ins: seq<Stream>, source: Sources, m: Schemas)
    requires forall s :: s in ins && s in source ==> s in m
    ensures var (ok, d') := DeployIns(ack, d, node, ins, source, m); LastDecides(ack, d, true, ok, d')
    decreases |ins|
  {
    hide DeploySchema;
    if ins != [] {
      var s := ins[0];
      if !Remote(s, source, node) {
        InsLast(ack, d, node, ins[1..], source, m);
      } else {
        SchemaLast(ack, d, node, m[s]);
        var (known, d1) := DeploySchema(ack, d, node, m[s]);
        if known && s in StreamsAt(d1, node) {
          InsLast(ack, d1, node, ins[1..], source, m);
        } else if known {
          var d2 := Send(ack, d1, node, RemoteInputMsg(s, source[s].node)).1;
          InsLast(ack, MarkStream(d2, node, s), node, ins[1..], source, m);
        }
      }
    }
  }

  lemma {:induction false} BoxesLast(ack: Answers, d: Deployed, node: Node, boxes: seq<Box>, source: Sources, m: Schemas)
    requires forall b, s :: b in boxes && s in b.ins && s in source ==> s in m
    ensures var (ok, d') := DeployBoxes(ack, d, node, boxes, source, m); LastDecides(ack, d, true, ok, d')
    decreases |boxes|
  {
    hide DeployIns;
    if boxes != [] {
      if boxes[0] in d.boxes {
        BoxesLast(ack, d, node, boxes[1..], source, m);
      } else {
        InsLast(ack, d, node, boxes[0].ins, source, m);
        BoxesLast(ack, DeployBox(ack, d, node, boxes[0], source, m).1, node, boxes[1..], source, m);
      }
    }
  }

  lemma {:induction false} OutputLast(ack: Answers, d: Deployed, node: Node, output: seq<Subscription>, status: bool)
    ensures var (ok, d') := DeployOutput(ack, d, node, output, status); LastDecides(ack, d, status, ok, d')
    decreases |output|
  {
    if output != [] {
      var o := output[0];
      if o.stream in StreamsAt(d, o.endpoint) {
        OutputLast(ack, d, node, output[1..], status);
      } else {
        var (ok, d1) := Send(ack, d, node, SubscribeMsg(o.stream, o.endpoint));
        OutputLast(ack, if ok then MarkStream(d1, o.endpoint, o.stream) else d1, node, output[1..], ok);
      }
    }
  }

  lemma NodeLast(ack: Answers, d: Deployed, p: Plan, source: Sources, m: Schemas)
    requires HasSchemas(p, source, m)
    ensures var (ok, d') := DeployNode(ack, d, p, source, m); LastDecides(ack, d, true, ok, d')
  {
    hide DeployInput, DeployBoxes, DeployOutput;
    InputLast(ack, d, p.node, p.inputs, m);
    var (ok1, d1) := DeployInput(ack, d, p.node, p.inputs, m);
    if ok1 {
      BoxesLast(ack, d1, p.node, p.boxes, source, m);
      var (ok2, d2) := DeployBoxes(ack, d1, p.node, p.boxes, source, m);
      OutputLast(ack, d2, p.node, p.output, true);
    }
  }

  lemma {:induction false} NodesLast(ack: Answers, d: Deployed, plans: seq<Plan>, source: Sources, m: Schemas)
    requires forall p :: p in plans ==> HasSchemas(p, source, m)
    ensures var (ok, d') := DeployNodes(ack, d, plans, source, m); LastDecides(ack, d, true, ok, d')
    decreases |plans|
  {
    if plans != [] {
      NodeLast(ack, d, plans[0], source, m);
      hide DeployNode, HasSchemas;
      var (ok, d1) := DeployNode(ack, d, plans[0], source, m);
      if ok {
        NodesLast(ack, d1, plans[1..], source, m);
      }
    }
  }

  // ----- the marks say what was taken

  /** By this message of its trace a node makes s known at an endpoint. */
  predicate Provides(node: Node, msg: Message, endpoint: Node, s: Stream) {
    match msg
    case InputMsg(t) => s == t && endpoint == node
    case RemoteInputMsg(t, _) => s == t && endpoint == node
    case SubscribeMsg(t, e) => s == t && endpoint == e
    case _ => false
  }

  /** Some node took a message that makes s known at the endpoint. */
  ghost predicate Provided(d: Deployed, endpoint: Node, s: Stream) {
    exists node, msg :: msg in TraceAt(d, node) && Provides(node, msg, endpoint, s)
  }

  /** The streams and boxes remembered are exactly those taken. */
  ghost predicate MarksExact(d: Deployed) {
    && (forall e, s :: s in StreamsAt(d, e) <==> Provided(d, e, s))
    && forall b :: b in d.boxes <==> exists node :: BoxMsg(b) in TraceAt(d, node)
  }

  /** Only schemas are sent again. */
  ghost predicate SentOnce(trace: seq<Message>) {
    forall i, j :: 0 <= i < j < |trace| && trace[i] == trace[j] ==> trace[i].SchemaMsg?
  }

  ghost predicate AllSentOnce(d: Deployed) {
    forall node :: SentOnce(TraceAt(d, node))
  }

  predicate Unmarked(d: Deployed, node: Node, msg: Message) {
    match msg
    case SchemaMsg(_) => true
    case InputMsg(s) => s !in StreamsAt(d, node)
    case RemoteInputMsg(s, _) => s !in StreamsAt(d, node)
    case BoxMsg(b) => b !in d.boxes
    case SubscribeMsg(s, e) => s !in StreamsAt(d, e)
  }

  lemma TakenIsMarked(d: Deployed, node: Node, msg: Message)
    requires MarksExact(d) && msg in TraceAt(d, node) && !msg.SchemaMsg?
    ensures !Unmarked(d, node, msg)
  {
    if !msg.BoxMsg? {
      var e := if msg.SubscribeMsg? then msg.endpoint else node;
      var s := match msg case InputMsg(s) => s case RemoteInputMsg(s, _) => s case SubscribeMsg(s, _) => s;
      assert Provides(node, msg, e, s);
    }
  }

  /** From d to d' a node took an unmarked message and it was marked. */
  ghost predicate Taking(d: Deployed, d': Deployed, node: Node, msg: Message) {
    && d'.trace == d.trace[node := TraceAt(d, node) + [msg]]
    && (forall e, s :: s in StreamsAt(d', e) <==> s in StreamsAt(d, e) || Provides(node, msg, e, s))
    && forall b :: b in d'.boxes <==> b in d.boxes || msg == BoxMsg(b)
  }

  lemma TakingKeeps(d: Deployed, d': Deployed, node: Node, msg: Message)
    requires MarksExact(d) && AllSentOnce(d) && Unmarked(d, node, msg) && Taking(d, d', node, msg)
    ensures MarksExact(d') && AllSentOnce(d')
  {
    assert forall n :: n != node ==> TraceAt(d', n) == TraceAt(d, n);
    assert TraceAt(d', node) == TraceAt(d, node) + [msg];
    forall e, s
      ensures s in StreamsAt(d', e) <==> Provided(d', e, s)
    {
      if Provided(d, e, s) {
        var n, x :| x in TraceAt(d, n) && Provides(n, x, e, s);
        assert x in TraceAt(d', n);
      }
      if Provides(node, msg, e, s) {
        assert msg in TraceAt(d', node);
      }
    }
    forall b
      ensures b in d'.boxes <==> exists n :: BoxMsg(b) in TraceAt(d', n)
    {
      if b in d.boxes {
        var n :| BoxMsg(b) in TraceAt(d, n);
        assert BoxMsg(b) in TraceAt(d', n);
      }
      if msg == BoxMsg(b) {
        assert BoxMsg(b) in TraceAt(d', node);
      }
    }
    if !msg.SchemaMsg? && msg in TraceAt(d, node) {
      TakenIsMarked(d, node, msg);
      assert false;
    }
    forall n
      ensures SentOnce(TraceAt(d', n))
    {
      assert SentOnce(TraceAt(d, n));
    }
  }

  // ----- what each plan calls for

  /** A box of the plan reads s, which comes from another node. */
  ghost predicate ReadsRemotely(p: Plan, source: Sources, s: Stream) {
    Remote(s, source, p.node) && exists b :: b in p.boxes && s in b.ins
  }

  /** The plan calls for a message to its node: a stream published there, a stream that one
      of its boxes reads from the node it comes from, a box, a subscription, and the schemas
      of these streams with their element schemas. */
  ghost predicate CallsFor(p: Plan, source: Sources, m: Schemas, msg: Message) {
    match msg
    case InputMsg(s) => s in p.inputs
    case RemoteInputMsg(s, from) => ReadsRemotely(p, source, s) && from == source[s].node
    case BoxMsg(b) => b in p.boxes
    case SubscribeMsg(s, endpoint) => Subscription(s, endpoint) in p.output
    case SchemaMsg(x) => exists s :: (s in p.inputs || ReadsRemotely(p, source, s)) && SchemaOf(m, s, x)
  }

  ghost predicate SchemaOf(m: Schemas, s: Stream, x: Schema) {
    s in m && (x == m[s] || x in Elements(m[s].fields))
  }

  /** From d to d' the plan's node took what the plan calls for and no other node anything. */
  ghost predicate TookCalled(d: Deployed, d': Deployed, p: Plan, source: Sources, m: Schemas) {
    && Grown(d, d')
    && (forall n :: n != p.node ==> TraceAt(d', n) == TraceAt(d, n))
    && forall msg :: msg in TraceAt(d', p.node) ==> msg in TraceAt(d, p.node) || CallsFor(p, source, m, msg)
  }

  /** What every part of a node's deployment keeps: traces without repetition, and if it
      ended well the marks. */
  ghost predicate Reached(d: Deployed, ok: bool, d': Deployed, p: Plan, source: Sources, m: Schemas) {
    AllSentOnce(d') && (ok ==> MarksExact(d')) && TookCalled(d, d', p, source, m)
  }

  lemma TookTwice(a: Deployed, b: Deployed, c: Deployed, p: Plan, source: Sources, m: Schemas)
    requires TookCalled(a, b, p, source, m) && TookCalled(b, c, p, source, m)
    ensures TookCalled(a, c, p, source, m)
  {
    hide CallsFor;
    GrownTwice(a, b, c);
  }

  lemma Took(d: Deployed, d': Deployed, p: Plan, source: Sources, m: Schemas, msg: Message)
    requires MarksExact(d) && AllSentOnce(d) && Unmarked(d, p.node, msg) && Taking(d, d', p.node, msg)
    requires CallsFor(p, source, m, msg)
    ensures Reached(d, true, d', p, source, m)
  {
    TakingKeeps(d, d', p.node, msg);
    hide MarksExact, AllSentOnce, CallsFor, Unmarked;
    assert forall n :: n != p.node ==> TraceAt(d', n) == TraceAt(d, n);
    assert TraceAt(d', p.node) == TraceAt(d, p.node) + [msg];
  }

  /** A send that was refused changes no trace and takes no mark away. */
  lemma Refused(d: Deployed, ok: bool, d': Deployed, p: Plan, source: Sources, m: Schemas)
    requires AllSentOnce(d) && d'.trace == d.trace && Grown(d, d')
    requires ok ==> MarksExact(d) && d'.boxes == d.boxes && forall e :: StreamsAt(d', e) == StreamsAt(d, e)
    ensures Reached(d, ok, d', p, source, m)
  {
    hide CallsFor;
    assert forall n :: TraceAt(d', n) == TraceAt(d, n);
    if ok {
      forall e, s
        ensures Provided(d', e, s) <==> Provided(d, e, s)
      {
        if Provided(d, e, s) {
          var n, x :| x in TraceAt(d, n) && Provides(n, x, e, s);
          assert x in TraceAt(d', n);
        }
      }
    }
  }

  lemma ReachedTwice(a: Deployed, b: Deployed, ok: bool, c: Deployed, p: Plan, source: Sources, m: Schemas)
    requires Reached(a, true, b, p, source, m) && Reached(b, ok, c, p, source, m)
    ensures Reached(a, ok, c, p, source, m)
  {
    hide MarksExact, AllSentOnce, TookCalled;
    TookTwice(a, b, c, p, source, m);
  }

  /** Sends an unmarked message and, if it was taken, marks what mark marks. */
  lemma SentAndMarked(ack: Answers, d: Deployed, p: Plan, source: Sources, m: Schemas, msg: Message, d': Deployed)
    requires MarksExact(d) && AllSentOnce(d) && Unmarked(d, p.node, msg) && CallsFor(p, source, m, msg)
    requires var (ok, d1) := Send(ack, d, p.node, msg);
             if ok then Taking(d, d', p.node, msg)
             else d'.trace == d1.trace && d'.boxes == d.boxes && forall e :: StreamsAt(d', e) == StreamsAt(d, e)
    ensures Reached(d, true, d', p, source, m)
  {
    hide CallsFor;
    var (ok, d1) := Send(ack, d, p.node, msg);
    if ok {
      Took(d, d', p, source, m, msg);
    } else {
      assert forall n :: TraceAt(d', n) == TraceAt(d, n);
      Refused(d, true, d', p, source, m);
    }
  }

  // ----- the parts of a node's deployment

  lemma {:induction false} ElementsReached(ack: Answers, d: Deployed, p: Plan, source: Sources, m: Schemas, schema: Schema,
                                           fields: seq<Field>, status: bool)
    requires MarksExact(d) && AllSentOnce(d)
    requires forall e :: e in Elements(fields) ==> CallsFor(p, source, m, SchemaMsg(e))
    ensures Reached(d, true, SendElements(ack, d, p.node, schema, fields, status).1, p, source, m)
    decreases |fields|
  {
    hide CallsFor, MarksExact, AllSentOnce;
    if fields == [] {
      assert forall n :: TraceAt(d, n) == TraceAt(d, n);
    } else {
      var e := fields[0].element;
      if fields[0].kind == ARRAY && e.Some? && e.value !in SchemasAt(d, p.node) {
        var (ok, d1) := Send(ack, d, p.node, SchemaMsg(e.value));
        var d2 := if ok then MarkSchema(d1, p.node, schema) else d1;
        assert e.value in Elements(fields);
        SentAndMarked(ack, d, p, source, m, SchemaMsg(e.value), d2);
        ElementsReached(ack, d2, p, source, m, schema, fields[1..], ok);
        ReachedTwice(d, d2, true, SendElements(ack, d2, p.node, schema, fields[1..], ok).1, p, source, m);
      } else {
        ElementsReached(ack, d, p, source, m, schema, fields[1..], status);
      }
    }
  }

  lemma SchemaReached(ack: Answers, d: Deployed, p: Plan, source: Sources, m: Schemas, s: Stream)
    requires MarksExact(d) && AllSentOnce(d)
    requires s in m && (s in p.inputs || ReadsRemotely(p, source, s))
    ensures Reached(d, true, DeploySchema(ack, d, p.node, m[s]).1, p, source, m)
    ensures DeploySchema(ack, d, p.node, m[s]).1.streams == d.streams
  {
    var schema := m[s];
    forall x | x == schema || x in Elements(schema.fields)
      ensures CallsFor(p, source, m, SchemaMsg(x))
    {
      assert SchemaOf(m, s, x);
    }
    hide CallsFor, MarksExact, AllSentOnce, Elements;
    if schema !in SchemasAt(d, p.node) {
      ElementsReached(ack, d, p, source, m, schema, schema.fields, true);
      ElementsLeaveStreams(ack, d, p.node, schema, schema.fields, true);
      var (status, d1) := SendElements(ack, d, p.node, schema, schema.fields, true);
      if status {
        var (ok, d2) := Send(ack, d1, p.node, SchemaMsg(schema));
        var d3 := if ok then MarkSchema(d2, p.node, schema) else d2;
        SentAndMarked(ack, d1, p, source, m, SchemaMsg(schema), d3);
        ReachedTwice(d, d1, true, d3, p, source, m);
      }
    }
  }

  lemma {:induction false} ElementsLeaveStreams(ack: Answers, d: Deployed, node: Node, schema: Schema, fields: seq<Field>, status: bool)
    ensures SendElements(ack, d, node, schema, fields, status).1.streams == d.streams
    decreases |fields|
  {
    if fields != [] {
      var e := fields[0].element;
      if fields[0].kind == ARRAY && e.Some? && e.value !in SchemasAt(d, node) {
        var (ok, d1) := Send(ack, d, node, SchemaMsg(e.value));
        ElementsLeaveStreams(ack, if ok then MarkSchema(d1, node, schema) else d1, node, schema, fields[1..], ok);
      } else {
        ElementsLeaveStreams(ack, d, node, schema, fields[1..], status);
      }
    }
  }

  /** An input is marked before it is sent, so that a refused one leaves a false mark. */
  lemma InputReached(ack: Answers, d: Deployed, p: Plan, source: Sources, m: Schemas, s: Stream)
    requires MarksExact(d) && AllSentOnce(d) && s in p.inputs && s !in StreamsAt(d, p.node)
    ensures var (ok, d') := Send(ack, MarkStream(d, p.node, s), p.node, InputMsg(s));
            Reached(d, ok, d', p, source, m) && s in StreamsAt(d', p.node)
  {
    var (ok, d') := Send(ack, MarkStream(d, p.node, s), p.node, InputMsg(s));
    if ok {
      Took(d, d', p, source, m, InputMsg(s));
    } else {
      assert forall n :: TraceAt(d', n) == TraceAt(d, n) && StreamsAt(d, n) <= StreamsAt(d', n);
      Refused(d, false, d', p, source, m);
    }
  }

  lemma {:induction false} InputsReached(ack: Answers, d: Deployed, p: Plan, inputs: seq<Stream>, source: Sources, m: Schemas)
    requires MarksExact(d) && AllSentOnce(d)
    requires forall s :: s in inputs ==> s in m && s in p.inputs
    ensures var (ok, d') := DeployInput(ack, d, p.node, inputs, m);
            && Reached(d, ok, d', p, source, m)
            && (ok ==> forall s :: s in inputs ==> s in StreamsAt(d', p.node))
    decreases |inputs|
  {
    hide CallsFor, MarksExact, AllSentOnce, DeploySchema;
    if inputs == [] {
      Refused(d, true, d, p, source, m);
    } else {
      var s := inputs[0];
      if s in StreamsAt(d, p.node) {
        InputsReached(ack, d, p, inputs[1..], source, m);
      } else {
        SchemaReached(ack, d, p, source, m, s);
        var (known, d1) := DeploySchema(ack, d, p.node, m[s]);
        if known {
          InputReached(ack, d1, p, source, m, s);
          var (ok, d2) := Send(ack, MarkStream(d1, p.node, s), p.node, InputMsg(s));
          ReachedTwice(d, d1, ok, d2, p, source, m);
          if ok {
            InputsReached(ack, d2, p, inputs[1..], source, m);
            var (ok', d') := DeployInput(ack, d2, p.node, inputs[1..], m);
            ReachedTwice(d, d2, ok', d', p, source, m);
          }
        }
      }
    }
  }

  lemma {:induction false} InsReached(ack: Answers, d: Deployed, p: Plan, ins: seq<Stream>, source: Sources, m: Schemas)
    requires MarksExact(d) && AllSentOnce(d)
    requires forall s :: s in ins && s in source ==> s in m
    requires forall s :: s in ins && Remote(s, source, p.node) ==> ReadsRemotely(p, source, s)
    ensures var (ok, d') := DeployIns(ack, d, p.node, ins, source, m); Reached(d, true, d', p, source, m)
    decreases |ins|
  {
    hide CallsFor, MarksExact, AllSentOnce, DeploySchema;
    if ins == [] {
      Refused(d, true, d, p, source, m);
    } else {
      var s := ins[0];
      if !Remote(s, source, p.node) {
        InsReached(ack, d, p, ins[1..], source, m);
      } else {
        SchemaReached(ack, d, p, source, m, s);
        var (known, d1) := DeploySchema(ack, d, p.node, m[s]);
        if known && s in StreamsAt(d1, p.node) {
          InsReached(ack, d1, p, ins[1..], source, m);
          ReachedTwice(d, d1, true, DeployIns(ack, d1, p.node, ins[1..], source, m).1, p, source, m);
        } else if known {
          RemoteReached(ack, d1, p, source, m, s);
          var (ok, d2) := Send(ack, d1, p.node, RemoteInputMsg(s, source[s].node));
          var d3 := if ok then MarkStream(d2, p.node, s) else d2;
          ReachedTwice(d, d1, true, d3, p, source, m);
          if ok {
            InsReached(ack, d3, p, ins[1..], source, m);
            ReachedTwice(d, d3, true, DeployIns(ack, d3, p.node, ins[1..], source, m).1, p, source, m);
          }
        }
      }
    }
  }

  lemma RemoteReached(ack: Answers, d: Deployed, p: Plan, source: Sources, m: Schemas, s: Stream)
    requires MarksExact(d) && AllSentOnce(d) && ReadsRemotely(p, source, s) && s !in StreamsAt(d, p.node)
    ensures var (ok, d') := Send(ack, d, p.node, RemoteInputMsg(s, source[s].node));
            Reached(d, true, if ok then MarkStream(d', p.node, s) else d', p, source, m)
  {
    var (ok, d') := Send(ack, d, p.node, RemoteInputMsg(s, source[s].node));
    SentAndMarked(ack, d, p, source, m, RemoteInputMsg(s, source[s].node), if ok then MarkStream(d', p.node, s) else d');
  }

  lemma {:induction false} BoxesReached(ack: Answers, d: Deployed, p: Plan, boxes: seq<Box>, source: Sources, m: Schemas)
    requires MarksExact(d) && AllSentOnce(d)
    requires forall b, s :: b in boxes && s in b.ins && s in source ==> s in m
    requires forall b :: b in boxes ==> b in p.boxes
    ensures var (ok, d') := DeployBoxes(ack, d, p.node, boxes, source, m);
            && Reached(d, true, d', p, source, m)
            && (ok ==> forall b :: b in boxes ==> b in d'.boxes)
    decreases |boxes|
  {
    hide CallsFor, MarksExact, AllSentOnce, DeployIns;
    if boxes == [] {
      Refused(d, true, d, p, source, m);
    } else {
      var b := boxes[0];
      if b in d.boxes {
        BoxesReached(ack, d, p, boxes[1..], source, m);
      } else {
        BoxReached(ack, d, p, b, source, m);
        var (ok, d1) := DeployBox(ack, d, p.node, b, source, m);
        if ok {
          BoxesReached(ack, d1, p, boxes[1..], source, m);
          ReachedTwice(d, d1, true, DeployBoxes(ack, d1, p.node, boxes[1..], source, m).1, p, source, m);
        }
      }
    }
  }

  lemma BoxReached(ack: Answers, d: Deployed, p: Plan, b: Box, source: Sources, m: Schemas)
    requires MarksExact(d) && AllSentOnce(d)
    requires b in p.boxes && b !in d.boxes && forall s :: s in b.ins && s in source ==> s in m
    ensures var (ok, d') := DeployBox(ack, d, p.node, b, source, m);
            Reached(d, true, d', p, source, m) && (ok ==> b in d'.boxes)
  {
    InsReached(ack, d, p, b.ins, source, m);
    InsLeaveBoxes(ack, d, p.node, b.ins, source, m);
    var (ready, d1) := DeployIns(ack, d, p.node, b.ins, source, m);
    if ready {
      var (ok, d2) := Send(ack, d1, p.node, BoxMsg(b));
      var d3 := if ok then d2.(boxes := d2.boxes + {b}) else d2;
      SentAndMarked(ack, d1, p, source, m, BoxMsg(b), d3);
      ReachedTwice(d, d1, true, d3, p, source, m);
    }
  }

  lemma {:induction false} InsLeaveBoxes(ack: Answers, d: Deployed, node: Node, ins: seq<Stream>, source: Sources, m: Schemas)
    requires forall s :: s in ins && s in source ==> s in m
    ensures DeployIns(ack, d, node, ins, source, m).1.boxes == d.boxes
    decreases |ins|
  {
    if ins != [] {
      var s := ins[0];
      if !Remote(s, source, node) {
        InsLeaveBoxes(ack, d, node, ins[1..], source, m);
      } else {
        ElementsLeaveBoxes(ack, d, node, m[s], m[s].fields, true);
        var (known, d1) := DeploySchema(ack, d, node, m[s]);
        if s in StreamsAt(d1, node) {
          InsLeaveBoxes(ack, d1, node, ins[1..], source, m);
        } else {
          var d2 := Send(ack, d1, node, RemoteInputMsg(s, source[s].node)).1;
          InsLeaveBoxes(ack, MarkStream(d2, node, s), node, ins[1..], source, m);
        }
      }
    }
  }

  lemma {:induction false} ElementsLeaveBoxes(ack: Answers, d: Deployed, node: Node, schema: Schema, fields: seq<Field>, status: bool)
    ensures SendElements(ack, d, node, schema, fields, status).1.boxes == d.boxes
    decreases |fields|
  {
    if fields != [] {
      var e := fields[0].element;
      if fields[0].kind == ARRAY && e.Some? && e.value !in SchemasAt(d, node) {
        var (ok, d1) := Send(ack, d, node, SchemaMsg(e.value));
        ElementsLeaveBoxes(ack, if ok then MarkSchema(d1, node, schema) else d1, node, schema, fields[1..], ok);
      } else {
        ElementsLeaveBoxes(ack, d, node, schema, fields[1..], status);
      }
    }
  }

  /** Every send from d to d' was taken. */
  ghost predicate AllTaken(ack: Answers, d: Deployed, d': Deployed) {
    forall n :: d.sent <= n < d'.sent ==> ack(n)
  }

  lemma {:induction false} OutputReached(ack: Answers, d: Deployed, p: Plan, output: seq<Subscription>, status: bool,
                                         source: Sources, m: Schemas)
    requires MarksExact(d) && AllSentOnce(d) && forall o :: o in output ==> o in p.output
    ensures var (ok, d') := DeployOutput(ack, d, p.node, output, status);
            && Reached(d, true, d', p, source, m)
            && (AllTaken(ack, d, d') ==> forall o :: o in output ==> o.stream in StreamsAt(d', o.endpoint))
    decreases |output|
  {
    hide CallsFor, MarksExact, AllSentOnce;
    if output == [] {
      Refused(d, true, d, p, source, m);
    } else {
      var o := output[0];
      if o.stream in StreamsAt(d, o.endpoint) {
        OutputReached(ack, d, p, output[1..], status, source, m);
      } else {
        var (ok, d1) := Send(ack, d, p.node, SubscribeMsg(o.stream, o.endpoint));
        var d2 := if ok then MarkStream(d1, o.endpoint, o.stream) else d1;
        SubscriptionReached(ack, d, p, o, source, m);
        OutputReached(ack, d2, p, output[1..], ok, source, m);
        OutputLast(ack, d2, p.node, output[1..], ok);
        ReachedTwice(d, d2, true, DeployOutput(ack, d2, p.node, output[1..], ok).1, p, source, m);
      }
    }
  }

  lemma SubscriptionReached(ack: Answers, d: Deployed, p: Plan, o: Subscription, source: Sources, m: Schemas)
    requires MarksExact(d) && AllSentOnce(d) && o in p.output && o.stream !in StreamsAt(d, o.endpoint)
    ensures var (ok, d') := Send(ack, d, p.node, SubscribeMsg(o.stream, o.endpoint));
            Reached(d, true, if ok then MarkStream(d', o.endpoint, o.stream) else d', p, source, m)
  {
    var msg := SubscribeMsg(o.stream, o.endpoint);
    assert o == Subscription(o.stream, o.endpoint);
    var (ok, d') := Send(ack, d, p.node, msg);
    SentAndMarked(ack, d, p, source, m, msg, if ok then MarkStream(d', o.endpoint, o.stream) else d');
  }

  // ----- whole deployments

  /** One of the plans, for this node, calls for the message. */
  ghost predicate Called(plans: seq<Plan>, source: Sources, m: Schemas, node: Node, msg: Message) {
    exists p :: p in plans && p.node == node && CallsFor(p, source, m, msg)
  }

  /** What was added to the traces was called for. */
  ghost predicate OnlyCalled(d: Deployed, d': Deployed, plans: seq<Plan>, source: Sources, m: Schemas) {
    forall node, msg :: msg in TraceAt(d', node) ==> msg in TraceAt(d, node) || Called(plans, source, m, node, msg)
  }

  /** Every published stream of the plans and every box is remembered. */
  ghost predicate InputsAndBoxes(d: Deployed, plans: seq<Plan>) {
    forall p :: p in plans ==>
                  (forall s :: s in p.inputs ==> s in StreamsAt(d, p.node)) && forall b :: b in p.boxes ==> b in d.boxes
  }

  ghost predicate Subscribed(d: Deployed, plans: seq<Plan>) {
    forall p, o :: p in plans && o in p.output ==> o.stream in StreamsAt(d, o.endpoint)
  }

  lemma NodeReached(ack: Answers, d: Deployed, p: Plan, source: Sources, m: Schemas)
    requires HasSchemas(p, source, m) && MarksExact(d) && AllSentOnce(d)
    ensures var (ok, d') := DeployNode(ack, d, p, source, m);
            && Reached(d, ok, d', p, source, m)
            && (ok ==> InputsAndBoxes(d', [p]))
            && (ok && AllTaken(ack, d, d') ==> Subscribed(d', [p]))
  {
    InputsReached(ack, d, p, p.inputs, source, m);
    var (ok1, d1) := DeployInput(ack, d, p.node, p.inputs, m);
    if ok1 {
      BoxesReached(ack, d1, p, p.boxes, source, m);
      var (ok2, d2) := DeployBoxes(ack, d1, p.node, p.boxes, source, m);
      hide CallsFor, MarksExact, AllSentOnce, DeployInput, DeployBoxes, DeployOutput;
      ReachedTwice(d, d1, true, d2, p, source, m);
      if ok2 {
        OutputReached(ack, d2, p, p.output, true, source, m);
        var (ok', d') := DeployOutput(ack, d2, p.node, p.output, true);
        InputLast(ack, d, p.node, p.inputs, m);
        BoxesLast(ack, d1, p.node, p.boxes, source, m);
        AllReachedAt(ack, d, d1, d2, d', ok', p, source, m);
      }
    }
  }

  lemma AllReachedAt(ack: Answers, d: Deployed, d1: Deployed, d2: Deployed, d': Deployed, ok: bool, p: Plan, source: Sources, m: Schemas)
    requires d.sent <= d1.sent <= d2.sent
    requires Reached(d, true, d2, p, source, m) && Reached(d1, true, d2, p, source, m) && Reached(d2, true, d', p, source, m)
    requires forall s :: s in p.inputs ==> s in StreamsAt(d1, p.node)
    requires forall b :: b in p.boxes ==> b in d2.boxes
    requires AllTaken(ack, d2, d') ==> forall o :: o in p.output ==> o.stream in StreamsAt(d', o.endpoint)
    ensures Reached(d, ok, d', p, source, m) && InputsAndBoxes(d', [p])
    ensures AllTaken(ack, d, d') ==> Subscribed(d', [p])
  {
    hide CallsFor, MarksExact, AllSentOnce;
    ReachedTwice(d, d2, true, d', p, source, m);
    ReachedTwice(d1, d2, true, d', p, source, m);
    assert StreamsAt(d1, p.node) <= StreamsAt(d', p.node) && d2.boxes <= d'.boxes;
  }

  lemma {:induction false} NodesReached(ack: Answers, d: Deployed, plans: seq<Plan>, source: Sources, m: Schemas)
    requires forall p :: p in plans ==> HasSchemas(p, source, m)
    requires MarksExact(d) && AllSentOnce(d)
    ensures var (ok, d') := DeployNodes(ack, d, plans, source, m);
            && Grown(d, d') && AllSentOnce(d') && OnlyCalled(d, d', plans, source, m)
            && (ok ==> MarksExact(d') && InputsAndBoxes(d', plans))
            && (ok && AllTaken(ack, d, d') ==> Subscribed(d', plans))
    decreases |plans|
  {
    if plans != [] {
      var p, rest := plans[0], plans[1..];
      NodeReached(ack, d, p, source, m);
      NodeLast(ack, d, p, source, m);
      hide DeployNode, CallsFor, MarksExact, AllSentOnce, HasSchemas;
      var (ok, d1) := DeployNode(ack, d, p, source, m);
      assert OnlyCalled(d, d1, plans, source, m);
      if ok {
        NodesReached(ack, d1, rest, source, m);
        NodesLast(ack, d1, rest, source, m);
        var (ok', d') := DeployNodes(ack, d1, rest, source, m);
        GrownTwice(d, d1, d');
        RestReached(ack, d, d1, d', plans, source, m, ok');
      }
    }
  }

  lemma RestReached(ack: Answers, d: Deployed, d1: Deployed, d': Deployed, plans: seq<Plan>, source: Sources, m: Schemas, ok: bool)
    requires plans != [] && d.sent <= d1.sent <= d'.sent
    requires Grown(d1, d') && OnlyCalled(d, d1, plans, source, m) && OnlyCalled(d1, d', plans[1..], source, m)
    requires ok ==> InputsAndBoxes(d1, [plans[0]]) && InputsAndBoxes(d', plans[1..])
    requires AllTaken(ack, d, d1) ==> Subscribed(d1, [plans[0]])
    requires ok && AllTaken(ack, d1, d') ==> Subscribed(d', plans[1..])
    ensures OnlyCalled(d, d', plans, source, m)
    ensures ok ==> InputsAndBoxes(d', plans)
    ensures ok && AllTaken(ack, d, d') ==> Subscribed(d', plans)
  {
    hide CallsFor;
    assert forall p :: p in plans <==> p in [plans[0]] || p in plans[1..];
  }

  // ----- subscriptions that are lost

  /** The subscriptions a call sends: those whose stream is not marked at their endpoint. */
  function ToSubscribe(d: Deployed, output: seq<Subscription>): (r: seq<Subscription>)
    ensures forall o :: o in r <==> o in output && o.stream !in StreamsAt(d, o.endpoint)
    decreases |output|
  {
    if output == [] then []
    else if output[0].stream in StreamsAt(d, output[0].endpoint) then ToSubscribe(d, output[1..])
    else [output[0]] + ToSubscribe(d, output[1..])
  }

  lemma {:induction false} MarkedOther(d: Deployed, o: Subscription, output: seq<Subscription>)
    requires o !in output
    ensures ToSubscribe(MarkStream(d, o.endpoint, o.stream), output) == ToSubscribe(d, output)
    decreases |output|
  {
    if output != [] {
      assert output[0] != o;
      MarkedOther(d, o, output[1..]);
    }
  }

  /** Sent from send n on, this one of the list was taken. */
  predicate WasTaken(ack: Answers, n: nat, list: seq<Subscription>, o: Subscription)
    decreases |list|
  {
    list != [] && ((list[0] == o && ack(n)) || WasTaken(ack, n + 1, list[1..], o))
  }

  /** From d to d' the subscriptions of list were sent in turn, whatever the answers; the last
      decides, and one is marked afterwards exactly if it was before or was taken. */
  ghost predicate SentSubscriptions(ack: Answers, d: Deployed, list: seq<Subscription>, status: bool, ok: bool, d': Deployed) {
    && d'.sent == d.sent + |list|
    && (ok <==> if list == [] then status else ack(d.sent + |list| - 1))
    && forall o: Subscription :: o.stream in StreamsAt(d', o.endpoint) <==>
                                   o.stream in StreamsAt(d, o.endpoint) || WasTaken(ack, d.sent, list, o)
  }

  lemma OneMoreSubscription(ack: Answers, d: Deployed, node: Node, o: Subscription, rest: seq<Subscription>, status: bool,
                            ok': bool, d': Deployed)
    requires var (ok, d1) := Send(ack, d, node, SubscribeMsg(o.stream, o.endpoint));
             SentSubscriptions(ack, if ok then MarkStream(d1, o.endpoint, o.stream) else d1, rest, ok, ok', d')
    ensures SentSubscriptions(ack, d, [o] + rest, status, ok', d')
  {
    assert ([o] + rest)[1..] == rest;
    var (ok, d1) := Send(ack, d, node, SubscribeMsg(o.stream, o.endpoint));
    var d2 := if ok then MarkStream(d1, o.endpoint, o.stream) else d1;
    assert forall x: Subscription :: x.stream in StreamsAt(d2, x.endpoint) <==>
                                       x.stream in StreamsAt(d, x.endpoint) || (x == o && ok);
  }

  lemma {:induction false} OutputExact(ack: Answers, d: Deployed, node: Node, output: seq<Subscription>, status: bool)
    requires Distinct(output)
    ensures var (ok, d') := DeployOutput(ack, d, node, output, status);
            SentSubscriptions(ack, d, ToSubscribe(d, output), status, ok, d')
    decreases |output|
  {
    if output != [] {
      var o := output[0];
      hide WasTaken, SentSubscriptions;
      if o.stream in StreamsAt(d, o.endpoint) {
        OutputExact(ack, d, node, output[1..], status);
      } else {
        var (ok, d1) := Send(ack, d, node, SubscribeMsg(o.stream, o.endpoint));
        var d2 := if ok then MarkStream(d1, o.endpoint, o.stream) else d1;
        assert o !in output[1..];
        MarkedOther(d1, o, output[1..]);
        SameToSubscribe(d, d1, output[1..]);
        var rest := ToSubscribe(d, output[1..]);
        assert ToSubscribe(d2, output[1..]) == rest;
        OutputExact(ack, d2, node, output[1..], ok);
        var (ok', d') := DeployOutput(ack, d2, node, output[1..], ok);
        OneMoreSubscription(ack, d, node, o, rest, status, ok', d');
      }
    } else {
      assert ToSubscribe(d, output) == [];
    }
  }

  lemma {:induction false} SameToSubscribe(d: Deployed, d': Deployed, output: seq<Subscription>)
    requires d'.streams == d.streams
    ensures ToSubscribe(d', output) == ToSubscribe(d, output)
    decreases |output|
  {
    if output != [] {
      SameToSubscribe(d, d', output[1..]);
    }
  }

  /** A send from n to before to was refused. */
  ghost predicate SomeRefused(ack: Answers, n: nat, to: nat) {
    exists k :: n <= k < to && !ack(k)
  }

  /** One of the list, sent from send n on, was not taken. */
  ghost predicate SomeNotTaken(ack: Answers, n: nat, list: seq<Subscription>) {
    exists o :: o in list && !WasTaken(ack, n, list, o)
  }

  /** A subscriber does not know of its stream. */
  ghost predicate SomeLeftOut(d: Deployed, output: seq<Subscription>) {
    exists o: Subscription :: o in output && o.stream !in StreamsAt(d, o.endpoint)
  }

  lemma {:induction false} TakenIsListed(ack: Answers, n: nat, list: seq<Subscription>, o: Subscription)
    requires WasTaken(ack, n, list, o)
    ensures o in list
    decreases |list|
  {
    if !(list[0] == o && ack(n)) {
      TakenIsListed(ack, n + 1, list[1..], o);
    }
  }

  lemma {:induction false} RefusedIsNotTaken(ack: Answers, n: nat, list: seq<Subscription>)
    requires Distinct(list)
    ensures SomeNotTaken(ack, n, list) <==> SomeRefused(ack, n, n + |list|)
    decreases |list|
  {
    if list != [] {
      var rest := list[1..];
      RefusedIsNotTaken(ack, n + 1, rest);
      assert list[0] !in rest;
      if WasTaken(ack, n + 1, rest, list[0]) {
        TakenIsListed(ack, n + 1, rest, list[0]);
        assert false;
      }
      if SomeRefused(ack, n, n + |list|) {
        if !ack(n) {
          assert list[0] in list && !WasTaken(ack, n, list, list[0]);
        } else {
          assert SomeRefused(ack, n + 1, n + 1 + |rest|);
          var o :| o in rest && !WasTaken(ack, n + 1, rest, o);
          assert o in list && !WasTaken(ack, n, list, o);
        }
      }
      if SomeNotTaken(ack, n, list) {
        var o :| o in list && !WasTaken(ack, n, list, o);
        assert o == list[0] || o in rest;
      }
    }
  }

  lemma LeftOutIff(ack: Answers, d: Deployed, output: seq<Subscription>, ok: bool, d': Deployed)
    requires SentSubscriptions(ack, d, ToSubscribe(d, output), true, ok, d')
    ensures SomeLeftOut(d', output) <==> SomeNotTaken(ack, d.sent, ToSubscribe(d, output))
  {
    hide WasTaken;
    forall o: Subscription
      ensures o in output && o.stream !in StreamsAt(d', o.endpoint) <==>
              o in ToSubscribe(d, output) && !WasTaken(ack, d.sent, ToSubscribe(d, output), o)
    {
    }
  }

  /** The call ends well and yet leaves a subscriber out exactly when the last subscription
      sent is taken and an earlier one refused. */
  lemma SubscriptionLostIff(ack: Answers, d: Deployed, node: Node, output: seq<Subscription>)
    requires Distinct(output)
    ensures var (ok, d') := DeployOutput(ack, d, node, output, true);
            var n := |ToSubscribe(d, output)|;
            ok && SomeLeftOut(d', output) <==> n > 0 && ack(d.sent + n - 1) && SomeRefused(ack, d.sent, d.sent + n)
  {
    OutputExact(ack, d, node, output, true);
    DistinctToSubscribe(d, output);
    RefusedIsNotTaken(ack, d.sent, ToSubscribe(d, output));
    var (ok, d') := DeployOutput(ack, d, node, output, true);
    LeftOutIff(ack, d, output, ok, d');
    hide WasTaken, SomeRefused, SomeNotTaken, SomeLeftOut, DeployOutput;
    NothingSent(ack, d.sent);
  }

  lemma NothingSent(ack: Answers, n: nat)
    ensures !SomeRefused(ack, n, n)
  {
  }

  lemma {:induction false} DistinctToSubscribe(d: Deployed, output: seq<Subscription>)
    requires Distinct(output)
    ensures Distinct(ToSubscribe(d, output))
    decreases |output|
  {
    if output != [] {
      DistinctToSubscribe(d, output[1..]);
      assert output[0] !in output[1..];
    }
  }

  /** As with two subscriptions of which the first is refused: the deployment ends well and
      no node has told the first subscriber of its stream. */
  lemma SubscriptionLost(node: Node, o: Subscription, last: Subscription)
    requires o != last
    ensures var (ok, d) := DeployNodes(n => n != 0, NOTHING, [Plan(node, [], [], [o, last])], map[], map[]);
            ok && !Provided(d, o.endpoint, o.stream)
  {
    var p := Plan(node, [], [], [o, last]);
    var ack: Answers := n => n != 0;
    assert [p][1..] == [] && [o, last][1..] == [last] && [last][1..] == [];
    var msg := SubscribeMsg(last.stream, last.endpoint);
    var d1 := Deployed(1, {}, map[], map[], map[]);
    var d2 := MarkStream(Deployed(2, {}, map[], map[], map[node := [msg]]), last.endpoint, last.stream);
    assert TraceAt(d1, node) == [] && [] + [msg] == [msg];
    assert DeployOutput(ack, NOTHING, node, [o, last], true) == DeployOutput(ack, d1, node, [last], false);
    assert DeployOutput(ack, d1, node, [last], false) == (true, d2);
    assert DeployNode(ack, NOTHING, p, map[], map[]) == (true, d2);
  }
}
