/**
  The messages the deployer sends each node and the sets by which it remembers
  what it has sent.  Every send is answered; ack(n) is the answer to send n.
*/
module Deployment {
  import opened Basics
  import opened Network

  datatype Message =
    | SchemaMsg(schema: Schema)
    | InputMsg(input: Stream)
    | RemoteInputMsg(remote: Stream, from: Node)
    | BoxMsg(box: Box)
    | SubscribeMsg(subscribed: Stream, endpoint: Node)

  type Answers = nat -> bool

  datatype Subscription = Subscription(stream: Stream, endpoint: Node)

  /** sent counts the sends so far; trace holds what each node acknowledged. */
  datatype Deployed = Deployed(sent: nat, boxes: set<Box>, streams: map<Node, set<Stream>>,
                               schemas: map<Node, set<Schema>>, trace: map<Node, seq<Message>>)

  const NOTHING := Deployed(0, {}, map[], map[], map[])

  function StreamsAt(d: Deployed, node: Node): set<Stream> {
    if node in d.streams then d.streams[node] else {}
  }

  function SchemasAt(d: Deployed, node: Node): set<Schema> {
    if node in d.schemas then d.schemas[node] else {}
  }

  function TraceAt(d: Deployed, node: Node): seq<Message> {
    if node in d.trace then d.trace[node] else []
  }

  function MarkStream(d: Deployed, node: Node, s: Stream): Deployed {
    d.(streams := d.streams[node := StreamsAt(d, node) + {s}])
  }

  function MarkSchema(d: Deployed, node: Node, schema: Schema): Deployed {
    d.(schemas := d.schemas[node := SchemasAt(d, node) + {schema}])
  }

  function Send(ack: Answers, d: Deployed, node: Node, msg: Message): (bool, Deployed) {
    if ack(d.sent) then (true, d.(sent := d.sent + 1, trace := d.trace[node := TraceAt(d, node) + [msg]]))
    else (false, d.(sent := d.sent + 1))
  }

  // ----- schemas

  /** Element schemas first.  The scan goes on after a failed send, the last send
      decides, and it is the outer schema that an element's send marks. */
  function SendElements(ack: Answers, d: Deployed, node: Node, schema: Schema, fields: seq<Field>, status: bool): (bool, Deployed)
    decreases |fields|
  {
    if fields == [] then (status, d)
    else
      var e := fields[0].element;
      if fields[0].kind == ARRAY && e.Some? && e.value !in SchemasAt(d, node) then
        var (ok, d') := Send(ack, d, node, SchemaMsg(e.value));
        SendElements(ack, if ok then MarkSchema(d', node, schema) else d', node, schema, fields[1..], ok)
      else SendElements(ack, d, node, schema, fields[1..], status)
  }

  const ARRAY := "array"

  /** The element schemas a call sends: those of array fields, unless marked. */
  function ToSend(marked: set<Schema>, fields: seq<Field>): seq<Schema>
    decreases |fields|
  {
    if fields == [] then []
    else
      var e, rest := fields[0].element, ToSend(marked, fields[1..]);
      if fields[0].kind == ARRAY && e.Some? && e.value !in marked then [e.value] + rest else rest
  }

  function Elements(fields: seq<Field>): seq<Schema> {
    ToSend({}, fields)
  }

  function DeploySchema(ack: Answers, d: Deployed, node: Node, schema: Schema): (bool, Deployed) {
    if schema in SchemasAt(d, node) then (true, d)
    else
      var (status, d1) := SendElements(ack, d, node, schema, schema.fields, true);
      if !status then (false, d1)
      else
        var (ok, d2) := Send(ack, d1, node, SchemaMsg(schema));
        (ok, if ok then MarkSchema(d2, node, schema) else d2)
  }

  // ----- inputs

  /** The input streams published at a node, each marked before it is sent. */
  function DeployInput(ack: Answers, d: Deployed, node: Node, inputs: seq<Stream>, m: Schemas): (bool, Deployed)
    requires forall s :: s in inputs ==> s in m
    decreases |inputs|
  {
    if inputs == [] then (true, d)
    else
      var s := inputs[0];
      if s in StreamsAt(d, node) then DeployInput(ack, d, node, inputs[1..], m)
      else
        var (known, d1) := DeploySchema(ack, d, node, m[s]);
        if !known then (false, d1)
        else
          var (ok, d2) := Send(ack, MarkStream(d1, node, s), node, InputMsg(s));
          if !ok then (false, d2) else DeployInput(ack, d2, node, inputs[1..], m)
  }

  // ----- boxes

  /** source gives the box a stream comes out of; input streams have none. */
  type Sources = map<Stream, Box>

  /** A stream that comes out of a box on another node is declared as an input. */
  function DeployIns(ack: Answers, d: Deployed, node: Node, ins: seq<Stream>, source: Sources, m: Schemas): (bool, Deployed)
    requires forall s :: s in ins && s in source ==> s in m
    decreases |ins|
  {
    if ins == [] then (true, d)
    else
      var s := ins[0];
      if s !in source || source[s].node == node then DeployIns(ack, d, node, ins[1..], source, m)
      else
        var (known, d1) := DeploySchema(ack, d, node, m[s]);
        if !known then (false, d1)
        else if s in StreamsAt(d1, node) then DeployIns(ack, d1, node, ins[1..], source, m)
        else
          var (ok, d2) := Send(ack, d1, node, RemoteInputMsg(s, source[s].node));
          if !ok then (false, d2) else DeployIns(ack, MarkStream(d2, node, s), node, ins[1..], source, m)
  }

  function DeployBox(ack: Answers, d: Deployed, node: Node, b: Box, source: Sources, m: Schemas): (bool, Deployed)
    requires forall s :: s in b.ins && s in source ==> s in m
  {
    var (ready, d1) := DeployIns(ack, d, node, b.ins, source, m);
    if !ready then (false, d1)
    else
      var (ok, d2) := Send(ack, d1, node, BoxMsg(b));
      (ok, if ok then d2.(boxes := d2.boxes + {b}) else d2)
  }

  function DeployBoxes(ack: Answers, d: Deployed, node: Node, boxes: seq<Box>, source: Sources, m: Schemas): (bool, Deployed)
    requires forall b, s :: b in boxes && s in b.ins && s in source ==> s in m
    decreases |boxes|
  {
    if boxes == [] then (true, d)
    else if boxes[0] in d.boxes then DeployBoxes(ack, d, node, boxes[1..], source, m)
    else
      var (ok, d1) := DeployBox(ack, d, node, boxes[0], source, m);
      if !ok then (false, d1) else DeployBoxes(ack, d1, node, boxes[1..], source, m)
  }

  // ----- subscriptions

  /** A failed subscription does not end the scan; the last one sent decides.  The
      stream is marked under the subscriber's endpoint. */
  function DeployOutput(ack: Answers, d: Deployed, node: Node, output: seq<Subscription>, status: bool): (bool, Deployed)
    decreases |output|
  {
    if output == [] then (status, d)
    else
      var o := output[0];
      if o.stream in StreamsAt(d, o.endpoint) then DeployOutput(ack, d, node, output[1..], status)
      else
        var (ok, d1) := Send(ack, d, node, SubscribeMsg(o.stream, o.endpoint));
        DeployOutput(ack, if ok then MarkStream(d1, o.endpoint, o.stream) else d1, node, output[1..], ok)
  }

  // ----- nodes

  /** What is deployed to one node. */
  datatype Plan = Plan(node: Node, inputs: seq<Stream>, boxes: seq<Box>, output: seq<Subscription>)

  predicate HasSchemas(plan: Plan, source: Sources, m: Schemas) {
    && (forall s :: s in plan.inputs ==> s in m)
    && forall b, s :: b in plan.boxes && s in b.ins && s in source ==> s in m
  }

  function DeployNode(ack: Answers, d: Deployed, plan: Plan, source: Sources, m: Schemas): (bool, Deployed)
    requires HasSchemas(plan, source, m)
  {
    var (ok1, d1) := DeployInput(ack, d, plan.node, plan.inputs, m);
    if !ok1 then (false, d1)
    else
      var (ok2, d2) := DeployBoxes(ack, d1, plan.node, plan.boxes, source, m);
      if !ok2 then (false, d2)
      else DeployOutput(ack, d2, plan.node, plan.output, true)
  }

  function DeployNodes(ack: Answers, d: Deployed, plans: seq<Plan>, source: Sources, m: Schemas): (bool, Deployed)
    requires forall p :: p in plans ==> HasSchemas(p, source, m)
    decreases |plans|
  {
    if plans == [] then (true, d)
    else
      var (ok, d1) := DeployNode(ack, d, plans[0], source, m);
      if !ok then (false, d1) else DeployNodes(ack, d1, plans[1..], source, m)
  }

  // ----- the order of a trace

  predicate Defines(msg: Message, s: Stream) {
    match msg
    case InputMsg(t) => s == t
    case RemoteInputMsg(t, _) => s == t
    case BoxMsg(b) => s in b.outs
    case _ => false
  }

  ghost predicate DefinedIn(trace: seq<Message>, s: Stream) {
    exists i :: 0 <= i < |trace| && Defines(trace[i], s)
  }

  /** What must come before a message: for a box something that defines each of its
      in streams, for an input the schema of the stream, for a schema those of its
      elements (if no stream's schema has several of them or nests them). */
  ghost predicate Prepared(trace: seq<Message>, msg: Message, m: Schemas) {
    match msg
    case BoxMsg(b) => forall s :: s in b.ins ==> DefinedIn(trace, s)
    case InputMsg(s) => s in m && SchemaMsg(m[s]) in trace
    case RemoteInputMsg(s, _) => s in m && SchemaMsg(m[s]) in trace
    case SchemaMsg(x) => AllSimple(m) ==> ElementsIn(trace, x)
    case SubscribeMsg(_, _) => true
  }

  ghost predicate ElementsIn(trace: seq<Message>, x: Schema) {
    forall e :: e in Elements(x.fields) ==> SchemaMsg(e) in trace
  }

  /** At most one element schema, and that without element schemas itself. */
  ghost predicate Simple(x: Schema) {
    forall e :: e in Elements(x.fields) ==> e == Elements(x.fields)[0] && Elements(e.fields) == []
  }

  ghost predicate AllSimple(m: Schemas) {
    forall s :: s in m ==> Simple(m[s])
  }

  ghost predicate InOrder(trace: seq<Message>, m: Schemas) {
    forall i :: 0 <= i < |trace| ==> Prepared(trace[..i], trace[i], m)
  }

  ghost predicate AllInOrder(d: Deployed, m: Schemas) {
    forall node :: InOrder(TraceAt(d, node), m)
  }

  /** A stream some box on a node needed. */
  type Read = (Node, Stream)

  /** A marked stream that is to be read is defined in the node's trace and a marked
      schema, unless it is late, is in it; a marked box is in the trace of its node. */
  ghost predicate MarksAreTrue(d: Deployed, needed: set<Read>, late: set<(Node, Schema)>) {
    && (forall node, s :: (node, s) in needed && s in StreamsAt(d, node) ==> DefinedIn(TraceAt(d, node), s))
    && (forall node, x :: x in SchemasAt(d, node) && (node, x) !in late ==> SchemaMsg(x) in TraceAt(d, node))
    && forall b :: b in d.boxes ==> BoxMsg(b) in TraceAt(d, b.node)
  }

  ghost predicate Sound(d: Deployed, needed: set<Read>, m: Schemas, late: set<(Node, Schema)> := {}) {
    AllInOrder(d, m) && MarksAreTrue(d, needed, late)
  }

  /** d' came from d by sending and marking only. */
  ghost predicate Grown(d: Deployed, d': Deployed) {
    && (forall node :: TraceAt(d, node) <= TraceAt(d', node))
    && (forall node :: StreamsAt(d, node) <= StreamsAt(d', node))
    && d.boxes <= d'.boxes
  }

  lemma DefinedInLonger(trace: seq<Message>, longer: seq<Message>, s: Stream)
    requires trace <= longer && DefinedIn(trace, s)
    ensures DefinedIn(longer, s)
  {
    var i :| 0 <= i < |trace| && Defines(trace[i], s);
    assert longer[i] == trace[i];
  }

  lemma DefinedByLast(trace: seq<Message>, msg: Message, s: Stream)
    requires Defines(msg, s)
    ensures DefinedIn(trace + [msg], s)
  {
    assert (trace + [msg])[|trace|] == msg;
  }

  lemma InOrderAppend(trace: seq<Message>, msg: Message, m: Schemas)
    requires InOrder(trace, m) && Prepared(trace, msg, m)
    ensures InOrder(trace + [msg], m)
  {
    var longer := trace + [msg];
    forall i | 0 <= i < |longer|
      ensures Prepared(longer[..i], longer[i], m)
    {
      assert longer[..i] == trace[..i];
    }
  }

  lemma SendKeeps(ack: Answers, d: Deployed, node: Node, msg: Message, needed: set<Read>, m: Schemas,
                  late: set<(Node, Schema)> := {})
    requires Sound(d, needed, m, late) && Prepared(TraceAt(d, node), msg, m)
    ensures var (ok, d') := Send(ack, d, node, msg);
            && Sound(d', needed, m, late) && Grown(d, d')
            && d'.streams == d.streams && d'.schemas == d.schemas && d'.boxes == d.boxes
            && (ok ==> TraceAt(d', node) == TraceAt(d, node) + [msg])
  {
    var (ok, d') := Send(ack, d, node, msg);
    if ok {
      InOrderAppend(TraceAt(d, node), msg, m);
      forall n, s | (n, s) in needed && s in StreamsAt(d', n)
        ensures DefinedIn(TraceAt(d', n), s)
      {
        DefinedInLonger(TraceAt(d, n), TraceAt(d', n), s);
      }
      hide DefinedIn, Prepared, InOrder;
      assert forall n :: n != node ==> TraceAt(d', n) == TraceAt(d, n);
    } else {
      assert forall n :: TraceAt(d', n) == TraceAt(d, n);
    }
  }

  lemma MarkSchemaKeeps(d: Deployed, node: Node, schema: Schema, needed: set<Read>, m: Schemas, late: set<(Node, Schema)>)
    requires Sound(d, needed, m, late)
    requires SchemaMsg(schema) in TraceAt(d, node) || (node, schema) in late
    ensures Sound(MarkSchema(d, node, schema), needed, m, late)
    ensures Grown(d, MarkSchema(d, node, schema))
  {
    var d' := MarkSchema(d, node, schema);
    assert forall n :: TraceAt(d', n) == TraceAt(d, n) && StreamsAt(d', n) == StreamsAt(d, n);
    assert forall n :: n != node ==> SchemasAt(d', n) == SchemasAt(d, n);
  }

  lemma MarkStreamKeeps(d: Deployed, node: Node, s: Stream, needed: set<Read>, m: Schemas)
    requires Sound(d, needed, m)
    requires (node, s) in needed ==> DefinedIn(TraceAt(d, node), s)
    ensures Sound(MarkStream(d, node, s), needed, m)
    ensures Grown(d, MarkStream(d, node, s))
  {
    var d' := MarkStream(d, node, s);
    assert forall n :: TraceAt(d', n) == TraceAt(d, n) && SchemasAt(d', n) == SchemasAt(d, n);
    assert forall n :: n != node ==> StreamsAt(d', n) == StreamsAt(d, n);
  }

  lemma GrownTwice(a: Deployed, b: Deployed, c: Deployed)
    requires Grown(a, b) && Grown(b, c)
    ensures Grown(a, c)
  {
    forall node
      ensures TraceAt(a, node) <= TraceAt(c, node)
      ensures StreamsAt(a, node) <= StreamsAt(c, node)
    {
      assert TraceAt(a, node) <= TraceAt(b, node) <= TraceAt(c, node);
      assert StreamsAt(a, node) <= StreamsAt(b, node);
    }
  }

  lemma {:induction false} ToSendHas(marked: set<Schema>, fields: seq<Field>, e: Schema)
    ensures e in ToSend(marked, fields) <==> e in Elements(fields) && e !in marked
    decreases |fields|
  {
    if fields != [] {
      ToSendHas(marked, fields[1..], e);
    }
  }

  /** Some array field has e as the schema of its elements. */
  ghost predicate HasElement(fields: seq<Field>, e: Schema) {
    exists f :: f in fields && f.kind == "array" && f.element == Some(e)
  }

  /** The elements to send are those of the array fields whose element is a schema and not
      marked, one for each such field, in the order of the fields. */
  lemma {:induction false} ToSendAre(marked: set<Schema>, fields: seq<Field>, e: Schema)
    ensures e in ToSend(marked, fields) <==> e !in marked && HasElement(fields, e)
    decreases |fields|
  {
    if fields != [] {
      ToSendAre(marked, fields[1..], e);
      assert forall f :: f in fields <==> f == fields[0] || f in fields[1..];
    }
  }

  lemma {:induction false} ToSendInOrder(marked: set<Schema>, a: seq<Field>, f: Field, b: seq<Field>)
    ensures ToSend(marked, a + [f] + b) ==
            ToSend(marked, a)
            + (if f.kind == "array" && f.element.Some? && f.element.value !in marked then [f.element.value] else [])
            + ToSend(marked, b)
    decreases |a|
  {
    if a == [] {
      assert a + [f] + b == [f] + b && ([f] + b)[1..] == b;
    } else {
      ToSendInOrder(marked, a[1..], f, b);
      assert (a + [f] + b)[1..] == a[1..] + [f] + b;
    }
  }

  /** The outer schema is none of its own elements, so marking it changes nothing. */
  lemma {:induction false} NotOwnElement(x: Schema, fields: seq<Field>)
    requires forall f :: f in fields ==> f in x.fields
    ensures x !in Elements(fields)
    decreases |fields|
  {
    if fields != [] {
      NotOwnElement(x, fields[1..]);
      if fields[0].element.Some? {
        assert fields[0] in fields;
        var i :| 0 <= i < |x.fields| && x.fields[i] == fields[0];
        assert x.fields[i].element.value < x;
      }
    }
  }

  lemma {:induction false} MarkedOuter(marked: set<Schema>, x: Schema, fields: seq<Field>)
    requires x !in Elements(fields)
    ensures ToSend(marked + {x}, fields) == ToSend(marked, fields)
    decreases |fields|
  {
    if fields != [] {
      MarkedOuter(marked, x, fields[1..]);
    }
  }

  /** The messages taken when these schemas are sent from send n on. */
  function Taken(ack: Answers, n: nat, list: seq<Schema>): seq<Message>
    decreases |list|
  {
    if list == [] then []
    else
      var rest := Taken(ack, n + 1, list[1..]);
      if ack(n) then [SchemaMsg(list[0])] + rest else rest
  }

  /** From d to d' the schemas of list were sent in order: those taken are in the
      trace, the last answer decides, and if any was taken the outer one is marked. */
  ghost predicate SentElements(ack: Answers, d: Deployed, node: Node, schema: Schema, list: seq<Schema>, status: bool,
                               ok: bool, d': Deployed) {
    && ok == (if list == [] then status else ack(d.sent + |list| - 1))
    && d'.sent == d.sent + |list|
    && TraceAt(d', node) == TraceAt(d, node) + Taken(ack, d.sent, list)
    && SchemasAt(d', node) == SchemasAt(d, node) + if Taken(ack, d.sent, list) == [] then {} else {schema}
  }

  /** The scan over the fields sends exactly the elements not marked. */
  lemma {:induction false} SendElementsExact(ack: Answers, d: Deployed, node: Node, schema: Schema, fields: seq<Field>, status: bool)
    requires schema !in Elements(fields)
    ensures var (ok, d') := SendElements(ack, d, node, schema, fields, status);
            SentElements(ack, d, node, schema, ToSend(SchemasAt(d, node), fields), status, ok, d')
    decreases |fields|
  {
    if fields != [] {
      var e := fields[0].element;
      if fields[0].kind == ARRAY && e.Some? && e.value !in SchemasAt(d, node) {
        var (ok, d1) := Send(ack, d, node, SchemaMsg(e.value));
        var d2 := if ok then MarkSchema(d1, node, schema) else d1;
        var rest := ToSend(SchemasAt(d, node), fields[1..]);
        MarkedOuter(SchemasAt(d, node), schema, fields[1..]);
        assert ToSend(SchemasAt(d2, node), fields[1..]) == rest;
        SendElementsExact(ack, d2, node, schema, fields[1..], ok);
        var (ok', d') := SendElements(ack, d2, node, schema, fields[1..], ok);
        OneMoreElement(ack, d, node, schema, e.value, rest, status, ok', d');
      } else {
        SendElementsExact(ack, d, node, schema, fields[1..], status);
      }
    }
  }

  lemma OneMoreElement(ack: Answers, d: Deployed, node: Node, schema: Schema, e: Schema, rest: seq<Schema>, status: bool,
                       ok': bool, d': Deployed)
    requires var (ok, d1) := Send(ack, d, node, SchemaMsg(e));
             SentElements(ack, if ok then MarkSchema(d1, node, schema) else d1, node, schema, rest, ok, ok', d')
    ensures SentElements(ack, d, node, schema, [e] + rest, status, ok', d')
  {
    assert ([e] + rest)[1..] == rest;
  }

  lemma {:induction false} LastTaken(ack: Answers, n: nat, list: seq<Schema>)
    requires list != [] && ack(n + |list| - 1)
    ensures SchemaMsg(list[|list| - 1]) in Taken(ack, n, list)
    decreases |list|
  {
    if |list| > 1 {
      LastTaken(ack, n + 1, list[1..]);
    }
  }

  lemma {:induction false} SendElementsKeeps(ack: Answers, d: Deployed, node: Node, schema: Schema, fields: seq<Field>,
                                             status: bool, needed: set<Read>, m: Schemas)
    requires Sound(d, needed, m, {(node, schema)})
    requires AllSimple(m) ==> forall e :: e in Elements(fields) ==> Elements(e.fields) == []
    ensures var (ok, d') := SendElements(ack, d, node, schema, fields, status);
            Sound(d', needed, m, {(node, schema)}) && Grown(d, d') && d'.streams == d.streams && d'.boxes == d.boxes
    decreases |fields|
  {
    if fields != [] {
      var e := fields[0].element;
      if fields[0].kind == ARRAY && e.Some? && e.value !in SchemasAt(d, node) {
        SendKeeps(ack, d, node, SchemaMsg(e.value), needed, m, {(node, schema)});
        var (ok, d1) := Send(ack, d, node, SchemaMsg(e.value));
        var d2 := if ok then MarkSchema(d1, node, schema) else d1;
        MarkSchemaKeeps(d1, node, schema, needed, m, {(node, schema)});
        GrownTwice(d, d1, d2);
        SendElementsKeeps(ack, d2, node, schema, fields[1..], ok, needed, m);
        GrownTwice(d, d2, SendElements(ack, d2, node, schema, fields[1..], ok).1);
      } else {
        SendElementsKeeps(ack, d, node, schema, fields[1..], status, needed, m);
      }
    }
  }

  /** The outer schema, sent after its elements. */
  lemma OuterSent(ack: Answers, d: Deployed, d1: Deployed, node: Node, schema: Schema, needed: set<Read>, m: Schemas)
    requires Sound(d1, needed, m, {(node, schema)}) && Grown(d, d1) && d1.streams == d.streams && d1.boxes == d.boxes
    requires AllSimple(m) ==> ElementsIn(TraceAt(d1, node), schema)
    ensures var (ok, d2) := Send(ack, d1, node, SchemaMsg(schema));
            var d' := if ok then MarkSchema(d2, node, schema) else d2;
            && AllInOrder(d', m) && Grown(d, d') && d'.streams == d.streams && d'.boxes == d.boxes
            && (ok ==> Sound(d', needed, m) && SchemaMsg(schema) in TraceAt(d', node))
  {
    SendKeeps(ack, d1, node, SchemaMsg(schema), needed, m, {(node, schema)});
    var (ok, d2) := Send(ack, d1, node, SchemaMsg(schema));
    GrownTwice(d, d1, d2);
    if ok {
      MarkSchemaKeeps(d2, node, schema, needed, m, {(node, schema)});
      GrownTwice(d, d2, MarkSchema(d2, node, schema));
    }
  }

  /** A successful call leaves the node with the schema and every mark true; a
      failed one leaves the order of the traces right all the same. */
  lemma DeploySchemaKeeps(ack: Answers, d: Deployed, node: Node, schema: Schema, needed: set<Read>, m: Schemas)
    requires Sound(d, needed, m) && (AllSimple(m) ==> Simple(schema))
    ensures var (ok, d') := DeploySchema(ack, d, node, schema);
            && AllInOrder(d', m) && Grown(d, d') && d'.streams == d.streams && d'.boxes == d.boxes
            && (ok ==> Sound(d', needed, m) && SchemaMsg(schema) in TraceAt(d', node))
  {
    if schema !in SchemasAt(d, node) {
      NotOwnElement(schema, schema.fields);
      SendElementsKeeps(ack, d, node, schema, schema.fields, true, needed, m);
      var (status, d1) := SendElements(ack, d, node, schema, schema.fields, true);
      if status {
        SendElementsExact(ack, d, node, schema, schema.fields, true);
        LastElementIn(ack, d, d1, node, schema, m, needed);
        hide AllInOrder, Elements, DefinedIn, ElementsIn, Taken, SendElements, Send, MarkSchema, Grown, ToSend;
        OuterSent(ack, d, d1, node, schema, needed, m);
      }
    }
  }

  lemma LastElementIn(ack: Answers, d: Deployed, d1: Deployed, node: Node, schema: Schema, m: Schemas, needed: set<Read>)
    requires Sound(d, needed, m) && Grown(d, d1) && (AllSimple(m) ==> Simple(schema))
    requires var list := ToSend(SchemasAt(d, node), schema.fields);
             && (list != [] ==> ack(d.sent + |list| - 1))
             && TraceAt(d1, node) == TraceAt(d, node) + Taken(ack, d.sent, list)
    ensures AllSimple(m) ==> ElementsIn(TraceAt(d1, node), schema)
  {
    if AllSimple(m) {
      forall e | e in Elements(schema.fields)
        ensures SchemaMsg(e) in TraceAt(d1, node)
      {
        var before := TraceAt(d, node);
        assert e in SchemasAt(d, node) ==> SchemaMsg(e) in before;
        OnlyElementIn(ack, d.sent, SchemasAt(d, node), schema, e, before);
      }
    }
  }

  /** The one element schema was marked, or was the one sent. */
  lemma OnlyElementIn(ack: Answers, n: nat, marked: set<Schema>, schema: Schema, e: Schema, before: seq<Message>)
    requires Simple(schema) && e in Elements(schema.fields)
    requires var list := ToSend(marked, schema.fields); list != [] ==> ack(n + |list| - 1)
    requires e in marked ==> SchemaMsg(e) in before
    ensures SchemaMsg(e) in before + Taken(ack, n, ToSend(marked, schema.fields))
  {
    hide Elements, ToSend, Taken;
    var list := ToSend(marked, schema.fields);
    ToSendHas(marked, schema.fields, e);
    if e !in marked {
      ToSendHas(marked, schema.fields, list[|list| - 1]);
      LastTaken(ack, n, list);
    }
  }

  // ----- inputs, boxes, subscriptions

  lemma MarkAndSend(ack: Answers, d1: Deployed, node: Node, s: Stream, needed: set<Read>, m: Schemas)
    requires Sound(d1, needed, m) && s in m && m[s] in SchemasAt(d1, node)
    ensures var (ok, d2) := Send(ack, MarkStream(d1, node, s), node, InputMsg(s));
            && AllInOrder(d2, m) && Grown(d1, d2) && s in StreamsAt(d2, node) && d2.boxes == d1.boxes
            && (ok ==> Sound(d2, needed, m))
  {
    SendKeeps(ack, d1, node, InputMsg(s), needed, m);
    var (ok, sent) := Send(ack, d1, node, InputMsg(s));
    var (ok', d2) := Send(ack, MarkStream(d1, node, s), node, InputMsg(s));
    assert ok == ok' && d2 == MarkStream(sent, node, s);
    InputSent(d1, sent, d2, ok, node, s, needed, m);
  }

  lemma {:induction false} DeployInputKeeps(ack: Answers, d: Deployed, node: Node, inputs: seq<Stream>, needed: set<Read>, m: Schemas)
    requires forall s :: s in inputs ==> s in m
    requires Sound(d, needed, m)
    ensures var (ok, d') := DeployInput(ack, d, node, inputs, m);
            && AllInOrder(d', m) && Grown(d, d') && d'.boxes == d.boxes
            && (ok ==> Sound(d', needed, m) && forall s :: s in inputs ==> s in StreamsAt(d', node))
    decreases |inputs|
  {
    if inputs != [] {
      var s := inputs[0];
      if s in StreamsAt(d, node) {
        DeployInputKeeps(ack, d, node, inputs[1..], needed, m);
      } else {
        DeploySchemaKeeps(ack, d, node, m[s], needed, m);
        var (known, d1) := DeploySchema(ack, d, node, m[s]);
        if known {
          MarkAndSend(ack, d1, node, s, needed, m);
          var (ok, d2) := Send(ack, MarkStream(d1, node, s), node, InputMsg(s));
          GrownTwice(d, d1, d2);
          if ok {
            DeployInputKeeps(ack, d2, node, inputs[1..], needed, m);
            GrownTwice(d, d2, DeployInput(ack, d2, node, inputs[1..], m).1);
          }
        }
      }
    }
  }

  lemma InputSent(d1: Deployed, sent: Deployed, d2: Deployed, ok: bool, node: Node, s: Stream, needed: set<Read>, m: Schemas)
    requires Sound(sent, needed, m) && Grown(d1, sent)
    requires ok ==> TraceAt(sent, node) == TraceAt(d1, node) + [InputMsg(s)]
    requires d2 == MarkStream(sent, node, s)
    ensures AllInOrder(d2, m) && Grown(d1, d2) && s in StreamsAt(d2, node)
    ensures ok ==> Sound(d2, needed, m)
  {
    if ok {
      DefinedByLast(TraceAt(d1, node), InputMsg(s), s);
      MarkStreamKeeps(sent, node, s, needed, m);
    }
    assert forall n :: TraceAt(d2, n) == TraceAt(sent, n);
    assert forall n :: StreamsAt(sent, n) <= StreamsAt(d2, n);
    GrownTwice(d1, sent, d2);
  }

  predicate Remote(s: Stream, source: Sources, node: Node) {
    s in source && source[s].node != node
  }

  lemma RemoteSent(ack: Answers, d1: Deployed, node: Node, s: Stream, from: Node, needed: set<Read>, m: Schemas)
    requires Sound(d1, needed, m) && s in m && SchemaMsg(m[s]) in TraceAt(d1, node)
    ensures var (ok, d2) := Send(ack, d1, node, RemoteInputMsg(s, from));
            var d3 := MarkStream(d2, node, s);
            && AllInOrder(d2, m) && Grown(d1, d2) && Grown(d2, d3) && d2.boxes == d1.boxes
            && (ok ==> Sound(d3, needed, m) && s in StreamsAt(d3, node))
  {
    var msg := RemoteInputMsg(s, from);
    SendKeeps(ack, d1, node, msg, needed, m);
    var (ok, d2) := Send(ack, d1, node, msg);
    if ok {
      DefinedByLast(TraceAt(d1, node), msg, s);
      MarkStreamKeeps(d2, node, s, needed, m);
    }
    assert forall n :: TraceAt(MarkStream(d2, node, s), n) == TraceAt(d2, n);
  }

  lemma {:induction false} DeployInsKeeps(ack: Answers, d: Deployed, node: Node, ins: seq<Stream>, source: Sources,
                                          needed: set<Read>, m: Schemas)
    requires forall s :: s in ins && s in source ==> s in m
    requires Sound(d, needed, m)
    ensures var (ok, d') := DeployIns(ack, d, node, ins, source, m);
            && AllInOrder(d', m) && Grown(d, d') && d'.boxes == d.boxes
            && (ok ==> Sound(d', needed, m)
                       && forall s :: s in ins && Remote(s, source, node) ==> s in StreamsAt(d', node))
    decreases |ins|
  {
    if ins != [] {
      var s := ins[0];
      if !Remote(s, source, node) {
        DeployInsKeeps(ack, d, node, ins[1..], source, needed, m);
      } else {
        DeploySchemaKeeps(ack, d, node, m[s], needed, m);
        var (known, d1) := DeploySchema(ack, d, node, m[s]);
        if known {
          if s in StreamsAt(d1, node) {
            DeployInsKeeps(ack, d1, node, ins[1..], source, needed, m);
            GrownTwice(d, d1, DeployIns(ack, d1, node, ins[1..], source, m).1);
          } else {
            RemoteSent(ack, d1, node, s, source[s].node, needed, m);
            var (ok, d2) := Send(ack, d1, node, RemoteInputMsg(s, source[s].node));
            GrownTwice(d, d1, d2);
            if ok {
              var d3 := MarkStream(d2, node, s);
              GrownTwice(d, d2, d3);
              DeployInsKeeps(ack, d3, node, ins[1..], source, needed, m);
              GrownTwice(d, d3, DeployIns(ack, d3, node, ins[1..], source, m).1);
            }
          }
        }
      }
    }
  }

  /** Of a box's in streams, those that do not come from another node are defined. */
  ghost predicate LocalsDefined(d: Deployed, node: Node, b: Box, source: Sources) {
    forall s :: s in b.ins && !Remote(s, source, node) ==> DefinedIn(TraceAt(d, node), s)
  }

  lemma DeployBoxKeeps(ack: Answers, d: Deployed, node: Node, b: Box, source: Sources, needed: set<Read>, m: Schemas)
    requires forall s :: s in b.ins && s in source ==> s in m
    requires Sound(d, needed, m) && b.node == node && forall s :: s in b.ins ==> (node, s) in needed
    requires LocalsDefined(d, node, b, source)
    ensures var (ok, d') := DeployBox(ack, d, node, b, source, m);
            && AllInOrder(d', m) && Grown(d, d')
            && (ok ==> Sound(d', needed, m) && b in d'.boxes)
  {
    DeployInsKeeps(ack, d, node, b.ins, source, needed, m);
    var (ready, d1) := DeployIns(ack, d, node, b.ins, source, m);
    if ready {
      forall s | s in b.ins
        ensures DefinedIn(TraceAt(d1, node), s)
      {
        if !Remote(s, source, node) {
          DefinedInLonger(TraceAt(d, node), TraceAt(d1, node), s);
        }
      }
      SendKeeps(ack, d1, node, BoxMsg(b), needed, m);
      var (ok, d2) := Send(ack, d1, node, BoxMsg(b));
      GrownTwice(d, d1, d2);
      if ok {
        MarkBoxKeeps(d1, d2, node, b, needed, m);
        GrownTwice(d, d2, d2.(boxes := d2.boxes + {b}));
      }
    }
  }

  lemma MarkBoxKeeps(d1: Deployed, d2: Deployed, node: Node, b: Box, needed: set<Read>, m: Schemas)
    requires Sound(d2, needed, m) && b.node == node
    requires TraceAt(d2, node) == TraceAt(d1, node) + [BoxMsg(b)]
    ensures Sound(d2.(boxes := d2.boxes + {b}), needed, m) && Grown(d2, d2.(boxes := d2.boxes + {b}))
  {
    var d' := d2.(boxes := d2.boxes + {b});
    assert forall n :: TraceAt(d', n) == TraceAt(d2, n) && StreamsAt(d', n) == StreamsAt(d2, n)
                       && SchemasAt(d', n) == SchemasAt(d2, n);
  }

  /** Each box of the list needed only inputs already defined, streams of other
      nodes, and streams of boxes earlier in the list. */
  ghost predicate Listed(d: Deployed, node: Node, boxes: seq<Box>, source: Sources) {
    forall i, s :: 0 <= i < |boxes| && s in boxes[i].ins && !Remote(s, source, node) ==>
                     DefinedIn(TraceAt(d, node), s) || exists j :: 0 <= j < i && s in boxes[j].outs
  }

  lemma ListedRest(d: Deployed, d': Deployed, node: Node, boxes: seq<Box>, source: Sources)
    requires boxes != [] && Listed(d, node, boxes, source)
    requires TraceAt(d, node) <= TraceAt(d', node) && BoxMsg(boxes[0]) in TraceAt(d', node)
    ensures Listed(d', node, boxes[1..], source)
  {
    forall i, s | 0 <= i < |boxes[1..]| && s in boxes[1..][i].ins && !Remote(s, source, node)
      ensures DefinedIn(TraceAt(d', node), s) || exists j :: 0 <= j < i && s in boxes[1..][j].outs
    {
      assert s in boxes[i + 1].ins;
      if DefinedIn(TraceAt(d, node), s) {
        DefinedInLonger(TraceAt(d, node), TraceAt(d', node), s);
      } else {
        var j :| 0 <= j < i + 1 && s in boxes[j].outs;
        if j == 0 {
          var k :| 0 <= k < |TraceAt(d', node)| && TraceAt(d', node)[k] == BoxMsg(boxes[0]);
          assert Defines(TraceAt(d', node)[k], s);
        } else {
          assert s in boxes[1..][j - 1].outs;
        }
      }
    }
  }

  lemma {:induction false} DeployBoxesKeeps(ack: Answers, d: Deployed, node: Node, boxes: seq<Box>, source: Sources,
                                            needed: set<Read>, m: Schemas)
    requires forall b, s :: b in boxes && s in b.ins && s in source ==> s in m
    requires forall b :: b in boxes ==> b.node == node
    requires Sound(d, needed, m) && Listed(d, node, boxes, source)
    requires forall b, s :: b in boxes && s in b.ins ==> (node, s) in needed
    ensures var (ok, d') := DeployBoxes(ack, d, node, boxes, source, m);
            && AllInOrder(d', m) && Grown(d, d')
            && (ok ==> Sound(d', needed, m) && forall b :: b in boxes ==> b in d'.boxes)
    decreases |boxes|
  {
    if boxes != [] {
      if boxes[0] in d.boxes {
        ListedRest(d, d, node, boxes, source);
        DeployBoxesKeeps(ack, d, node, boxes[1..], source, needed, m);
      } else {
        assert LocalsDefined(d, node, boxes[0], source);
        DeployBoxKeeps(ack, d, node, boxes[0], source, needed, m);
        var (ok, d1) := DeployBox(ack, d, node, boxes[0], source, m);
        if ok {
          ListedRest(d, d1, node, boxes, source);
          DeployBoxesKeeps(ack, d1, node, boxes[1..], source, needed, m);
          GrownTwice(d, d1, DeployBoxes(ack, d1, node, boxes[1..], source, m).1);
        }
      }
    }
  }

  lemma {:induction false} DeployOutputKeeps(ack: Answers, d: Deployed, node: Node, output: seq<Subscription>, status: bool,
                                             needed: set<Read>, m: Schemas)
    requires forall o :: o in output ==> (o.endpoint, o.stream) !in needed
    requires Sound(d, needed, m)
    ensures var (_, d') := DeployOutput(ack, d, node, output, status);
            Sound(d', needed, m) && Grown(d, d')
    decreases |output|
  {
    if output != [] {
      var o := output[0];
      if o.stream in StreamsAt(d, o.endpoint) {
        DeployOutputKeeps(ack, d, node, output[1..], status, needed, m);
      } else {
        var msg := SubscribeMsg(o.stream, o.endpoint);
        SendKeeps(ack, d, node, msg, needed, m);
        var (ok, d1) := Send(ack, d, node, msg);
        MarkStreamKeeps(d1, o.endpoint, o.stream, needed, m);
        var d2 := if ok then MarkStream(d1, o.endpoint, o.stream) else d1;
        GrownTwice(d, d1, d2);
        DeployOutputKeeps(ack, d2, node, output[1..], ok, needed, m);
        GrownTwice(d, d2, DeployOutput(ack, d2, node, output[1..], ok).1);
      }
    }
  }

  // ----- whole deployments

  /** The plan's boxes are on its node, its inputs are published where they are read,
      and a stream read on the node it comes from comes from an earlier box. */
  ghost predicate Ordered(plan: Plan, source: Sources) {
    && (forall b :: b in plan.boxes ==> b.node == plan.node)
    && forall i, s :: 0 <= i < |plan.boxes| && s in plan.boxes[i].ins && !Remote(s, source, plan.node) ==>
                        s in plan.inputs || exists j :: 0 <= j < i && s in plan.boxes[j].outs
  }

  /** What the boxes of these plans read. */
  ghost function ReadsOf(plans: seq<Plan>): set<Read> {
    set p, b, s | p in plans && b in p.boxes && s in b.ins :: (p.node, s)
  }

  lemma NothingIsSound(plans: seq<Plan>, m: Schemas)
    ensures Sound(NOTHING, ReadsOf(plans), m)
  {
  }

  /** No node is subscribed, before its turn, to a stream that one of its boxes needed. */
  ghost predicate NoneHidden(plans: seq<Plan>) {
    forall i, j :: 0 <= i < j < |plans| ==> Apart(plans[i], plans[j])
  }

  ghost predicate Apart(earlier: Plan, later: Plan) {
    forall o, b :: o in earlier.output && b in later.boxes && o.stream in b.ins ==> o.endpoint != later.node
  }

  lemma DeployNodeKeeps(ack: Answers, d: Deployed, plan: Plan, source: Sources, needed: set<Read>, later: set<Read>, m: Schemas)
    requires HasSchemas(plan, source, m) && Ordered(plan, source)
    requires later <= needed && forall b, s :: b in plan.boxes && s in b.ins ==> (plan.node, s) in needed
    requires forall o :: o in plan.output ==> (o.endpoint, o.stream) !in later
    requires Sound(d, needed, m)
    ensures var (ok, d') := DeployNode(ack, d, plan, source, m);
            && AllInOrder(d', m) && Grown(d, d')
            && (ok ==> Sound(d', later, m) && forall b :: b in plan.boxes ==> b in d'.boxes)
  {
    DeployInputKeeps(ack, d, plan.node, plan.inputs, needed, m);
    var (ok1, d1) := DeployInput(ack, d, plan.node, plan.inputs, m);
    if ok1 {
      assert Listed(d1, plan.node, plan.boxes, source);
      DeployBoxesKeeps(ack, d1, plan.node, plan.boxes, source, needed, m);
      var (ok2, d2) := DeployBoxes(ack, d1, plan.node, plan.boxes, source, m);
      GrownTwice(d, d1, d2);
      if ok2 {
        DeployOutputKeeps(ack, d2, plan.node, plan.output, true, later, m);
        GrownTwice(d, d2, DeployOutput(ack, d2, plan.node, plan.output, true).1);
      }
    }
  }

  /** Whatever the nodes answer, in every node's trace each box comes after what
      defines its in streams and each input after its schema; and a deployment that
      ends well has sent every box to its node. */
  lemma {:induction false} DeployNodesInOrder(ack: Answers, d: Deployed, plans: seq<Plan>, source: Sources, m: Schemas)
    requires forall p :: p in plans ==> HasSchemas(p, source, m) && Ordered(p, source)
    requires NoneHidden(plans) && Sound(d, ReadsOf(plans), m)
    ensures var (ok, d') := DeployNodes(ack, d, plans, source, m);
            && AllInOrder(d', m) && Grown(d, d')
            && (ok ==> Sound(d', {}, m) && forall p, b :: p in plans && b in p.boxes ==> BoxMsg(b) in TraceAt(d', p.node))
    decreases |plans|
  {
    if plans != [] {
      var rest := plans[1..];
      LaterReads(plans);
      DeployNodeKeeps(ack, d, plans[0], source, ReadsOf(plans), ReadsOf(rest), m);
      var (ok, d1) := DeployNode(ack, d, plans[0], source, m);
      if ok {
        DeployNodesInOrder(ack, d1, rest, source, m);
        var (ok', d') := DeployNodes(ack, d1, rest, source, m);
        GrownTwice(d, d1, d');
        if ok' {
          forall p, b | p in plans && b in p.boxes
            ensures BoxMsg(b) in TraceAt(d', p.node)
          {
            if p == plans[0] {
              assert b in d'.boxes;
            } else {
              assert p in rest;
            }
          }
        }
      }
    }
  }

  lemma LaterReads(plans: seq<Plan>)
    requires plans != [] && NoneHidden(plans)
    ensures NoneHidden(plans[1..]) && ReadsOf(plans[1..]) <= ReadsOf(plans)
    ensures forall b, s :: b in plans[0].boxes && s in b.ins ==> (plans[0].node, s) in ReadsOf(plans)
    ensures forall o :: o in plans[0].output ==> (o.endpoint, o.stream) !in ReadsOf(plans[1..])
  {
    var rest := plans[1..];
    assert forall i :: 0 <= i < |rest| ==> rest[i] == plans[i + 1];
    forall o | o in plans[0].output
      ensures (o.endpoint, o.stream) !in ReadsOf(rest)
    {
      forall p, b | p in rest && b in p.boxes && o.stream in b.ins
        ensures p.node != o.endpoint
      {
        var j :| 0 <= j < |rest| && rest[j] == p;
        assert Apart(plans[0], plans[j + 1]);
      }
    }
  }
}
