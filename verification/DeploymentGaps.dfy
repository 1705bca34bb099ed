/**
  Where the deployer departs from its intent, and exactly when: element schemas that
  are not remembered, outer schemas that are remembered too early, and subscribers
  that hide a stream from the node they sit at.
*/
module DeploymentGaps {
  import opened Basics
  import opened Network
  import opened Deployment

  // ----- one schema

  /** x is sent as part of list, from send n on, and taken at least once. */
  ghost predicate WasTaken(ack: Answers, n: nat, list: seq<Schema>, x: Schema) {
    exists j: nat :: n <= j < n + |list| && ack(j) && list[j - n] == x
  }

  lemma {:induction false} TakenFrom(ack: Answers, n: nat, list: seq<Schema>, x: Schema)
    ensures SchemaMsg(x) in Taken(ack, n, list) <==> WasTaken(ack, n, list, x)
    decreases |list|
  {
    if list != [] {
      var rest := list[1..];
      TakenFrom(ack, n + 1, rest, x);
      assert forall i :: 0 <= i < |rest| ==> rest[i] == list[i + 1];
    }
  }

  /** Some of the schemas sent from send n on is taken. */
  ghost predicate SomeTaken(ack: Answers, n: nat, list: seq<Schema>) {
    exists j: nat :: n <= j < n + |list| && ack(j)
  }

  lemma {:induction false} TakenNothing(ack: Answers, n: nat, list: seq<Schema>)
    ensures Taken(ack, n, list) != [] <==> SomeTaken(ack, n, list)
    decreases |list|
  {
    if list != [] {
      TakenNothing(ack, n + 1, list[1..]);
      if SomeTaken(ack, n + 1, list[1..]) {
        var j: nat :| n + 1 <= j < n + 1 + |list[1..]| && ack(j);
        assert n <= j < n + |list|;
      }
    }
  }

  /** What a call does for a schema not marked: the elements not marked, then, if the
      last of them was taken, the schema itself. */
  lemma DeploySchemaExact(ack: Answers, d: Deployed, node: Node, x: Schema)
    requires x !in SchemasAt(d, node)
    ensures var (ok, d') := DeploySchema(ack, d, node, x);
            var list, n := ToSend(SchemasAt(d, node), x.fields), d.sent;
            && (ok <==> (list == [] || ack(n + |list| - 1)) && ack(n + |list|))
            && TraceAt(d', node) == TraceAt(d, node) + Taken(ack, n, list) + (if ok then [SchemaMsg(x)] else [])
            && SchemasAt(d', node) == SchemasAt(d, node) + if SomeTaken(ack, n, list) || ok then {x} else {}
  {
    NotOwnElement(x, x.fields);
    SendElementsExact(ack, d, node, x, x.fields, true);
    TakenNothing(ack, d.sent, ToSend(SchemasAt(d, node), x.fields));
    hide ToSend, Taken;
  }

  /** A schema is marked and yet missing from the trace exactly when the call failed
      and some element was taken. */
  lemma MarkedButMissingIff(ack: Answers, d: Deployed, node: Node, x: Schema)
    requires x !in SchemasAt(d, node) && SchemaMsg(x) !in TraceAt(d, node)
    ensures var (ok, d') := DeploySchema(ack, d, node, x);
            x in SchemasAt(d', node) && SchemaMsg(x) !in TraceAt(d', node) <==>
            !ok && SomeTaken(ack, d.sent, ToSend(SchemasAt(d, node), x.fields))
  {
    DeploySchemaExact(ack, d, node, x);
    var list := ToSend(SchemasAt(d, node), x.fields);
    NotOwnElement(x, x.fields);
    ToSendHas(SchemasAt(d, node), x.fields, x);
    TakenFrom(ack, d.sent, list, x);
  }

  /** From then on every call for it succeeds at once and sends nothing. */
  lemma RefusedSchemaStaysMarked(ack: Answers, d: Deployed, node: Node, x: Schema)
    requires x !in SchemasAt(d, node) && SchemaMsg(x) !in TraceAt(d, node)
    requires !DeploySchema(ack, d, node, x).0 && SomeTaken(ack, d.sent, ToSend(SchemasAt(d, node), x.fields))
    ensures var d' := DeploySchema(ack, d, node, x).1;
            SchemaMsg(x) !in TraceAt(d', node) && forall later: Answers :: DeploySchema(later, d', node, x) == (true, d')
  {
    MarkedButMissingIff(ack, d, node, x);
  }

  // ----- elements sent again

  /** Sending elements marks only the outer schema. */
  lemma {:induction false} ElementNeverMarked(ack: Answers, d: Deployed, node: Node, schema: Schema, fields: seq<Field>, status: bool)
    ensures SchemasAt(SendElements(ack, d, node, schema, fields, status).1, node) <= SchemasAt(d, node) + {schema}
    decreases |fields|
  {
    if fields != [] {
      var e := fields[0].element;
      if fields[0].kind == ARRAY && e.Some? && e.value !in SchemasAt(d, node) {
        var (ok, d1) := Send(ack, d, node, SchemaMsg(e.value));
        ElementNeverMarked(ack, if ok then MarkSchema(d1, node, schema) else d1, node, schema, fields[1..], ok);
      } else {
        ElementNeverMarked(ack, d, node, schema, fields[1..], status);
      }
    }
  }

  /** So an element sent for a is sent again for b exactly when b has it too, whatever
      was answered. */
  lemma ElementSentTwice(ack: Answers, d: Deployed, node: Node, a: Schema, b: Schema, e: Schema)
    requires a !in SchemasAt(d, node) && e in ToSend(SchemasAt(d, node), a.fields)
    ensures var d' := DeploySchema(ack, d, node, a).1;
            e in ToSend(SchemasAt(d', node), b.fields) <==> e in Elements(b.fields)
  {
    DeploySchemaExact(ack, d, node, a);
    NotOwnElement(a, a.fields);
    ToSendHas(SchemasAt(d, node), a.fields, e);
    ToSendHas(SchemasAt(DeploySchema(ack, d, node, a).1, node), b.fields, e);
  }

  // ----- elements before their outer schema

  /** Every schema comes after those of its elements. */
  ghost predicate ElementsFirst(trace: seq<Message>) {
    forall i :: 0 <= i < |trace| && trace[i].SchemaMsg? ==> ElementsIn(trace[..i], trace[i].schema)
  }

  /** When a call succeeds, its elements precede the schema exactly when each of those
      it had to send was taken at least once or was there before. */
  lemma ElementsPrecedeIff(ack: Answers, d: Deployed, node: Node, x: Schema)
    requires x !in SchemasAt(d, node) && ElementsMarkedTrue(d, node, x) && DeploySchema(ack, d, node, x).0
    ensures var before, list, n := TraceAt(d, node), ToSend(SchemasAt(d, node), x.fields), d.sent;
            && TraceAt(DeploySchema(ack, d, node, x).1, node) == before + Taken(ack, n, list) + [SchemaMsg(x)]
            && (ElementsIn(before + Taken(ack, n, list), x) <==>
                forall e :: e in list ==> SchemaMsg(e) in before || WasTaken(ack, n, list, e))
  {
    DeploySchemaExact(ack, d, node, x);
    var list := ToSend(SchemasAt(d, node), x.fields);
    hide DeploySchema, ToSend, Taken, WasTaken;
    forall e
      ensures e in list <==> e in Elements(x.fields) && e !in SchemasAt(d, node)
    {
      ToSendHas(SchemasAt(d, node), x.fields, e);
    }
    forall e
      ensures SchemaMsg(e) in Taken(ack, d.sent, list) <==> WasTaken(ack, d.sent, list, e)
    {
      TakenFrom(ack, d.sent, list, e);
    }
  }

  lemma ElementsFirstAppend(trace: seq<Message>, x: Schema)
    requires ElementsFirst(trace)
    ensures ElementsFirst(trace + [SchemaMsg(x)]) <==> ElementsIn(trace, x)
  {
    var longer := trace + [SchemaMsg(x)];
    assert longer[..|trace|] == trace && longer[|trace|] == SchemaMsg(x);
    forall i | 0 <= i < |trace|
      ensures longer[..i] == trace[..i]
    {
    }
  }

  /** Each schema of list could be appended to the trace. */
  ghost predicate Fitting(trace: seq<Message>, list: seq<Schema>) {
    forall k :: 0 <= k < |list| ==> ElementsIn(trace, list[k])
  }

  lemma FittingRest(trace: seq<Message>, msg: Message, list: seq<Schema>)
    requires list != [] && Fitting(trace, list)
    ensures Fitting(trace, list[1..]) && Fitting(trace + [msg], list[1..])
  {
    assert forall k :: 0 <= k < |list[1..]| ==> list[1..][k] == list[k + 1];
  }

  lemma {:induction false} TakenKeepsFirst(ack: Answers, n: nat, list: seq<Schema>, trace: seq<Message>)
    requires ElementsFirst(trace) && Fitting(trace, list)
    ensures ElementsFirst(trace + Taken(ack, n, list))
    decreases |list|
  {
    if list == [] {
      assert trace + Taken(ack, n, list) == trace;
    } else {
      var msg, rest := SchemaMsg(list[0]), Taken(ack, n + 1, list[1..]);
      ElementsFirstAppend(trace, list[0]);
      FittingRest(trace, msg, list);
      assert ElementsIn(trace, list[0]);
      hide ElementsIn, ElementsFirst, Fitting;
      if ack(n) {
        TakenKeepsFirst(ack, n + 1, list[1..], trace + [msg]);
        assert trace + ([msg] + rest) == trace + [msg] + rest;
      } else {
        TakenKeepsFirst(ack, n + 1, list[1..], trace);
      }
    }
  }

  lemma {:induction false} TakenOne(ack: Answers, n: nat, list: seq<Schema>, k: nat)
    requires k < |list| && ack(n + k) && forall j: nat :: n <= j < n + |list| && j != n + k ==> !ack(j)
    ensures Taken(ack, n, list) == [SchemaMsg(list[k])]
    decreases |list|
  {
    if k == 0 {
      TakenNothing(ack, n + 1, list[1..]);
    } else {
      TakenOne(ack, n + 1, list[1..], k - 1);
    }
  }

  /** Marked elements are in the trace, as after any calls that succeeded. */
  ghost predicate ElementsMarkedTrue(d: Deployed, node: Node, x: Schema) {
    forall e :: e in Elements(x.fields) && e in SchemasAt(d, node) ==> SchemaMsg(e) in TraceAt(d, node)
  }

  /** What keeps every call safe: none of the elements still to send has elements that
      are not there yet, and all but the last are there already. */
  ghost predicate OneToSend(trace: seq<Message>, list: seq<Schema>) {
    forall k :: 0 <= k < |list| ==>
      ElementsIn(trace, list[k]) && (list[k] == list[|list| - 1] || SchemaMsg(list[k]) in trace)
  }

  /** Whatever the answers, elements come before their outer schemas exactly when there
      is at most one element still to send, and that needs none itself: the scan goes on
      after a refused element and only its last answer counts. */
  lemma ElementsFirstIff(d: Deployed, node: Node, x: Schema)
    requires x !in SchemasAt(d, node) && ElementsFirst(TraceAt(d, node)) && ElementsMarkedTrue(d, node, x)
    ensures (forall ack: Answers :: ElementsFirst(TraceAt(DeploySchema(ack, d, node, x).1, node))) <==>
            OneToSend(TraceAt(d, node), ToSend(SchemasAt(d, node), x.fields))
  {
    var trace, list := TraceAt(d, node), ToSend(SchemasAt(d, node), x.fields);
    if OneToSend(trace, list) {
      forall ack: Answers
        ensures ElementsFirst(TraceAt(DeploySchema(ack, d, node, x).1, node))
      {
        OneToSendIsSafe(ack, d, node, x);
      }
    } else {
      var ack := RefusingAnswers(d, node, x);
    }
  }

  lemma OneToSendIsSafe(ack: Answers, d: Deployed, node: Node, x: Schema)
    requires x !in SchemasAt(d, node) && ElementsFirst(TraceAt(d, node)) && ElementsMarkedTrue(d, node, x)
    requires OneToSend(TraceAt(d, node), ToSend(SchemasAt(d, node), x.fields))
    ensures ElementsFirst(TraceAt(DeploySchema(ack, d, node, x).1, node))
  {
    var trace, list := TraceAt(d, node), ToSend(SchemasAt(d, node), x.fields);
    DeploySchemaExact(ack, d, node, x);
    TakenKeepsFirst(ack, d.sent, list, trace);
    var longer := trace + Taken(ack, d.sent, list);
    var (ok, d') := DeploySchema(ack, d, node, x);
    if ok {
      forall e | e in Elements(x.fields)
        ensures SchemaMsg(e) in longer
      {
        ToSendHas(SchemasAt(d, node), x.fields, e);
        if e !in SchemasAt(d, node) {
          LastTaken(ack, d.sent, list);
        }
      }
      ElementsFirstAppend(longer, x);
    } else {
      assert TraceAt(d', node) == longer;
    }
  }

  lemma RefusingAnswers(d: Deployed, node: Node, x: Schema) returns (ack: Answers)
    requires x !in SchemasAt(d, node) && ElementsFirst(TraceAt(d, node))
    requires !OneToSend(TraceAt(d, node), ToSend(SchemasAt(d, node), x.fields))
    ensures !ElementsFirst(TraceAt(DeploySchema(ack, d, node, x).1, node))
  {
    var trace, list, n := TraceAt(d, node), ToSend(SchemasAt(d, node), x.fields), d.sent;
    if k :| 0 <= k < |list| && !ElementsIn(trace, list[k]) {
      ack := i => i == n + k;
      TakenOne(ack, n, list, k);
      DeploySchemaExact(ack, d, node, x);
      ElementsFirstAppend(trace, list[k]);
      assert TraceAt(DeploySchema(ack, d, node, x).1, node) == trace + [SchemaMsg(list[k])];
    } else {
      var k :| 0 <= k < |list| && list[k] != list[|list| - 1] && SchemaMsg(list[k]) !in trace;
      var last := |list| - 1;
      ack := i => i == n + last || i == n + |list|;
      TakenOne(ack, n, list, last);
      DeploySchemaExact(ack, d, node, x);
      ElementsFirstAppend(trace, list[last]);
      ElementsFirstAppend(trace + [SchemaMsg(list[last])], x);
      ToSendHas(SchemasAt(d, node), x.fields, list[k]);
      assert SchemaMsg(list[k]) !in trace + [SchemaMsg(list[last])];
      assert TraceAt(DeploySchema(ack, d, node, x).1, node) == trace + [SchemaMsg(list[last])] + [SchemaMsg(x)];
    }
  }

  // ----- subscribers at a node's endpoint

  /** Stream s is marked at node and nothing in its trace defines it. */
  ghost predicate Hidden(d: Deployed, node: Node, s: Stream) {
    s in StreamsAt(d, node) && !DefinedIn(TraceAt(d, node), s)
  }

  ghost predicate BoxesSent(d: Deployed) {
    forall b :: b in d.boxes ==> BoxMsg(b) in TraceAt(d, b.node)
  }

  /** d' came from d by sends to node, which do not define s at n. */
  ghost predicate Follows(d: Deployed, d': Deployed, node: Node, n: Node, s: Stream) {
    && (forall k :: k != node ==> TraceAt(d', k) == TraceAt(d, k))
    && TraceAt(d, node) <= TraceAt(d', node)
    && (!DefinedIn(TraceAt(d, n), s) ==> !DefinedIn(TraceAt(d', n), s))
    && d.boxes <= d'.boxes && (BoxesSent(d) ==> BoxesSent(d'))
  }

  ghost predicate AllTaken(ack: Answers) {
    forall j :: ack(j)
  }

  lemma SendFollows(ack: Answers, d: Deployed, node: Node, msg: Message, n: Node, s: Stream)
    requires node == n ==> !Defines(msg, s)
    ensures Follows(d, Send(ack, d, node, msg).1, node, n, s)
  {
    var d' := Send(ack, d, node, msg).1;
    assert forall k :: k != node ==> TraceAt(d', k) == TraceAt(d, k);
    var longer := TraceAt(d, node) + [msg];
    assert TraceAt(d', node) == TraceAt(d, node) || TraceAt(d', node) == longer;
    if node == n && !DefinedIn(TraceAt(d, node), s) {
      forall i | 0 <= i < |longer|
        ensures !Defines(longer[i], s)
      {
        assert i < |TraceAt(d, node)| ==> longer[i] == TraceAt(d, node)[i];
      }
    }
  }

  lemma MarkFollows(d: Deployed, node: Node, at: Node, t: Stream, x: Schema, n: Node, s: Stream)
    ensures Follows(d, MarkStream(d, at, t), node, n, s) && Follows(d, MarkSchema(d, node, x), node, n, s)
  {
    assert forall k :: TraceAt(MarkStream(d, at, t), k) == TraceAt(d, k) && TraceAt(MarkSchema(d, node, x), k) == TraceAt(d, k);
  }

  lemma FollowsTwice(a: Deployed, b: Deployed, c: Deployed, node: Node, n: Node, s: Stream)
    requires Follows(a, b, node, n, s) && Follows(b, c, node, n, s)
    ensures Follows(a, c, node, n, s)
  {
  }

  lemma {:induction false} ElementsFollow(ack: Answers, d: Deployed, node: Node, x: Schema, fields: seq<Field>, status: bool,
                                          n: Node, s: Stream)
    ensures Follows(d, SendElements(ack, d, node, x, fields, status).1, node, n, s)
    ensures AllTaken(ack) && status ==> SendElements(ack, d, node, x, fields, status).0
    decreases |fields|
  {
    hide Follows;
    if fields == [] {
      MarkFollows(d, node, node, s, x, n, s);
      NoStep(d, node, n, s);
    } else {
      var e := fields[0].element;
      if fields[0].kind == ARRAY && e.Some? && e.value !in SchemasAt(d, node) {
        SendFollows(ack, d, node, SchemaMsg(e.value), n, s);
        var (ok, d1) := Send(ack, d, node, SchemaMsg(e.value));
        MarkFollows(d1, node, node, s, x, n, s);
        var d2 := if ok then MarkSchema(d1, node, x) else d1;
        NoStep(d1, node, n, s);
        FollowsTwice(d, d1, d2, node, n, s);
        ElementsFollow(ack, d2, node, x, fields[1..], ok, n, s);
        FollowsTwice(d, d2, SendElements(ack, d2, node, x, fields[1..], ok).1, node, n, s);
      } else {
        ElementsFollow(ack, d, node, x, fields[1..], status, n, s);
      }
    }
  }

  lemma NoStep(d: Deployed, node: Node, n: Node, s: Stream)
    ensures Follows(d, d, node, n, s)
  {
  }

  lemma SchemaFollows(ack: Answers, d: Deployed, node: Node, x: Schema, n: Node, s: Stream)
    ensures Follows(d, DeploySchema(ack, d, node, x).1, node, n, s)
    ensures AllTaken(ack) ==> DeploySchema(ack, d, node, x).0
    ensures DeploySchema(ack, d, node, x).1.streams == d.streams && DeploySchema(ack, d, node, x).1.boxes == d.boxes
  {
    hide Follows;
    NoStep(d, node, n, s);
    if x !in SchemasAt(d, node) {
      ElementsFollow(ack, d, node, x, x.fields, true, n, s);
      ElementsKeepStreams(ack, d, node, x, x.fields, true);
      var (status, d1) := SendElements(ack, d, node, x, x.fields, true);
      if status {
        SendFollows(ack, d1, node, SchemaMsg(x), n, s);
        var (ok, d2) := Send(ack, d1, node, SchemaMsg(x));
        FollowsTwice(d, d1, d2, node, n, s);
        MarkFollows(d2, node, node, s, x, n, s);
        FollowsTwice(d, d2, MarkSchema(d2, node, x), node, n, s);
      }
    }
  }

  lemma {:induction false} ElementsKeepStreams(ack: Answers, d: Deployed, node: Node, x: Schema, fields: seq<Field>, status: bool)
    ensures SendElements(ack, d, node, x, fields, status).1.streams == d.streams
    ensures SendElements(ack, d, node, x, fields, status).1.boxes == d.boxes
    decreases |fields|
  {
    if fields != [] {
      var e := fields[0].element;
      if fields[0].kind == ARRAY && e.Some? && e.value !in SchemasAt(d, node) {
        var (ok, d1) := Send(ack, d, node, SchemaMsg(e.value));
        ElementsKeepStreams(ack, if ok then MarkSchema(d1, node, x) else d1, node, x, fields[1..], ok);
      } else {
        ElementsKeepStreams(ack, d, node, x, fields[1..], status);
      }
    }
  }

  lemma {:induction false} InputFollows(ack: Answers, d: Deployed, node: Node, inputs: seq<Stream>, m: Schemas, n: Node, s: Stream)
    requires forall t :: t in inputs ==> t in m
    requires node == n ==> s in StreamsAt(d, n) || s !in inputs
    ensures Follows(d, DeployInput(ack, d, node, inputs, m).1, node, n, s)
    ensures AllTaken(ack) ==> DeployInput(ack, d, node, inputs, m).0
    ensures StreamsAt(d, n) <= StreamsAt(DeployInput(ack, d, node, inputs, m).1, n)
    ensures DeployInput(ack, d, node, inputs, m).1.boxes == d.boxes
    decreases |inputs|
  {
    hide Follows;
    NoStep(d, node, n, s);
    if inputs != [] {
      var t := inputs[0];
      if t in StreamsAt(d, node) {
        InputFollows(ack, d, node, inputs[1..], m, n, s);
      } else {
        SchemaFollows(ack, d, node, m[t], n, s);
        var (known, d1) := DeploySchema(ack, d, node, m[t]);
        if known {
          var marked := MarkStream(d1, node, t);
          MarkFollows(d1, node, node, t, m[t], n, s);
          SendFollows(ack, marked, node, InputMsg(t), n, s);
          var (ok, d2) := Send(ack, marked, node, InputMsg(t));
          FollowsTwice(d1, marked, d2, node, n, s);
          FollowsTwice(d, d1, d2, node, n, s);
          if ok {
            InputFollows(ack, d2, node, inputs[1..], m, n, s);
            FollowsTwice(d, d2, DeployInput(ack, d2, node, inputs[1..], m).1, node, n, s);
          }
        }
      }
    }
  }

  lemma {:induction false} InsFollow(ack: Answers, d: Deployed, node: Node, ins: seq<Stream>, source: Sources, m: Schemas,
                                     n: Node, s: Stream)
    requires forall t :: t in ins && t in source ==> t in m
    requires node == n ==> s in StreamsAt(d, n) || !Remote(s, source, n)
    ensures Follows(d, DeployIns(ack, d, node, ins, source, m).1, node, n, s)
    ensures AllTaken(ack) ==> DeployIns(ack, d, node, ins, source, m).0
    ensures StreamsAt(d, n) <= StreamsAt(DeployIns(ack, d, node, ins, source, m).1, n)
    ensures DeployIns(ack, d, node, ins, source, m).1.boxes == d.boxes
    decreases |ins|
  {
    hide Follows;
    NoStep(d, node, n, s);
    if ins != [] {
      var t := ins[0];
      if t !in source || source[t].node == node {
        InsFollow(ack, d, node, ins[1..], source, m, n, s);
      } else {
        SchemaFollows(ack, d, node, m[t], n, s);
        var (known, d1) := DeploySchema(ack, d, node, m[t]);
        if known {
          if t in StreamsAt(d1, node) {
            InsFollow(ack, d1, node, ins[1..], source, m, n, s);
            FollowsTwice(d, d1, DeployIns(ack, d1, node, ins[1..], source, m).1, node, n, s);
          } else {
            var msg := RemoteInputMsg(t, source[t].node);
            SendFollows(ack, d1, node, msg, n, s);
            var (ok, d2) := Send(ack, d1, node, msg);
            FollowsTwice(d, d1, d2, node, n, s);
            if ok {
              var d3 := MarkStream(d2, node, t);
              MarkFollows(d2, node, node, t, m[t], n, s);
              FollowsTwice(d, d2, d3, node, n, s);
              InsFollow(ack, d3, node, ins[1..], source, m, n, s);
              FollowsTwice(d, d3, DeployIns(ack, d3, node, ins[1..], source, m).1, node, n, s);
            }
          }
        }
      }
    }
  }

  lemma BoxFollows(ack: Answers, d: Deployed, node: Node, b: Box, source: Sources, m: Schemas, n: Node, s: Stream)
    requires forall t :: t in b.ins && t in source ==> t in m
    requires node == n ==> (s in StreamsAt(d, n) || !Remote(s, source, n)) && s !in b.outs
    requires b.node == node
    ensures var (ok, d') := DeployBox(ack, d, node, b, source, m);
            && Follows(d, d', node, n, s) && (AllTaken(ack) ==> ok && b in d'.boxes) && StreamsAt(d, n) <= StreamsAt(d', n)
            && d'.boxes <= d.boxes + {b}
  {
    hide Follows;
    InsFollow(ack, d, node, b.ins, source, m, n, s);
    var (ready, d1) := DeployIns(ack, d, node, b.ins, source, m);
    if ready {
      SendFollows(ack, d1, node, BoxMsg(b), n, s);
      var (ok, d2) := Send(ack, d1, node, BoxMsg(b));
      FollowsTwice(d, d1, d2, node, n, s);
      if ok {
        assert TraceAt(d2, node) == TraceAt(d1, node) + [BoxMsg(b)];
        MarkBoxFollows(d2, b, n, s);
        FollowsTwice(d, d2, d2.(boxes := d2.boxes + {b}), node, n, s);
      }
    }
  }

  lemma MarkBoxFollows(d: Deployed, b: Box, n: Node, s: Stream)
    requires BoxMsg(b) in TraceAt(d, b.node)
    ensures Follows(d, d.(boxes := d.boxes + {b}), b.node, n, s)
  {
    var d' := d.(boxes := d.boxes + {b});
    assert forall k :: TraceAt(d', k) == TraceAt(d, k) && StreamsAt(d', k) == StreamsAt(d, k);
  }

  lemma {:induction false} BoxesFollow(ack: Answers, d: Deployed, node: Node, boxes: seq<Box>, source: Sources, m: Schemas,
                                       n: Node, s: Stream)
    requires forall b, t :: b in boxes && t in b.ins && t in source ==> t in m
    requires forall b :: b in boxes ==> b.node == node && (node == n ==> s !in b.outs)
    requires node == n ==> s in StreamsAt(d, n) || !Remote(s, source, n)
    ensures var (ok, d') := DeployBoxes(ack, d, node, boxes, source, m);
            && Follows(d, d', node, n, s) && StreamsAt(d, n) <= StreamsAt(d', n)
            && (AllTaken(ack) ==> ok && forall b :: b in boxes ==> b in d'.boxes)
            && (forall b :: b in d'.boxes ==> b in d.boxes || b in boxes)
    decreases |boxes|
  {
    hide DefinedIn, BoxesSent;
    if boxes != [] {
      if boxes[0] in d.boxes {
        BoxesFollow(ack, d, node, boxes[1..], source, m, n, s);
      } else {
        BoxFollows(ack, d, node, boxes[0], source, m, n, s);
        var (ok, d1) := DeployBox(ack, d, node, boxes[0], source, m);
        if ok {
          BoxesFollow(ack, d1, node, boxes[1..], source, m, n, s);
          FollowsTwice(d, d1, DeployBoxes(ack, d1, node, boxes[1..], source, m).1, node, n, s);
        }
      }
    }
  }

  lemma {:induction false} OutputFollows(ack: Answers, d: Deployed, node: Node, output: seq<Subscription>, status: bool,
                                         n: Node, s: Stream)
    ensures var (ok, d') := DeployOutput(ack, d, node, output, status);
            && Follows(d, d', node, n, s) && StreamsAt(d, n) <= StreamsAt(d', n) && d'.boxes == d.boxes
            && (AllTaken(ack) && status ==> ok)
            && (AllTaken(ack) && (exists o :: o in output && o.endpoint == n && o.stream == s) ==> s in StreamsAt(d', n))
    decreases |output|
  {
    hide DefinedIn, BoxesSent;
    if output != [] {
      var o := output[0];
      if o.stream in StreamsAt(d, o.endpoint) {
        OutputFollows(ack, d, node, output[1..], status, n, s);
      } else {
        var msg := SubscribeMsg(o.stream, o.endpoint);
        SendFollows(ack, d, node, msg, n, s);
        var (ok, d1) := Send(ack, d, node, msg);
        MarkFollows(d1, node, o.endpoint, o.stream, Schema("", []), n, s);
        var d2 := if ok then MarkStream(d1, o.endpoint, o.stream) else d1;
        FollowsTwice(d, d1, d2, node, n, s);
        OutputFollows(ack, d2, node, output[1..], ok, n, s);
        FollowsTwice(d, d2, DeployOutput(ack, d2, node, output[1..], ok).1, node, n, s);
      }
    }
  }

  lemma NodeFollows(ack: Answers, d: Deployed, plan: Plan, source: Sources, m: Schemas, n: Node, s: Stream)
    requires HasSchemas(plan, source, m)
    requires forall b :: b in plan.boxes ==> b.node == plan.node && (plan.node == n ==> s !in b.outs)
    requires plan.node == n ==> s in StreamsAt(d, n)
    ensures var (ok, d') := DeployNode(ack, d, plan, source, m);
            && (forall b :: b in d'.boxes ==> b in d.boxes || b in plan.boxes)
            && Follows(d, d', plan.node, n, s) && StreamsAt(d, n) <= StreamsAt(d', n)
            && (AllTaken(ack) ==> ok && forall b :: b in plan.boxes ==> b in d'.boxes)
            && (AllTaken(ack) && (exists o :: o in plan.output && o.endpoint == n && o.stream == s) ==> s in StreamsAt(d', n))
  {
    InputFollows(ack, d, plan.node, plan.inputs, m, n, s);
    var (ok1, d1) := DeployInput(ack, d, plan.node, plan.inputs, m);
    if ok1 {
      BoxesFollow(ack, d1, plan.node, plan.boxes, source, m, n, s);
      var (ok2, d2) := DeployBoxes(ack, d1, plan.node, plan.boxes, source, m);
      FollowsTwice(d, d1, d2, plan.node, n, s);
      if ok2 {
        OutputFollows(ack, d2, plan.node, plan.output, true, n, s);
        FollowsTwice(d, d2, DeployOutput(ack, d2, plan.node, plan.output, true).1, plan.node, n, s);
      }
    }
  }

  /** A node has one plan, its boxes are on it, source says where their outs come from,
      and subscriptions are to streams from the plan's own node. */
  ghost predicate PlansWired(plans: seq<Plan>, source: Sources) {
    && (forall i, j :: 0 <= i < j < |plans| ==> plans[i].node != plans[j].node)
    && (forall p, b :: p in plans && b in p.boxes ==> b.node == p.node)
    && (forall p, b, s :: p in plans && b in p.boxes && s in b.outs ==> s in source && source[s] == b)
    && forall p, o :: p in plans && o in p.output ==> o.stream in source && source[o.stream].node == p.node
  }

  lemma WiredRest(plans: seq<Plan>, source: Sources)
    requires PlansWired(plans, source) && plans != []
    ensures PlansWired(plans[1..], source)
  {
    var rest := plans[1..];
    assert forall p :: p in rest ==> p in plans;
    assert forall i :: 0 <= i < |rest| ==> rest[i] == plans[i + 1];
  }

  /** With every send taken a hidden stream stays hidden and every box is sent. */
  lemma {:induction false} PlansFollow(ack: Answers, d: Deployed, plans: seq<Plan>, source: Sources, m: Schemas, n: Node, s: Stream)
    requires forall p :: p in plans ==> HasSchemas(p, source, m)
    requires PlansWired(plans, source) && AllTaken(ack) && s in source && source[s].node != n
    requires Hidden(d, n, s) && BoxesSent(d)
    ensures var (ok, d') := DeployNodes(ack, d, plans, source, m);
            && ok && Hidden(d', n, s) && BoxesSent(d') && d.boxes <= d'.boxes
            && forall p, b :: p in plans && b in p.boxes ==> b in d'.boxes
    decreases |plans|
  {
    if plans != [] {
      NodeFollows(ack, d, plans[0], source, m, n, s);
      var (ok, d1) := DeployNode(ack, d, plans[0], source, m);
      WiredRest(plans, source);
      PlansFollow(ack, d1, plans[1..], source, m, n, s);
      var (_, d') := DeployNodes(ack, d1, plans[1..], source, m);
      forall p, b | p in plans && b in p.boxes
        ensures b in d'.boxes
      {
        assert p == plans[0] || p in plans[1..];
      }
    }
  }

  /** o, of plan i, subscribes the later node of plan j to a stream its box b reads. */
  ghost predicate Hides(plans: seq<Plan>, i: nat, j: nat, o: Subscription, b: Box) {
    && i < j < |plans| && o in plans[i].output && b in plans[j].boxes && o.stream in b.ins && o.endpoint == plans[j].node
  }

  /** When the first plan subscribes a later node to a stream one of its boxes reads,
      that box is sent with nothing to define the stream... */
  lemma FirstHides(ack: Answers, d: Deployed, plans: seq<Plan>, source: Sources, m: Schemas, j: nat, o: Subscription, b: Box)
    requires forall p :: p in plans ==> HasSchemas(p, source, m)
    requires PlansWired(plans, source) && AllTaken(ack) && BoxesSent(d)
    requires Hides(plans, 0, j, o, b) && TraceAt(d, o.endpoint) == []
    ensures !AllInOrder(DeployNodes(ack, d, plans, source, m).1, m)
  {
    hide AllInOrder, HasSchemas;
    var n, s, rest := o.endpoint, o.stream, plans[1..];
    assert plans[0] in plans && plans[j] == rest[j - 1] && plans[j] in plans && plans[0].node != plans[j].node;
    NodeFollows(ack, d, plans[0], source, m, n, s);
    var d1 := DeployNode(ack, d, plans[0], source, m).1;
    WiredRest(plans, source);
    hide PlansWired;
    PlansFollow(ack, d1, rest, source, m, n, s);
    UndefinedBox(DeployNodes(ack, d1, rest, source, m).1, b, s, m);
  }

  lemma HidesRest(plans: seq<Plan>, i: nat, j: nat, o: Subscription, b: Box, source: Sources)
    requires 0 < i && Hides(plans, i, j, o, b) && PlansWired(plans, source)
    ensures Hides(plans[1..], i - 1, j - 1, o, b) && plans[0] in plans && plans[0].node != o.endpoint
  {
    assert plans[i] == plans[1..][i - 1] && plans[j] == plans[1..][j - 1];
  }

  /** ...and so does any plan before that node's. */
  lemma {:induction false} SubscriberHides(ack: Answers, d: Deployed, plans: seq<Plan>, source: Sources, m: Schemas,
                                           i: nat, j: nat, o: Subscription, b: Box)
    requires forall p :: p in plans ==> HasSchemas(p, source, m)
    requires PlansWired(plans, source) && AllTaken(ack) && BoxesSent(d)
    requires Hides(plans, i, j, o, b) && TraceAt(d, o.endpoint) == []
    ensures !AllInOrder(DeployNodes(ack, d, plans, source, m).1, m)
    decreases |plans|
  {
    hide *;
    if i == 0 {
      FirstHides(ack, d, plans, source, m, j, o, b);
    } else {
      PlanBefore(ack, d, plans, source, m, i, j, o, b);
      SubscriberHides(ack, DeployNode(ack, d, plans[0], source, m).1, plans[1..], source, m, i - 1, j - 1, o, b);
    }
  }

  lemma PlanBefore(ack: Answers, d: Deployed, plans: seq<Plan>, source: Sources, m: Schemas, i: nat, j: nat, o: Subscription, b: Box)
    requires forall p :: p in plans ==> HasSchemas(p, source, m)
    requires PlansWired(plans, source) && AllTaken(ack) && BoxesSent(d)
    requires 0 < i && Hides(plans, i, j, o, b) && TraceAt(d, o.endpoint) == []
    ensures plans[0] in plans && (forall p :: p in plans[1..] ==> p in plans) && i < j < |plans|
    ensures var d1 := DeployNode(ack, d, plans[0], source, m).1;
            && PlansWired(plans[1..], source) && BoxesSent(d1)
            && Hides(plans[1..], i - 1, j - 1, o, b) && TraceAt(d1, o.endpoint) == []
            && DeployNodes(ack, d, plans, source, m) == DeployNodes(ack, d1, plans[1..], source, m)
  {
    HidesRest(plans, i, j, o, b, source);
    WiredRest(plans, source);
    hide HasSchemas, Hides, BoxesSent;
    NodeFollows(ack, d, plans[0], source, m, o.endpoint, o.stream);
  }

  lemma UndefinedBox(d: Deployed, b: Box, s: Stream, m: Schemas)
    requires b in d.boxes && BoxesSent(d) && s in b.ins && !DefinedIn(TraceAt(d, b.node), s)
    ensures !AllInOrder(d, m)
  {
    var trace := TraceAt(d, b.node);
    var k :| 0 <= k < |trace| && trace[k] == BoxMsg(b);
    if DefinedIn(trace[..k], s) {
      DefinedInLonger(trace[..k], trace, s);
    }
    assert !Prepared(trace[..k], trace[k], m);
    assert !InOrder(trace, m);
  }

  /** Every trace is in order whatever the nodes answer exactly when no node is
      subscribed, before its turn, to a stream that one of its boxes reads. */
  lemma InOrderIffNoneHidden(plans: seq<Plan>, source: Sources, m: Schemas)
    requires forall p :: p in plans ==> HasSchemas(p, source, m) && Ordered(p, source)
    requires PlansWired(plans, source)
    ensures (forall ack: Answers :: AllInOrder(DeployNodes(ack, NOTHING, plans, source, m).1, m)) <==> NoneHidden(plans)
  {
    hide Ordered, HasSchemas, PlansWired, AllInOrder, Apart;
    if NoneHidden(plans) {
      forall ack: Answers
        ensures AllInOrder(DeployNodes(ack, NOTHING, plans, source, m).1, m)
      {
        NothingIsSound(plans, m);
        DeployNodesInOrder(ack, NOTHING, plans, source, m);
      }
    } else {
      var i, j :| 0 <= i < j < |plans| && !Apart(plans[i], plans[j]);
      var o, b := HidingSubscription(plans[i], plans[j]);
      var ack: Answers := n => true;
      SubscriberHides(ack, NOTHING, plans, source, m, i, j, o, b);
    }
  }

  lemma HidingSubscription(earlier: Plan, later: Plan) returns (o: Subscription, b: Box)
    requires !Apart(earlier, later)
    ensures o in earlier.output && b in later.boxes && o.stream in b.ins && o.endpoint == later.node
  {
    o, b :| o in earlier.output && b in later.boxes && o.stream in b.ins && o.endpoint == later.node;
  }
}
