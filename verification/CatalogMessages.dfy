/**
  The catalog of the head, the messages that tell of it, and what they say.
*/
module CatalogMessages {
  // ----- the catalog and its messages

  datatype Item = Item(name: string, body: string, node: string)

  datatype Stream = Stream(name: string, body: string, isInput: bool, isOutput: bool, subscriptions: seq<string>)

  /** Each map in the order its keys are iterated. */
  datatype Catalog = Catalog(schemas: seq<Item>, streams: seq<Stream>, tables: seq<Item>, boxes: seq<Item>, views: seq<Item>)

  datatype Kind = Box | Table

  datatype Msg =
    | SchemaMsg(name: string, body: string)
    | InputMsg(name: string, body: string)
    | TableMsg(name: string, body: string)
    | BoxMsg(name: string, body: string, node: string)
    | SubscribeMsg(text: string)
    | ViewMsg(name: string, body: string)
    | MoveMsg(kind: Kind, name: string, node: string)
    | Loaded

  const PHASES: nat := 6

  /** The messages of each entry of the map that phase p of the sender walks. */
  function Entries(cat: Catalog, p: nat): seq<seq<Msg>> {
    match p
    case 0 => seq(|cat.schemas|, i requires 0 <= i < |cat.schemas| => [SchemaMsg(cat.schemas[i].name, cat.schemas[i].body)])
    case 1 => seq(|cat.streams|, i requires 0 <= i < |cat.streams| =>
      if cat.streams[i].isInput then [InputMsg(cat.streams[i].name, cat.streams[i].body)] else [])
    case 2 => seq(|cat.tables|, i requires 0 <= i < |cat.tables| => [TableMsg(cat.tables[i].name, cat.tables[i].body)])
    case 3 => seq(|cat.boxes|, i requires 0 <= i < |cat.boxes| =>
      [BoxMsg(cat.boxes[i].name, cat.boxes[i].body, cat.boxes[i].node)])
    case 4 => seq(|cat.streams|, i requires 0 <= i < |cat.streams| =>
      if cat.streams[i].isOutput then Subscriptions(cat.streams[i].subscriptions) else [])
    case 5 => seq(|cat.views|, i requires 0 <= i < |cat.views| => [ViewMsg(cat.views[i].name, cat.views[i].body)])
    case _ => []
  }

  function Subscriptions(texts: seq<string>): seq<Msg> {
    seq(|texts|, i requires 0 <= i < |texts| => SubscribeMsg(texts[i]))
  }

  function Flat(entries: seq<seq<Msg>>): seq<Msg> {
    if entries == [] then [] else Flat(entries[..|entries| - 1]) + entries[|entries| - 1]
  }

  /** All schemas, inputs, tables, boxes, subscriptions and views, in this order. */
  function Messages(cat: Catalog): seq<Msg> {
    Flat(Entries(cat, 0)) + Flat(Entries(cat, 1)) + Flat(Entries(cat, 2))
    + Flat(Entries(cat, 3)) + Flat(Entries(cat, 4)) + Flat(Entries(cat, 5))
  }

  // ----- updates

  datatype Update = Modify(kind: Kind, name: string, body: string) | Move(kind: Kind, name: string, node: string) | Malformed

  /** An empty node leaves the node alone. */
  function Revised(item: Item, u: Update): Item
    requires !u.Malformed?
  {
    if item.name != u.name then item
    else if u.Modify? then item.(body := u.body)
    else if u.node != "" then item.(node := u.node)
    else item
  }

  function ReviseAll(items: seq<Item>, u: Update): seq<Item>
    requires !u.Malformed?
  {
    seq(|items|, i requires 0 <= i < |items| => Revised(items[i], u))
  }

  /** A name that is not in the catalog changes nothing. */
  function ApplyUpdate(cat: Catalog, u: Update): Catalog {
    if u.Malformed? then cat
    else if u.kind.Box? then cat.(boxes := ReviseAll(cat.boxes, u))
    else cat.(tables := ReviseAll(cat.tables, u))
  }

  // ----- what the messages are

  /** The place of a message's kind in a load. */
  function Rank(m: Msg): nat {
    match m
    case SchemaMsg(_, _) => 0
    case InputMsg(_, _) => 1
    case TableMsg(_, _) => 2
    case BoxMsg(_, _, _) => 3
    case SubscribeMsg(_) => 4
    case ViewMsg(_, _) => 5
    case MoveMsg(_, _, _) => 6
    case Loaded => 7
  }

  function OfRank(msgs: seq<Msg>, r: nat): seq<Msg> {
    if msgs == [] then []
    else if Rank(msgs[0]) == r then [msgs[0]] + OfRank(msgs[1..], r)
    else OfRank(msgs[1..], r)
  }

  ghost predicate RanksRise(msgs: seq<Msg>) {
    && (forall m :: m in msgs ==> Rank(m) < PHASES)
    && forall i, j :: 0 <= i < j < |msgs| ==> Rank(msgs[i]) <= Rank(msgs[j])
  }

  function Inputs(streams: seq<Stream>): seq<Stream> {
    if streams == [] then []
    else if streams[0].isInput then [streams[0]] + Inputs(streams[1..])
    else Inputs(streams[1..])
  }

  function Texts(streams: seq<Stream>): seq<string> {
    if streams == [] then []
    else if streams[0].isOutput then streams[0].subscriptions + Texts(streams[1..])
    else Texts(streams[1..])
  }

  /** The messages tell of this catalog: kind after kind, and of each kind one by one the
      things of the catalog in the order of their map, with their own name, body and node. */
  ghost predicate TellsOf(msgs: seq<Msg>, cat: Catalog) {
    && RanksRise(msgs)
    && TellsSchemas(OfRank(msgs, 0), cat.schemas)
    && TellsInputs(OfRank(msgs, 1), Inputs(cat.streams))
    && TellsTables(OfRank(msgs, 2), cat.tables)
    && TellsBoxes(OfRank(msgs, 3), cat.boxes)
    && TellsSubscriptions(OfRank(msgs, 4), Texts(cat.streams))
    && TellsViews(OfRank(msgs, 5), cat.views)
  }

  ghost predicate TellsSchemas(msgs: seq<Msg>, items: seq<Item>) {
    |msgs| == |items| && forall i :: 0 <= i < |items| ==> msgs[i] == SchemaMsg(items[i].name, items[i].body)
  }

  ghost predicate TellsInputs(msgs: seq<Msg>, streams: seq<Stream>) {
    |msgs| == |streams| && forall i :: 0 <= i < |streams| ==> msgs[i] == InputMsg(streams[i].name, streams[i].body)
  }

  ghost predicate TellsTables(msgs: seq<Msg>, items: seq<Item>) {
    |msgs| == |items| && forall i :: 0 <= i < |items| ==> msgs[i] == TableMsg(items[i].name, items[i].body)
  }

  ghost predicate TellsBoxes(msgs: seq<Msg>, items: seq<Item>) {
    |msgs| == |items| && forall i :: 0 <= i < |items| ==> msgs[i] == BoxMsg(items[i].name, items[i].body, items[i].node)
  }

  ghost predicate TellsSubscriptions(msgs: seq<Msg>, texts: seq<string>) {
    |msgs| == |texts| && forall i :: 0 <= i < |texts| ==> msgs[i] == SubscribeMsg(texts[i])
  }

  ghost predicate TellsViews(msgs: seq<Msg>, items: seq<Item>) {
    |msgs| == |items| && forall i :: 0 <= i < |items| ==> msgs[i] == ViewMsg(items[i].name, items[i].body)
  }

  lemma {:induction false} OfRankJoin(a: seq<Msg>, b: seq<Msg>, r: nat)
    ensures OfRank(a + b, r) == OfRank(a, r) + OfRank(b, r)
  {
    if a == [] {
      assert a + b == b;
    } else {
      OfRankJoin(a[1..], b, r);
      assert (a + b)[1..] == a[1..] + b;
    }
  }

  lemma {:induction false} OneRank(msgs: seq<Msg>, p: nat, r: nat)
    requires forall m :: m in msgs ==> Rank(m) == p
    ensures OfRank(msgs, r) == if r == p then msgs else []
  {
    if msgs != [] {
      assert msgs[0] in msgs;
      OneRank(msgs[1..], p, r);
    }
  }

  lemma {:induction false} FlatElements(entries: seq<seq<Msg>>, m: Msg)
    requires m in Flat(entries)
    ensures exists i :: 0 <= i < |entries| && m in entries[i]
  {
    var n := |entries| - 1;
    if m in entries[n] {
    } else {
      FlatElements(entries[..n], m);
      var i :| 0 <= i < n && m in entries[..n][i];
      assert m in entries[i];
    }
  }

  /** A phase sends messages of its own rank. */
  lemma PhaseRank(cat: Catalog, p: nat)
    requires p < PHASES
    ensures forall m :: m in Flat(Entries(cat, p)) ==> Rank(m) == p
  {
    forall m | m in Flat(Entries(cat, p))
      ensures Rank(m) == p
    {
      FlatElements(Entries(cat, p), m);
    }
  }

  function Phases(cat: Catalog, p: nat): seq<Msg> {
    if p == 0 then [] else Phases(cat, p - 1) + Flat(Entries(cat, p - 1))
  }

  lemma SixPhases(cat: Catalog)
    ensures Phases(cat, PHASES) == Messages(cat)
  {
    hide Entries, Flat;
    assert Phases(cat, 1) == Flat(Entries(cat, 0));
    assert Phases(cat, 3) == Phases(cat, 1) + Flat(Entries(cat, 1)) + Flat(Entries(cat, 2));
    assert Phases(cat, 5) == Phases(cat, 3) + Flat(Entries(cat, 3)) + Flat(Entries(cat, 4));
    assert Phases(cat, 6) == Phases(cat, 5) + Flat(Entries(cat, 5));
  }

  ghost predicate RanksBelow(msgs: seq<Msg>, p: nat) {
    forall m :: m in msgs ==> Rank(m) < p
  }

  lemma {:induction false} PhasesRise(cat: Catalog, p: nat)
    requires p <= PHASES
    ensures RanksRise(Phases(cat, p)) && RanksBelow(Phases(cat, p), p)
  {
    if p > 0 {
      PhasesRise(cat, p - 1);
      PhaseRank(cat, p - 1);
      hide Entries, Flat, RanksRise, RanksBelow, Rank;
      RisesOn(Phases(cat, p - 1), Flat(Entries(cat, p - 1)), p - 1);
    }
  }

  lemma JoinOfRank(a: seq<Msg>, b: seq<Msg>, p: nat, r: nat)
    requires forall m :: m in b ==> Rank(m) == p
    ensures OfRank(a + b, r) == if r == p then OfRank(a, r) + b else OfRank(a, r)
  {
    hide Rank;
    OneRank(b, p, r);
    OfRankJoin(a, b, r);
    hide OfRank;
    assert OfRank(a, r) + [] == OfRank(a, r);
  }

  lemma NoneOfRank(r: nat)
    ensures OfRank([], r) == []
  {
  }

  lemma {:induction false} PhasesOfRank(cat: Catalog, p: nat, r: nat)
    requires p <= PHASES
    ensures OfRank(Phases(cat, p), r) == if r < p then Flat(Entries(cat, r)) else []
  {
    hide Entries, Flat, OfRank, Rank;
    if p == 0 {
      NoneOfRank(r);
    } else {
      PhasesOfRank(cat, p - 1, r);
      PhaseRank(cat, p - 1);
      JoinOfRank(Phases(cat, p - 1), Flat(Entries(cat, p - 1)), p - 1, r);
      assert [] + Flat(Entries(cat, p - 1)) == Flat(Entries(cat, p - 1));
    }
  }

  lemma RisesOn(a: seq<Msg>, b: seq<Msg>, p: nat)
    requires p < PHASES && RanksRise(a) && RanksBelow(a, p) && forall m :: m in b ==> Rank(m) == p
    ensures RanksRise(a + b) && RanksBelow(a + b, p + 1)
  {
    hide Rank;
    var msgs := a + b;
    forall i, j | 0 <= i < j < |msgs|
      ensures Rank(msgs[i]) <= Rank(msgs[j])
    {
      assert msgs[i] in if i < |a| then a else b;
      assert msgs[j] in if j < |a| then a else b;
    }
  }

  lemma {:induction false} FlatOfOnes(entries: seq<seq<Msg>>)
    requires forall i :: 0 <= i < |entries| ==> |entries[i]| == 1
    ensures |Flat(entries)| == |entries| && forall i :: 0 <= i < |entries| ==> Flat(entries)[i] == entries[i][0]
  {
    if entries != [] {
      FlatOfOnes(entries[..|entries| - 1]);
    }
  }

  lemma {:induction false} FlatFirst(entries: seq<seq<Msg>>)
    requires entries != []
    ensures Flat(entries) == entries[0] + Flat(entries[1..])
  {
    var n := |entries| - 1;
    if n == 0 {
      assert entries[..0] == [] && entries[1..] == [];
    } else {
      FlatFirst(entries[..n]);
      var rest := entries[1..];
      assert entries[..n][1..] == rest[..n - 1] && rest[n - 1] == entries[n];
      assert Flat(rest) == Flat(rest[..n - 1]) + entries[n];
      hide Flat;
      assert entries[0] + (Flat(rest[..n - 1]) + entries[n]) == entries[0] + Flat(rest[..n - 1]) + entries[n];
    }
  }

  function OnlyStreams(streams: seq<Stream>): Catalog {
    Catalog([], streams, [], [], [])
  }

  lemma StreamEntries(streams: seq<Stream>, p: nat)
    requires streams != [] && (p == 1 || p == 4)
    ensures Entries(OnlyStreams(streams), p) != []
    ensures Entries(OnlyStreams(streams), p)[1..] == Entries(OnlyStreams(streams[1..]), p)
  {
  }

  lemma InputsJoin(a: seq<Msg>, b: seq<Msg>, s: seq<Stream>, t: seq<Stream>)
    requires TellsInputs(a, s) && TellsInputs(b, t)
    ensures TellsInputs(a + b, s + t)
  {
  }

  lemma FirstInput(streams: seq<Stream>)
    requires streams != []
    ensures TellsInputs(Entries(OnlyStreams(streams), 1)[0], if streams[0].isInput then [streams[0]] else [])
    ensures Inputs(streams) == (if streams[0].isInput then [streams[0]] else []) + Inputs(streams[1..])
  {
  }

  lemma {:induction false} InputsTold(streams: seq<Stream>)
    ensures TellsInputs(Flat(Entries(OnlyStreams(streams), 1)), Inputs(streams))
  {
    if streams != [] {
      InputsTold(streams[1..]);
      StreamEntries(streams, 1);
      FirstInput(streams);
      var entries := Entries(OnlyStreams(streams), 1);
      FlatFirst(entries);
      hide *;
      InputsJoin(entries[0], Flat(entries[1..]), if streams[0].isInput then [streams[0]] else [], Inputs(streams[1..]));
    }
  }

  lemma SubscriptionsJoin(a: seq<Msg>, b: seq<Msg>, s: seq<string>, t: seq<string>)
    requires TellsSubscriptions(a, s) && TellsSubscriptions(b, t)
    ensures TellsSubscriptions(a + b, s + t)
  {
  }

  lemma FirstSubscriptions(streams: seq<Stream>)
    requires streams != []
    ensures TellsSubscriptions(Entries(OnlyStreams(streams), 4)[0], if streams[0].isOutput then streams[0].subscriptions else [])
    ensures Texts(streams) == (if streams[0].isOutput then streams[0].subscriptions else []) + Texts(streams[1..])
  {
  }

  lemma {:induction false} SubscriptionsTold(streams: seq<Stream>)
    ensures TellsSubscriptions(Flat(Entries(OnlyStreams(streams), 4)), Texts(streams))
  {
    if streams != [] {
      SubscriptionsTold(streams[1..]);
      StreamEntries(streams, 4);
      FirstSubscriptions(streams);
      var entries := Entries(OnlyStreams(streams), 4);
      FlatFirst(entries);
      hide *;
      SubscriptionsJoin(entries[0], Flat(entries[1..]), if streams[0].isOutput then streams[0].subscriptions else [],
                        Texts(streams[1..]));
    }
  }

  lemma ItemsTold(cat: Catalog)
    ensures TellsSchemas(Flat(Entries(cat, 0)), cat.schemas) && TellsViews(Flat(Entries(cat, 5)), cat.views)
    ensures TellsTables(Flat(Entries(cat, 2)), cat.tables) && TellsBoxes(Flat(Entries(cat, 3)), cat.boxes)
  {
    FlatOfOnes(Entries(cat, 0));
    FlatOfOnes(Entries(cat, 2));
    FlatOfOnes(Entries(cat, 3));
    FlatOfOnes(Entries(cat, 5));
    hide Flat;
  }

  lemma StreamsTold(cat: Catalog)
    ensures TellsInputs(Flat(Entries(cat, 1)), Inputs(cat.streams))
    ensures TellsSubscriptions(Flat(Entries(cat, 4)), Texts(cat.streams))
  {
    InputsTold(cat.streams);
    SubscriptionsTold(cat.streams);
    hide Flat, Inputs, Texts;
    assert Entries(cat, 1) == Entries(OnlyStreams(cat.streams), 1);
    assert Entries(cat, 4) == Entries(OnlyStreams(cat.streams), 4);
  }

  lemma MessagesTell(cat: Catalog)
    ensures TellsOf(Messages(cat), cat)
  {
    SixPhases(cat);
    ItemsTold(cat);
    StreamsTold(cat);
    PhasesRise(cat, PHASES);
    forall r: nat | r < PHASES
      ensures OfRank(Messages(cat), r) == Flat(Entries(cat, r))
    {
      PhasesOfRank(cat, PHASES, r);
    }
    hide Entries, Flat, Messages, RanksRise, Inputs, Texts;
    assert forall r: nat :: r < 6 ==> OfRank(Messages(cat), r) == Flat(Entries(cat, r));
  }

  /** Messages whose ranks rise are determined by those of each rank. */
  lemma {:induction false} RanksDetermine(a: seq<Msg>, b: seq<Msg>)
    requires RanksRise(a) && RanksRise(b) && forall r: nat :: r < PHASES ==> OfRank(a, r) == OfRank(b, r)
    ensures a == b
  {
    if a != [] || b != [] {
      if a != [] {
        FirstOfRank(a, b);
      }
      if b != [] {
        FirstOfRank(b, a);
      }
      assert a[0] == b[0];
      forall r: nat | r < PHASES
        ensures OfRank(a[1..], r) == OfRank(b[1..], r)
      {
        assert OfRank(a, r) == OfRank(b, r);
        if Rank(a[0]) == r {
          assert OfRank(a, r)[1..] == OfRank(a[1..], r) && OfRank(b, r)[1..] == OfRank(b[1..], r);
        }
      }
      RanksDetermine(a[1..], b[1..]);
      assert a == [a[0]] + a[1..] && b == [b[0]] + b[1..];
    }
  }

  lemma FirstOfRank(a: seq<Msg>, b: seq<Msg>)
    requires a != [] && RanksRise(a) && RanksRise(b) && forall r: nat :: r < PHASES ==> OfRank(a, r) == OfRank(b, r)
    ensures b != [] && Rank(b[0]) <= Rank(a[0]) && OfRank(a, Rank(a[0]))[0] == a[0]
  {
    assert a[0] in a;
    var r := Rank(a[0]);
    assert OfRank(b, r) == OfRank(a, r) && OfRank(a, r) != [];
    HasRank(b, r);
  }

  lemma {:induction false} HasRank(msgs: seq<Msg>, r: nat)
    requires OfRank(msgs, r) != []
    ensures exists i :: 0 <= i < |msgs| && Rank(msgs[i]) == r
  {
    if Rank(msgs[0]) != r {
      HasRank(msgs[1..], r);
      var i :| 0 <= i < |msgs[1..]| && Rank(msgs[1..][i]) == r;
      assert Rank(msgs[i + 1]) == r;
    }
  }

  lemma OneTelling(a: seq<Msg>, b: seq<Msg>, items: seq<Item>, streams: seq<Stream>, texts: seq<string>)
    ensures TellsSchemas(a, items) && TellsSchemas(b, items) ==> a == b
    ensures TellsInputs(a, streams) && TellsInputs(b, streams) ==> a == b
    ensures TellsTables(a, items) && TellsTables(b, items) ==> a == b
    ensures TellsBoxes(a, items) && TellsBoxes(b, items) ==> a == b
    ensures TellsSubscriptions(a, texts) && TellsSubscriptions(b, texts) ==> a == b
    ensures TellsViews(a, items) && TellsViews(b, items) ==> a == b
  {
  }

  /** The messages of a catalog are the one sequence that tells of it. */
  lemma ToldIff(msgs: seq<Msg>, cat: Catalog)
    ensures TellsOf(msgs, cat) <==> msgs == Messages(cat)
  {
    hide Messages;
    MessagesTell(cat);
    if TellsOf(msgs, cat) {
      SameTelling(msgs, Messages(cat), cat);
    }
  }

  lemma SameTelling(a: seq<Msg>, b: seq<Msg>, cat: Catalog)
    requires TellsOf(a, cat) && TellsOf(b, cat)
    ensures a == b
  {
    hide Inputs, Texts, RanksRise, OfRank, TellsSchemas, TellsInputs, TellsTables, TellsBoxes, TellsSubscriptions, TellsViews;
    OneTelling(OfRank(a, 0), OfRank(b, 0), cat.schemas, [], []);
    OneTelling(OfRank(a, 1), OfRank(b, 1), [], Inputs(cat.streams), []);
    OneTelling(OfRank(a, 2), OfRank(b, 2), cat.tables, [], []);
    OneTelling(OfRank(a, 3), OfRank(b, 3), cat.boxes, [], []);
    OneTelling(OfRank(a, 4), OfRank(b, 4), [], [], Texts(cat.streams));
    OneTelling(OfRank(a, 5), OfRank(b, 5), cat.views, [], []);
    SixRanks(a, b);
    RanksDetermine(a, b);
  }

  lemma SixRanks(a: seq<Msg>, b: seq<Msg>)
    requires OfRank(a, 0) == OfRank(b, 0) && OfRank(a, 1) == OfRank(b, 1) && OfRank(a, 2) == OfRank(b, 2)
    requires OfRank(a, 3) == OfRank(b, 3) && OfRank(a, 4) == OfRank(b, 4) && OfRank(a, 5) == OfRank(b, 5)
    ensures forall r: nat :: r < PHASES ==> OfRank(a, r) == OfRank(b, r)
  {
    hide OfRank;
  }

  /** What a component has once it was told of the whole catalog. */
  ghost predicate WholeLoad(got: seq<Msg>, cat: Catalog) {
    got != [] && TellsOf(got[..|got| - 1], cat) && got[|got| - 1] == Loaded
  }

  lemma WholeLoadIff(got: seq<Msg>, cat: Catalog)
    ensures WholeLoad(got, cat) <==> got == Messages(cat) + [Loaded]
  {
    hide TellsOf, Messages;
    if got != [] {
      ToldIff(got[..|got| - 1], cat);
      assert got == got[..|got| - 1] + [got[|got| - 1]];
    }
    assert (Messages(cat) + [Loaded])[..|Messages(cat)|] == Messages(cat);
  }

  // ----- what an update does to them

  /** A message that names the thing an update is about. */
  function Rewritten(m: Msg, u: Update): Msg {
    match u
    case Modify(Box, name, body) => if m.BoxMsg? && m.name == name then BoxMsg(name, body, m.node) else m
    case Modify(Table, name, body) => if m.TableMsg? && m.name == name then TableMsg(name, body) else m
    case Move(Box, name, node) => if m.BoxMsg? && m.name == name && node != "" then BoxMsg(name, m.body, node) else m
    case Move(Table, _, _) => m
    case Malformed => m
  }

  function RewriteAll(msgs: seq<Msg>, u: Update): (r: seq<Msg>)
    ensures |r| == |msgs| && forall i :: 0 <= i < |r| ==> r[i] == Rewritten(msgs[i], u)
  {
    seq(|msgs|, i requires 0 <= i < |msgs| => Rewritten(msgs[i], u))
  }

  lemma {:induction false} RewrittenOfRank(msgs: seq<Msg>, u: Update, r: nat)
    ensures OfRank(RewriteAll(msgs, u), r) == RewriteAll(OfRank(msgs, r), u)
  {
    if msgs != [] {
      RewrittenOfRank(msgs[1..], u, r);
      assert RewriteAll(msgs, u)[1..] == RewriteAll(msgs[1..], u);
      assert RewriteAll([msgs[0]] + OfRank(msgs[1..], r), u) == [Rewritten(msgs[0], u)] + RewriteAll(OfRank(msgs[1..], r), u);
    }
  }

  /** After an update the catalog's messages are what they were, but for those that name
      the thing it is about: they have the new body or node.  No message shows where a
      table was moved. */
  lemma UpdateRewrites(cat: Catalog, u: Update)
    ensures Messages(ApplyUpdate(cat, u)) == RewriteAll(Messages(cat), u)
  {
    hide Messages, ApplyUpdate;
    MessagesTell(cat);
    RewritesTell(Messages(cat), cat, u);
    ToldIff(RewriteAll(Messages(cat), u), ApplyUpdate(cat, u));
  }

  lemma RewritesTell(msgs: seq<Msg>, cat: Catalog, u: Update)
    requires TellsOf(msgs, cat)
    ensures TellsOf(RewriteAll(msgs, u), ApplyUpdate(cat, u))
  {
    hide Inputs, Texts, OfRank, TellsSchemas, TellsInputs, TellsTables, TellsBoxes, TellsSubscriptions, TellsViews;
    assert RanksRise(RewriteAll(msgs, u));
    hide RanksRise, RewriteAll;
    RewrittenOfRank(msgs, u, 0);
    RewrittenOfRank(msgs, u, 1);
    RewrittenOfRank(msgs, u, 2);
    RewrittenOfRank(msgs, u, 3);
    RewrittenOfRank(msgs, u, 4);
    RewrittenOfRank(msgs, u, 5);
    SchemasKept(OfRank(msgs, 0), cat.schemas, u);
    InputsKept(OfRank(msgs, 1), Inputs(cat.streams), u);
    TablesRewritten(OfRank(msgs, 2), cat, u);
    BoxesRewritten(OfRank(msgs, 3), cat, u);
    SubscriptionsKept(OfRank(msgs, 4), Texts(cat.streams), u);
    ViewsKept(OfRank(msgs, 5), cat.views, u);
  }

  lemma SchemasKept(msgs: seq<Msg>, items: seq<Item>, u: Update)
    requires TellsSchemas(msgs, items)
    ensures TellsSchemas(RewriteAll(msgs, u), items)
  {
  }

  lemma InputsKept(msgs: seq<Msg>, streams: seq<Stream>, u: Update)
    requires TellsInputs(msgs, streams)
    ensures TellsInputs(RewriteAll(msgs, u), streams)
  {
  }

  lemma SubscriptionsKept(msgs: seq<Msg>, texts: seq<string>, u: Update)
    requires TellsSubscriptions(msgs, texts)
    ensures TellsSubscriptions(RewriteAll(msgs, u), texts)
  {
  }

  lemma ViewsKept(msgs: seq<Msg>, items: seq<Item>, u: Update)
    requires TellsViews(msgs, items)
    ensures TellsViews(RewriteAll(msgs, u), items)
  {
  }

  lemma TablesRewritten(msgs: seq<Msg>, cat: Catalog, u: Update)
    requires TellsTables(msgs, cat.tables)
    ensures TellsTables(RewriteAll(msgs, u), ApplyUpdate(cat, u).tables)
  {
  }

  lemma BoxesRewritten(msgs: seq<Msg>, cat: Catalog, u: Update)
    requires TellsBoxes(msgs, cat.boxes)
    ensures TellsBoxes(RewriteAll(msgs, u), ApplyUpdate(cat, u).boxes)
  {
  }
}
