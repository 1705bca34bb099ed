/**
  The head copies its catalog to a global component: a sender thread and the update
  handler share a flag with three values. Both are taken apart into steps, one for
  each access to the flag, the catalog or the component, and interleaved freely.
*/
module CatalogCopy {

  import opened CatalogMessages

  // ----- the steps

  datatype Flag = Clear | Running | Changed

  datatype Outcome = Acked | Refused(applied: bool) | Disconnected

  datatype Sender =
    | Idle
    | Loop
    | Form(phase: nat, i: nat, j: nat)
    | Check(phase: nat, i: nat, j: nat, text: Msg)
    | Deliver(phase: nat, i: nat, j: nat, text: Msg)
    | Finish
    | Failed
    | Restart
    | CheckReset
    | DeliverReset
    | GiveUp

  datatype Handler = Resting | Announced(u: Update) | Applied(u: Update)

  /** got are the messages the component has taken since it was last empty. The last
      three fields only observe: torn, an update was applied while the flag read
      Running and the component has not been reset since; inStep, a load ended
      undisturbed and every move since has been acknowledged; fatal, the handler
      found a copy running when it came to reflect a move. */
  datatype State = State(cat: Catalog, flag: Flag, client: bool, sender: Sender, handler: Handler, got: seq<Msg>,
                         torn: bool, inStep: bool, fatal: bool)

  datatype Action = Connect | Begin(u: Update) | Handle(out: Outcome) | Send(out: Outcome)

  function Disconnect(s: State): State {
    s.(flag := Clear, client := false)
  }

  function Take(got: seq<Msg>, m: Msg, taken: bool): seq<Msg> {
    if taken then got + [m] else got
  }

  function SendStep(s: State, out: Outcome): State {
    match s.sender
    case Idle => s
    case Loop => s.(sender := if s.flag == Clear then Idle else Form(0, 0, 0))
    case Form(p, i, j) =>
      if p >= PHASES then s.(sender := Check(p, i, j, Loaded))
      else if i >= |Entries(s.cat, p)| then s.(sender := Form(p + 1, 0, 0))
      else if j >= |Entries(s.cat, p)[i]| then s.(sender := Form(p, i + 1, 0))
      else s.(sender := Check(p, i, j, Entries(s.cat, p)[i][j]))
    case Check(p, i, j, m) =>
      s.(sender := if s.flag == Changed then Failed else Deliver(p, i, j, m))
    case Deliver(p, i, j, m) => (
      match out
      case Acked => s.(got := s.got + [m], sender := if p >= PHASES then Finish else Form(p, i, j + 1))
      case Refused(applied) => s.(got := Take(s.got, m, applied), sender := Failed)
      case Disconnected => Disconnect(s).(sender := Failed))
    case Finish => s.(flag := Clear, sender := Loop, inStep := s.flag == Running && !s.torn)
    case Failed => s.(sender := if s.flag == Clear then Loop else Restart)
    case Restart => s.(flag := Running, sender := CheckReset)
    case CheckReset => s.(sender := if s.flag == Changed then GiveUp else DeliverReset)
    case DeliverReset => (
      match out
      case Acked => s.(got := [], torn := false, sender := Loop)
      case Refused(applied) => s.(got := if applied then [] else s.got, sender := GiveUp)
      case Disconnected => Disconnect(s).(sender := GiveUp))
    case GiveUp => s.(flag := Clear, sender := Loop)
  }

  function BeginStep(s: State, u: Update): State {
    if s.handler.Resting? then s.(flag := if s.flag == Running then Changed else s.flag, handler := Announced(u)) else s
  }

  function HandleStep(s: State, out: Outcome): State {
    match s.handler
    case Resting => s
    case Announced(u) =>
      s.(cat := ApplyUpdate(s.cat, u), torn := s.torn || s.flag == Running, handler := if u.Move? then Applied(u) else Resting)
    case Applied(u) =>
      if !s.client || s.flag == Changed || !u.Move? then s.(handler := Resting)
      else if s.flag == Running then s.(handler := Resting, fatal := true)
      else Reflect(s, MoveMsg(u.kind, u.name, u.node), out).(handler := Resting)
  }

  function Reflect(s: State, m: Msg, out: Outcome): State {
    match out
    case Acked => s.(got := s.got + [m])
    case Refused(applied) => s.(got := Take(s.got, m, applied), inStep := false)
    case Disconnected => Disconnect(s).(inStep := false)
  }

  /** A component with an empty catalog asks for a copy; refused while one is running. */
  function ConnectStep(s: State): State {
    if s.flag == Clear && s.sender.Idle? && s.handler.Resting?
    then s.(flag := Running, client := true, sender := Loop, got := [], torn := false, inStep := false)
    else s
  }

  /** An action that is not possible leaves the state as it is. */
  function Act(s: State, a: Action): State {
    match a
    case Connect => ConnectStep(s)
    case Begin(u) => BeginStep(s, u)
    case Handle(out) => HandleStep(s, out)
    case Send(out) => SendStep(s, out)
  }

  function Init(cat: Catalog): State {
    State(cat, Clear, false, Idle, Resting, [], false, false, false)
  }

  function RunFrom(s: State, actions: seq<Action>): State
    decreases actions
  {
    if actions == [] then s else RunFrom(Act(s, actions[0]), actions[1..])
  }

  /** Any interleaving is a sequence of actions. */
  function Run(cat: Catalog, actions: seq<Action>): State {
    RunFrom(Init(cat), actions)
  }

  // ----- what every run keeps

  /** The messages before place (p, i, j) of the sender's loops. */
  function Before(cat: Catalog, p: nat, i: nat, j: nat): seq<Msg> {
    Phases(cat, p) + Part(Entries(cat, p), i, j)
  }

  function Part(entries: seq<seq<Msg>>, i: nat, j: nat): seq<Msg> {
    if i < |entries| && j <= |entries[i]| then Flat(entries[..i]) + entries[i][..j] else Flat(entries)
  }

  /** While the flag reads Running and nothing was applied behind it, the component has
      exactly what the sender has passed of the catalog as it is now. */
  ghost predicate Copied(s: State) {
    match s.sender
    case Loop => s.got == []
    case Form(p, i, j) => InPlace(s.cat, p, i, j) && s.got == Before(s.cat, p, i, j)
    case Check(p, i, j, m) => Carries(s, p, i, j, m)
    case Deliver(p, i, j, m) => Carries(s, p, i, j, m)
    case Finish => s.got == Messages(s.cat) + [Loaded]
    case _ => true
  }

  ghost predicate InPlace(cat: Catalog, p: nat, i: nat, j: nat) {
    && p <= PHASES && i <= |Entries(cat, p)|
    && (i < |Entries(cat, p)| ==> j <= |Entries(cat, p)[i]|)
    && (i == |Entries(cat, p)| ==> j == 0)
  }

  ghost predicate Carries(s: State, p: nat, i: nat, j: nat, m: Msg) {
    && InPlace(s.cat, p, i, j) && s.got == Before(s.cat, p, i, j)
    && (if p < PHASES then i < |Entries(s.cat, p)| && j < |Entries(s.cat, p)[i]| && m == Entries(s.cat, p)[i][j]
        else m == Loaded)
  }

  ghost predicate Active(sender: Sender) {
    !sender.Idle? && !sender.Loop? && !sender.Failed? && !sender.GiveUp?
  }

  ghost predicate Inv(s: State) {
    && (s.flag == Running && !s.torn ==> Copied(s))
    && (s.sender.Idle? ==> s.flag == Clear)
    && (s.flag != Clear ==> s.client)
    && (Active(s.sender) ==> s.flag != Clear)
  }

  lemma FlatNext(entries: seq<seq<Msg>>, i: nat)
    requires i < |entries|
    ensures Flat(entries[..i + 1]) == Flat(entries[..i]) + entries[i]
  {
    assert entries[..i + 1][..i] == entries[..i];
  }

  /** Stepping over the end of an entry or of a map changes nothing of what is before. */
  lemma NextEntry(cat: Catalog, p: nat, i: nat)
    requires i < |Entries(cat, p)|
    ensures Before(cat, p, i, |Entries(cat, p)[i]|) == Before(cat, p, i + 1, 0)
  {
    var entries := Entries(cat, p);
    FlatNext(entries, i);
    assert entries[i][..|entries[i]|] == entries[i];
    assert entries[..|entries|] == entries;
  }

  lemma NextPhase(cat: Catalog, p: nat)
    requires p < PHASES
    ensures Before(cat, p, |Entries(cat, p)|, 0) == Before(cat, p + 1, 0, 0)
  {
    assert Entries(cat, p + 1)[..0] == [];
  }

  lemma NextMessage(cat: Catalog, p: nat, i: nat, j: nat)
    requires i < |Entries(cat, p)| && j < |Entries(cat, p)[i]|
    ensures Before(cat, p, i, j) + [Entries(cat, p)[i][j]] == Before(cat, p, i, j + 1)
  {
    var entry := Entries(cat, p)[i];
    assert entry[..j + 1] == entry[..j] + [entry[j]];
  }

  /** What is before the end of the sender's loops tells of the whole catalog. */
  lemma AllPhases(cat: Catalog)
    ensures Before(cat, PHASES, 0, 0) == Messages(cat)
    ensures TellsOf(Before(cat, PHASES, 0, 0), cat)
  {
    hide TellsOf, Messages, Entries, Flat;
    MessagesTell(cat);
    SixPhases(cat);
    assert Before(cat, 6, 0, 0) == Phases(cat, 6) by { NoSeventh(cat); }
  }

  lemma NoSeventh(cat: Catalog)
    ensures Entries(cat, PHASES) == [] && Part(Entries(cat, PHASES), 0, 0) == []
  {
  }

  lemma SendKeepsInv(s: State, out: Outcome)
    requires Inv(s)
    ensures Inv(SendStep(s, out))
  {
    hide Before, Messages, Entries;
    match s.sender
    case Form(_, _, _) => FormKeepsInv(s, out);
    case Deliver(_, _, _, _) => DeliverKeepsInv(s, out);
    case Loop => FirstPlace(s.cat);
    case _ =>
  }

  lemma FormKeepsInv(s: State, out: Outcome)
    requires Inv(s) && s.sender.Form?
    ensures Inv(SendStep(s, out))
  {
    hide Before, Messages, Entries;
    var p, i, j := s.sender.phase, s.sender.i, s.sender.j;
    if p < PHASES {
      if i >= |Entries(s.cat, p)| {
        NextPhase(s.cat, p);
      } else if j >= |Entries(s.cat, p)[i]| {
        NextEntry(s.cat, p, i);
      }
    }
  }

  lemma DeliverKeepsInv(s: State, out: Outcome)
    requires Inv(s) && s.sender.Deliver?
    ensures Inv(SendStep(s, out))
  {
    hide Before, Messages, Entries;
    if s.flag == Running && !s.torn {
      var p, i, j := s.sender.phase, s.sender.i, s.sender.j;
      if p < PHASES {
        NextMessage(s.cat, p, i, j);
      } else {
        LastPlace(s.cat, p, i, j);
      }
    }
  }

  lemma FirstPlace(cat: Catalog)
    ensures Before(cat, 0, 0, 0) == []
  {
    assert Entries(cat, 0)[..0] == [];
  }

  lemma LastPlace(cat: Catalog, p: nat, i: nat, j: nat)
    requires p >= PHASES
    ensures InPlace(cat, p, i, j) ==> p == PHASES && i == 0 && j == 0 && Before(cat, p, i, j) == Messages(cat)
  {
    hide Entries, Before, Messages;
    NoSeventh(cat);
    AllPhases(cat);
  }

  lemma HandleKeepsInv(s: State, out: Outcome)
    requires Inv(s)
    ensures Inv(HandleStep(s, out))
  {
    var s' := HandleStep(s, out);
    hide Before, Messages, Entries, ApplyUpdate;
    if s.flag != Clear && s.handler.Applied? {
      assert s' == s.(handler := Resting, fatal := s'.fatal);
      hide HandleStep;
      assert Copied(s') == Copied(s);
    }
  }

  lemma ActKeepsInv(s: State, a: Action)
    requires Inv(s)
    ensures Inv(Act(s, a))
  {
    hide Before, Messages, Entries, SendStep, ApplyUpdate;
    match a
    case Send(out) => SendKeepsInv(s, out);
    case Connect => FirstPlace(s.cat);
    case Handle(out) => HandleKeepsInv(s, out);
    case Begin(u) =>
  }

  lemma {:induction false} RunKeepsInv(s: State, actions: seq<Action>)
    requires Inv(s)
    ensures Inv(RunFrom(s, actions))
    decreases actions
  {
    if actions != [] {
      ActKeepsInv(s, actions[0]);
      RunKeepsInv(Act(s, actions[0]), actions[1..]);
    }
  }

  /** However the steps interleave: if the flag still reads Running when the component
      has acknowledged the end of the load, and no update was applied behind the flag,
      the component has exactly the messages of the catalog as it is now, in order. */
  lemma LoadIsExact(cat: Catalog, actions: seq<Action>)
    ensures var s := Run(cat, actions);
            s.sender.Finish? && s.flag == Running && !s.torn ==> WholeLoad(s.got, s.cat)
  {
    hide Before, Messages, Entries, WholeLoad;
    RunKeepsInv(Init(cat), actions);
    WholeLoadIff(Run(cat, actions).got, Run(cat, actions).cat);
  }

  // ----- the two races

  /** The last message is being sent, or has been and the flag is not yet cleared. */
  predicate LastSend(sender: Sender) {
    sender.Finish? || (sender.Deliver? && sender.phase >= PHASES)
  }

  /** An update is announced behind the sender's last look at the flag. */
  predicate Late(s: State, a: Action) {
    a.Begin? && s.handler.Resting? && s.flag == Running && LastSend(s.sender)
  }

  /** The sender restarts before the update that made it stop has been handled. */
  predicate Overtakes(s: State, a: Action) {
    a.Send? && s.sender.Restart? && !s.handler.Resting?
  }

  predicate Races(s: State, a: Action) {
    Late(s, a) || Overtakes(s, a)
  }

  predicate RaceFree(s: State, actions: seq<Action>)
    decreases actions
  {
    actions == [] || (!Races(s, actions[0]) && RaceFree(Act(s, actions[0]), actions[1..]))
  }

  ghost predicate RaceFreeInv(s: State) {
    && Inv(s) && !s.torn && !s.fatal
    && (!s.handler.Resting? ==> s.flag != Running)
    && (s.handler.Applied? ==> s.handler.u.Move?)
    && (LastSend(s.sender) ==> s.flag == Running)
  }

  /** No move has found a copy running that was not told; and a load that comes to its
      end is exact and the component is in step from there on. */
  ghost predicate Right(s: State) {
    !s.fatal && (s.sender.Finish? ==> WholeLoad(s.got, s.cat) && SendStep(s, Acked).inStep)
  }

  lemma ActKeepsRaceFree(s: State, a: Action)
    requires RaceFreeInv(s) && !Races(s, a)
    ensures RaceFreeInv(Act(s, a))
  {
    hide Before, Messages, Entries, Copied, ApplyUpdate;
    ActKeepsInv(s, a);
  }

  lemma {:induction false} RunKeepsRaceFree(s: State, actions: seq<Action>)
    requires RaceFreeInv(s) && RaceFree(s, actions)
    ensures RaceFreeInv(RunFrom(s, actions))
    decreases actions
  {
    if actions != [] {
      ActKeepsRaceFree(s, actions[0]);
      RunKeepsRaceFree(Act(s, actions[0]), actions[1..]);
    }
  }

  lemma RaceFreeIsRight(s: State)
    requires RaceFreeInv(s)
    ensures Right(s)
  {
    hide Before, Messages, Entries, WholeLoad;
    WholeLoadIff(s.got, s.cat);
  }

  lemma InitRaceFree(cat: Catalog)
    ensures RaceFreeInv(Init(cat))
  {
    hide Before, Messages, Entries;
  }

  /** Without these two steps, and whatever is answered, every load that ends is exact,
      and no move ever finds a copy running that was not told. */
  lemma SnapshotSafety(cat: Catalog, actions: seq<Action>)
    requires RaceFree(Init(cat), actions)
    ensures Right(Run(cat, actions))
  {
    InitRaceFree(cat);
    RunKeepsRaceFree(Init(cat), actions);
    RaceFreeIsRight(Run(cat, actions));
  }

  // ----- single-step schedules

  /** The handler stays out while the sender is between its look at the flag and the
      end of the send (and, after the last one, the clearing of the flag); the sender
      stays out while an update is being handled. */
  ghost predicate Coarse(s: State, actions: seq<Action>)
    decreases actions
  {
    actions == [] || (Allowed(s, actions[0]) && Coarse(Act(s, actions[0]), actions[1..]))
  }

  ghost predicate Allowed(s: State, a: Action) {
    && (a.Send? ==> s.handler.Resting?)
    && (a.Begin? ==> !s.sender.Deliver? && !s.sender.Finish? && !s.sender.DeliverReset?)
  }

  lemma {:induction false} CoarseIsRaceFree(s: State, actions: seq<Action>)
    requires Coarse(s, actions)
    ensures RaceFree(s, actions)
    decreases actions
  {
    hide Act;
    if actions != [] {
      CoarseIsRaceFree(Act(s, actions[0]), actions[1..]);
    }
  }

  // ----- which copies are given up

  ghost predicate AllAcked(actions: seq<Action>) {
    forall a :: a in actions && (a.Send? || a.Handle?) ==> a.out.Acked?
  }

  /** An update is announced between the restart and the look at the flag before the
      reset. */
  ghost predicate StrikesReset(s: State, a: Action) {
    a.Begin? && s.handler.Resting? && s.sender.CheckReset?
  }

  ghost predicate ResetStruck(s: State, actions: seq<Action>)
    decreases actions
  {
    actions != [] && (StrikesReset(s, actions[0]) || ResetStruck(Act(s, actions[0]), actions[1..]))
  }

  /** The sender stands at giving up somewhere in the run. */
  ghost predicate GivenUp(s: State, actions: seq<Action>)
    decreases actions
  {
    s.sender.GiveUp? || (actions != [] && GivenUp(Act(s, actions[0]), actions[1..]))
  }

  /** The flag says changed at the look before the reset: giving up is next. */
  ghost predicate Doomed(s: State) {
    s.sender.CheckReset? && s.flag == Changed
  }

  /** Without races and with every send taken: while nothing was given up, a connected
      component that no copy is running for has the whole catalog. */
  ghost predicate Progress(s: State) {
    RaceFreeInv(s) && !s.sender.GiveUp? && (s.client && s.flag == Clear ==> s.inStep)
  }

  lemma ActKeepsProgress(s: State, a: Action)
    requires Progress(s) && !Races(s, a) && (a.Send? || a.Handle? ==> a.out.Acked?)
    ensures Doomed(Act(s, a)) <==> (Doomed(s) && !a.Send?) || StrikesReset(s, a)
    ensures Act(s, a).sender.GiveUp? <==> Doomed(s) && a.Send?
    ensures !Act(s, a).sender.GiveUp? ==> Progress(Act(s, a))
  {
    ActKeepsRaceFree(s, a);
    hide Before, Messages, Entries, Copied, ApplyUpdate;
  }

  lemma {:induction false} RunProgress(s: State, actions: seq<Action>)
    requires Progress(s) && RaceFree(s, actions) && AllAcked(actions)
    ensures Doomed(s) || ResetStruck(s, actions) <==> GivenUp(s, actions) || Doomed(RunFrom(s, actions))
    ensures !Doomed(s) && !ResetStruck(s, actions) ==> Progress(RunFrom(s, actions)) && !GivenUp(s, actions)
    decreases actions
  {
    hide Act, Progress, Doomed, StrikesReset, Races;
    NotGivenUp(s);
    if actions != [] {
      var s', rest := Act(s, actions[0]), actions[1..];
      assert forall a :: a in rest ==> a in actions;
      ActKeepsProgress(s, actions[0]);
      if s'.sender.GiveUp? {
        SendDooms(s, actions[0]);
        assert GivenUp(s', rest);
      } else {
        RunProgress(s', rest);
      }
    }
  }

  lemma NotGivenUp(s: State)
    requires Progress(s)
    ensures !s.sender.GiveUp?
  {
  }

  lemma SendDooms(s: State, a: Action)
    requires Doomed(s) && a.Send?
    ensures !StrikesReset(s, a)
  {
  }

  /** Without races and with every send taken: if no update is announced just before a
      reset, every copy that ends has left the component with the whole catalog and in
      step; and the sender gives up, or is about to, exactly when one was. */
  lemma CopyCompletes(cat: Catalog, actions: seq<Action>)
    requires RaceFree(Init(cat), actions) && AllAcked(actions)
    ensures var s := Run(cat, actions);
            !ResetStruck(Init(cat), actions) && s.client && s.flag == Clear ==> s.inStep
    ensures ResetStruck(Init(cat), actions) <==> GivenUp(Init(cat), actions) || Doomed(Run(cat, actions))
  {
    InitRaceFree(cat);
    RunProgress(Init(cat), actions);
  }

  // ----- where the component takes boxes and tables to be

  /** The nodes of boxes (or tables) by name as a component understands the messages: a
      box element names the node, a table element does not, a move of something known
      changes it. */
  function Placed(got: seq<Msg>, kind: Kind): map<string, string> {
    if got == [] then map[] else PlacedMore(Placed(got[..|got| - 1], kind), got[|got| - 1], kind)
  }

  function PlacedMore(nodes: map<string, string>, m: Msg, kind: Kind): map<string, string> {
    match m
    case BoxMsg(name, _, node) => if kind.Box? then nodes[name := node] else nodes
    case TableMsg(name, _) => if kind.Table? then nodes[name := ""] else nodes
    case MoveMsg(k, name, node) => if k == kind then Moved(nodes, name, node) else nodes
    case _ => nodes
  }

  function Moved(nodes: map<string, string>, name: string, node: string): map<string, string> {
    if name in nodes && node != "" then nodes[name := node] else nodes
  }

  /** The nodes as the head has them. */
  function HeadNodes(items: seq<Item>): map<string, string> {
    if items == [] then map[] else HeadNodes(items[..|items| - 1])[items[|items| - 1].name := items[|items| - 1].node]
  }

  function NoNodes(items: seq<Item>): map<string, string> {
    if items == [] then map[] else NoNodes(items[..|items| - 1])[items[|items| - 1].name := ""]
  }

  function ItemsOf(cat: Catalog, kind: Kind): seq<Item> {
    if kind.Box? then cat.boxes else cat.tables
  }

  /** The message is the element of a box (or table) of this name. */
  predicate ElementOf(m: Msg, kind: Kind, name: string) {
    match m
    case BoxMsg(n, _, _) => kind.Box? && n == name
    case TableMsg(n, _) => kind.Table? && n == name
    case _ => false
  }

  /** It is the element, or moves the thing to a node. */
  predicate SaysWhere(m: Msg, kind: Kind, name: string) {
    ElementOf(m, kind, name) || (m.MoveMsg? && m.kind == kind && m.name == name && m.node != "")
  }

  function Where(m: Msg): string {
    match m
    case BoxMsg(_, _, node) => node
    case MoveMsg(_, _, node) => node
    case _ => ""
  }

  /** A component knows the things whose element it got, each where the last message about
      it says. */
  lemma {:induction false} LastWordPlaces(got: seq<Msg>, kind: Kind, name: string)
    ensures name in Placed(got, kind) <==> exists m :: m in got && ElementOf(m, kind, name)
    ensures name in Placed(got, kind) ==>
              exists i :: 0 <= i < |got| && SaysWhere(got[i], kind, name) && Placed(got, kind)[name] == Where(got[i])
                          && forall j :: i < j < |got| ==> !SaysWhere(got[j], kind, name)
  {
    if got != [] {
      var n := |got| - 1;
      LastWordPlaces(got[..n], kind, name);
      assert forall m :: m in got <==> m in got[..n] || m == got[n];
      if name in Placed(got, kind) {
        if SaysWhere(got[n], kind, name) {
          assert Placed(got, kind)[name] == Where(got[n]);
        } else {
          var i :| 0 <= i < n && SaysWhere(got[..n][i], kind, name) && Placed(got[..n], kind)[name] == Where(got[..n][i])
                   && forall j :: i < j < n ==> !SaysWhere(got[..n][j], kind, name);
          assert SaysWhere(got[i], kind, name);
          forall j | i < j < |got|
            ensures !SaysWhere(got[j], kind, name)
          {
            assert j < n ==> got[..n][j] == got[j];
          }
        }
      }
    }
  }

  /** With a name once, the head has each thing at the node of its entry. */
  lemma {:induction false} HeadHasNodes(items: seq<Item>)
    requires forall i, j :: 0 <= i < j < |items| ==> items[i].name != items[j].name
    ensures forall name :: name in HeadNodes(items) <==> exists i :: 0 <= i < |items| && items[i].name == name
    ensures forall i :: 0 <= i < |items| ==> items[i].name in HeadNodes(items) && HeadNodes(items)[items[i].name] == items[i].node
  {
    if items != [] {
      var n := |items| - 1;
      HeadHasNodes(items[..n]);
      forall i | 0 <= i < n
        ensures items[i].name in HeadNodes(items[..n]) && HeadNodes(items[..n])[items[i].name] == items[i].node
      {
        assert items[..n][i] == items[i];
      }
    }
  }

  /** What an update does to the entries it is about. */
  lemma UpdateDoes(cat: Catalog, u: Update, kind: Kind, i: nat)
    requires i < |ItemsOf(cat, kind)|
    ensures |ItemsOf(ApplyUpdate(cat, u), kind)| == |ItemsOf(cat, kind)|
    ensures var item, item' := ItemsOf(cat, kind)[i], ItemsOf(ApplyUpdate(cat, u), kind)[i];
            var about := !u.Malformed? && u.kind == kind && u.name == item.name;
            && item'.name == item.name
            && item'.body == (if about && u.Modify? then u.body else item.body)
            && item'.node == (if about && u.Move? && u.node != "" then u.node else item.node)
  {
  }

  lemma {:induction false} HeadNodesOfUpdate(items: seq<Item>, u: Update)
    requires !u.Malformed?
    ensures HeadNodes(ReviseAll(items, u)) == if u.Move? then Moved(HeadNodes(items), u.name, u.node) else HeadNodes(items)
  {
    if items != [] {
      var n := |items| - 1;
      HeadNodesOfUpdate(items[..n], u);
      assert ReviseAll(items, u)[..n] == ReviseAll(items[..n], u);
      LastRevised(HeadNodes(items[..n]), items[n], u);
    }
  }

  lemma LastRevised(nodes: map<string, string>, item: Item, u: Update)
    requires !u.Malformed?
    ensures var item' := Revised(item, u);
            u.Move? ==> Moved(nodes, u.name, u.node)[item'.name := item'.node] == Moved(nodes[item.name := item.node], u.name, u.node)
    ensures Revised(item, u).name == item.name && (!u.Move? ==> Revised(item, u).node == item.node)
  {
  }

  /** Messages that say nothing about things of this kind. */
  ghost predicate Silent(msgs: seq<Msg>, kind: Kind) {
    forall m :: m in msgs ==> !m.MoveMsg? && (m.BoxMsg? ==> !kind.Box?) && (m.TableMsg? ==> !kind.Table?)
  }

  lemma {:induction false} SilentPlaces(got: seq<Msg>, msgs: seq<Msg>, kind: Kind)
    requires Silent(msgs, kind)
    ensures Placed(got + msgs, kind) == Placed(got, kind)
  {
    if msgs == [] {
      assert got + msgs == got;
    } else {
      var n := |msgs| - 1;
      SilentPlaces(got, msgs[..n], kind);
      assert (got + msgs)[..|got| + n] == got + msgs[..n];
      assert msgs[n] in msgs;
    }
  }

  ghost predicate Speaks(p: nat, kind: Kind) {
    if kind.Box? then p == 3 else p == 2
  }

  lemma PhaseSilent(cat: Catalog, p: nat, kind: Kind)
    requires !Speaks(p, kind)
    ensures Silent(Flat(Entries(cat, p)), kind)
  {
    forall m | m in Flat(Entries(cat, p))
      ensures !m.MoveMsg? && (m.BoxMsg? ==> !kind.Box?) && (m.TableMsg? ==> !kind.Table?)
    {
      FlatElements(Entries(cat, p), m);
    }
  }

  lemma PlacedNext(got: seq<Msg>, entries: seq<seq<Msg>>, m: Msg, kind: Kind)
    requires entries != [] && entries[|entries| - 1] == [m]
    ensures Placed(got + Flat(entries), kind) == PlacedMore(Placed(got + Flat(entries[..|entries| - 1]), kind), m, kind)
  {
    var before := got + Flat(entries[..|entries| - 1]);
    assert got + Flat(entries) == before + [m];
    assert (before + [m])[..|before|] == before;
  }

  /** The entries of a map that ends in a given item. */
  lemma LastBox(boxes: seq<Item>)
    requires boxes != []
    ensures var n, entries := |boxes| - 1, BoxEntries(boxes);
            && |entries| == n + 1 && entries[..n] == BoxEntries(boxes[..n])
            && entries[n] == [BoxMsg(boxes[n].name, boxes[n].body, boxes[n].node)]
  {
  }

  lemma LastTable(tables: seq<Item>)
    requires tables != []
    ensures var n, entries := |tables| - 1, TableEntries(tables);
            && |entries| == n + 1 && entries[..n] == TableEntries(tables[..n])
            && entries[n] == [TableMsg(tables[n].name, tables[n].body)]
  {
  }

  function BoxEntries(boxes: seq<Item>): seq<seq<Msg>> {
    Entries(Catalog([], [], [], boxes, []), 3)
  }

  function TableEntries(tables: seq<Item>): seq<seq<Msg>> {
    Entries(Catalog([], [], tables, [], []), 2)
  }

  lemma {:induction false} BoxesPlaced(got: seq<Msg>, boxes: seq<Item>)
    requires Placed(got, Box) == map[]
    ensures Placed(got + Flat(BoxEntries(boxes)), Box) == HeadNodes(boxes)
  {
    if boxes == [] {
      assert got + Flat(BoxEntries(boxes)) == got;
    } else {
      var n := |boxes| - 1;
      BoxesPlaced(got, boxes[..n]);
      LastBox(boxes);
      hide Entries, BoxEntries, Flat, Placed;
      PlacedNext(got, BoxEntries(boxes), BoxMsg(boxes[n].name, boxes[n].body, boxes[n].node), Box);
    }
  }

  lemma {:induction false} TablesPlaced(got: seq<Msg>, tables: seq<Item>)
    requires Placed(got, Table) == map[]
    ensures Placed(got + Flat(TableEntries(tables)), Table) == NoNodes(tables)
  {
    if tables == [] {
      assert got + Flat(TableEntries(tables)) == got;
    } else {
      var n := |tables| - 1;
      TablesPlaced(got, tables[..n]);
      LastTable(tables);
      hide Entries, TableEntries, Flat, Placed;
      PlacedNext(got, TableEntries(tables), TableMsg(tables[n].name, tables[n].body), Table);
    }
  }

  /** A load places every box where the head has it, and every table nowhere. */
  lemma LoadPlaces(cat: Catalog)
    ensures Placed(Messages(cat) + [Loaded], Box) == HeadNodes(cat.boxes)
    ensures Placed(Messages(cat) + [Loaded], Table) == NoNodes(cat.tables)
  {
    PhasesPlace(cat, 6, Box);
    PhasesPlace(cat, 6, Table);
    AllPhases(cat);
    assert Before(cat, 6, 0, 0) == Phases(cat, 6) by { NoSeventh(cat); }
    SilentPlaces(Messages(cat), [Loaded], Box);
    SilentPlaces(Messages(cat), [Loaded], Table);
  }

  /** What is placed once the first p maps are sent. */
  function PlacedBy(cat: Catalog, p: nat, kind: Kind): map<string, string> {
    if kind.Box? then (if p > 3 then HeadNodes(cat.boxes) else map[])
    else if p > 2 then NoNodes(cat.tables) else map[]
  }

  lemma {:induction false} PhasesPlace(cat: Catalog, p: nat, kind: Kind)
    requires p <= PHASES
    ensures Placed(Phases(cat, p), kind) == PlacedBy(cat, p, kind)
  {
    hide Entries, Flat, HeadNodes, NoNodes;
    if p == 0 {
      assert Phases(cat, p) == [];
    } else {
      PhasesPlace(cat, p - 1, kind);
      PlacedNextBy(cat, p - 1, kind);
      assert Phases(cat, p) == Phases(cat, p - 1) + Flat(Entries(cat, p - 1));
      hide *;
      PhasePlaces(Phases(cat, p - 1), cat, p - 1, kind);
    }
  }

  lemma PlacedNextBy(cat: Catalog, p: nat, kind: Kind)
    ensures PlacedBy(cat, p + 1, kind) ==
            if !Speaks(p, kind) then PlacedBy(cat, p, kind) else if kind.Box? then HeadNodes(cat.boxes) else NoNodes(cat.tables)
    ensures Speaks(p, kind) ==> PlacedBy(cat, p, kind) == map[]
  {
    hide HeadNodes, NoNodes;
  }

  lemma PhasePlaces(got: seq<Msg>, cat: Catalog, p: nat, kind: Kind)
    requires Speaks(p, kind) ==> Placed(got, kind) == map[]
    ensures Placed(got + Flat(Entries(cat, p)), kind) ==
            if !Speaks(p, kind) then Placed(got, kind) else if kind.Box? then HeadNodes(cat.boxes) else NoNodes(cat.tables)
  {
    hide Flat, Placed, HeadNodes, NoNodes;
    if Speaks(p, kind) {
      EntriesOnly(cat);
      if kind.Box? {
        BoxesPlaced(got, cat.boxes);
      } else {
        TablesPlaced(got, cat.tables);
      }
    } else {
      PhaseSilent(cat, p, kind);
      SilentPlaces(got, Flat(Entries(cat, p)), kind);
    }
  }

  lemma EntriesOnly(cat: Catalog)
    ensures Entries(cat, 3) == BoxEntries(cat.boxes) && Entries(cat, 2) == TableEntries(cat.tables)
  {
  }

  // ----- moves after a load

  ghost predicate MovesTable(m: Msg, name: string) {
    m.MoveMsg? && m.kind.Table? && m.name == name && m.node != ""
  }

  ghost predicate TableMoved(got: seq<Msg>, name: string) {
    exists m :: m in got && MovesTable(m, name)
  }

  /** The component knows the node of exactly the tables that were moved while it
      listened. */
  ghost predicate TablesAgree(got: seq<Msg>, head: map<string, string>) {
    && Placed(got, Table).Keys == head.Keys
    && forall name :: name in head ==> Placed(got, Table)[name] == if TableMoved(got, name) then head[name] else ""
  }

  /** What the component will have once the move in hand is reflected. */
  ghost function Pending(s: State): seq<Msg> {
    if s.handler.Applied? && s.handler.u.Move? then s.got + [Reflection(s.handler.u)] else s.got
  }

  function Reflection(u: Update): Msg
    requires u.Move?
  {
    MoveMsg(u.kind, u.name, u.node)
  }

  ghost predicate NodesAgree(got: seq<Msg>, cat: Catalog) {
    Placed(got, Box) == HeadNodes(cat.boxes) && TablesAgree(got, HeadNodes(cat.tables))
  }

  ghost predicate PlaceInv(s: State) {
    && (s.handler.Applied? ==> AlreadyMoved(s.cat, s.handler.u))
    && (s.inStep ==> s.flag.Clear? && s.client && (s.sender.Loop? || s.sender.Idle?) && NodesAgree(Pending(s), s.cat))
  }

  ghost predicate AlreadyMoved(cat: Catalog, u: Update) {
    u.Move? && var head := HeadNodes(ItemsOf(cat, u.kind)); Moved(head, u.name, u.node) == head
  }

  lemma AfterMove(got: seq<Msg>, kind: Kind, name: string, node: string)
    ensures forall k :: Placed(got + [MoveMsg(kind, name, node)], k) ==
                        if k == kind then Moved(Placed(got, k), name, node) else Placed(got, k)
  {
    assert (got + [MoveMsg(kind, name, node)])[..|got|] == got;
  }

  lemma TablesAgreeAfter(got: seq<Msg>, head: map<string, string>, u: Update)
    requires u.Move? && TablesAgree(got, head)
    ensures TablesAgree(got + [Reflection(u)], if u.kind.Table? then Moved(head, u.name, u.node) else head)
  {
    var got', head' := got + [Reflection(u)], if u.kind.Table? then Moved(head, u.name, u.node) else head;
    AfterMove(got, u.kind, u.name, u.node);
    forall name | name in head'
      ensures Placed(got', Table)[name] == if TableMoved(got', name) then head'[name] else ""
    {
      if MovesTable(Reflection(u), name) {
        assert Reflection(u) in got';
      } else {
        assert TableMoved(got', name) <==> TableMoved(got, name);
      }
    }
  }

  lemma MovesReflected(got: seq<Msg>, cat: Catalog, u: Update)
    requires u.Move? && NodesAgree(got, cat)
    ensures NodesAgree(got + [Reflection(u)], ApplyUpdate(cat, u))
  {
    HeadNodesOfUpdate(ItemsOf(cat, u.kind), u);
    AfterMove(got, u.kind, u.name, u.node);
    TablesAgreeAfter(got, HeadNodes(cat.tables), u);
  }

  lemma MoveRepeated(got: seq<Msg>, cat: Catalog, u: Update)
    requires AlreadyMoved(cat, u) && NodesAgree(got, cat)
    ensures NodesAgree(got + [Reflection(u)], cat)
  {
    AfterMove(got, u.kind, u.name, u.node);
    TablesAgreeAfter(got, HeadNodes(cat.tables), u);
  }

  lemma UpdateMoves(cat: Catalog, u: Update)
    requires u.Move?
    ensures AlreadyMoved(ApplyUpdate(cat, u), u)
  {
    HeadNodesOfUpdate(ItemsOf(cat, u.kind), u);
  }

  lemma NoMoves(cat: Catalog, p: nat)
    ensures forall m :: m in Flat(Entries(cat, p)) ==> !m.MoveMsg?
  {
    forall m | m in Flat(Entries(cat, p))
      ensures !m.MoveMsg?
    {
      FlatElements(Entries(cat, p), m);
    }
  }

  lemma LoadAgrees(cat: Catalog)
    ensures NodesAgree(Messages(cat) + [Loaded], cat)
  {
    LoadPlaces(cat);
    NoNodesValues(cat.tables);
    forall m | m in Messages(cat) + [Loaded]
      ensures !m.MoveMsg?
    {
      hide Flat, Entries;
      NoMoves(cat, 0); NoMoves(cat, 1); NoMoves(cat, 2);
      NoMoves(cat, 3); NoMoves(cat, 4); NoMoves(cat, 5);
    }
  }

  lemma {:induction false} NoNodesValues(items: seq<Item>)
    ensures NoNodes(items).Keys == HeadNodes(items).Keys
    ensures forall name :: name in NoNodes(items) ==> NoNodes(items)[name] == ""
  {
    if items != [] {
      NoNodesValues(items[..|items| - 1]);
    }
  }

  lemma HandleKeepsPlaces(s: State, out: Outcome)
    requires Inv(s) && PlaceInv(s)
    ensures PlaceInv(HandleStep(s, out))
  {
    hide Before, Messages, Entries, Copied, NodesAgree, ApplyUpdate, AlreadyMoved;
    if s.handler.Announced? {
      var u := s.handler.u;
      if u.Move? {
        UpdateMoves(s.cat, u);
        if s.inStep {
          MovesReflected(s.got, s.cat, u);
        }
      } else if s.inStep {
        NodesUnmoved(s.got, s.cat, u);
      }
    }
  }

  lemma NodesUnmoved(got: seq<Msg>, cat: Catalog, u: Update)
    requires !u.Move? && NodesAgree(got, cat)
    ensures NodesAgree(got, ApplyUpdate(cat, u))
  {
    if !u.Malformed? {
      HeadNodesOfUpdate(ItemsOf(cat, u.kind), u);
    }
  }

  lemma SendKeepsPlaces(s: State, out: Outcome)
    requires Inv(s) && PlaceInv(s)
    ensures PlaceInv(SendStep(s, out))
  {
    hide Before, Messages, Entries, NodesAgree, ApplyUpdate, AlreadyMoved;
    if s.sender.Finish? && s.flag.Running? && !s.torn {
      LoadAgrees(s.cat);
      if s.handler.Applied? {
        MoveRepeated(s.got, s.cat, s.handler.u);
      }
    }
  }

  lemma {:induction false} RunKeepsPlaces(s: State, actions: seq<Action>)
    requires Inv(s) && PlaceInv(s)
    ensures PlaceInv(RunFrom(s, actions))
    decreases actions
  {
    if actions != [] {
      ActKeepsInv(s, actions[0]);
      ActKeepsPlaces(s, actions[0]);
      RunKeepsPlaces(Act(s, actions[0]), actions[1..]);
    }
  }

  lemma ActKeepsPlaces(s: State, a: Action)
    requires Inv(s) && PlaceInv(s)
    ensures PlaceInv(Act(s, a))
  {
    hide Before, Messages, Entries, NodesAgree, ApplyUpdate, AlreadyMoved;
    match a
    case Handle(out) => HandleKeepsPlaces(s, out);
    case Send(out) => SendKeepsPlaces(s, out);
    case _ =>
  }

  /** However the steps interleave: once a load has ended undisturbed and as long as
      moves are acknowledged, whenever no update is in hand the component has every
      box where the head has it. A table's element names no node: the component has
      its node exactly when it was moved since, or has none at the head either. */
  lemma MoveReflection(cat: Catalog, actions: seq<Action>)
    ensures var s := Run(cat, actions);
            s.inStep && s.handler.Resting? ==>
              && Placed(s.got, Box) == HeadNodes(s.cat.boxes)
              && Placed(s.got, Table).Keys == HeadNodes(s.cat.tables).Keys
              && forall name :: name in HeadNodes(s.cat.tables) ==>
                   (Placed(s.got, Table)[name] == HeadNodes(s.cat.tables)[name] <==>
                    TableMoved(s.got, name) || HeadNodes(s.cat.tables)[name] == "")
  {
    RunKeepsPlaces(Init(cat), actions);
    RunKeepsInv(Init(cat), actions);
  }

  lemma {:induction false} StaysConnected(s: State, actions: seq<Action>)
    requires AllAcked(actions) && (!s.sender.Idle? ==> s.client)
    ensures !RunFrom(s, actions).sender.Idle? ==> RunFrom(s, actions).client
    decreases actions
  {
    hide Entries, ApplyUpdate;
    if actions != [] {
      assert forall a :: a in actions[1..] ==> a in actions;
      assert actions[0] in actions;
      StaysConnected(Act(s, actions[0]), actions[1..]);
    }
  }

  /** What it means to give up, with every send taken: the component stays connected and
      the flag is clear, but it is not in step. */
  lemma GaveUp(cat: Catalog, actions: seq<Action>)
    requires AllAcked(actions) && Run(cat, actions).sender.GiveUp?
    ensures var s := SendStep(Run(cat, actions), Acked);
            s.client && s.flag == Clear && s.sender.Loop? && !s.inStep
  {
    RunKeepsPlaces(Init(cat), actions);
    StaysConnected(Init(cat), actions);
  }

  /** Only a refused or undelivered move, or another request for a copy, ends this. */
  lemma StaysInStep(cat: Catalog, actions: seq<Action>, a: Action)
    requires Run(cat, actions).inStep && !Act(Run(cat, actions), a).inStep
    ensures a.Connect? || (a.Handle? && !a.out.Acked?)
  {
    RunKeepsPlaces(Init(cat), actions);
    RunKeepsInv(Init(cat), actions);
  }

  // ----- runs that go wrong

  function Acks(n: nat): seq<Action> {
    seq(n, _ => Send(Acked))
  }

  lemma {:induction false} RunMore(s: State, actions: seq<Action>, a: Action)
    ensures RunFrom(s, actions + [a]) == Act(RunFrom(s, actions), a)
    decreases actions
  {
    if actions != [] {
      RunMore(Act(s, actions[0]), actions[1..], a);
      assert (actions + [a])[1..] == actions[1..] + [a];
    }
  }

  lemma AcksFirst(s: State, n: nat)
    ensures RunFrom(s, Acks(n + 1)) == RunFrom(SendStep(s, Acked), Acks(n))
  {
    assert Acks(n + 1)[1..] == Acks(n);
  }

  /** Left alone, a load gets to its last message. */
  lemma {:induction false} QuietLoad(s: State) returns (n: nat)
    requires s.sender.Form? && s.flag == Running
    requires var p, i, j := s.sender.phase, s.sender.i, s.sender.j; InPlace(s.cat, p, i, j) && s.got == Before(s.cat, p, i, j)
    ensures RunFrom(s, Acks(n)) == s.(sender := Check(PHASES, 0, 0, Loaded), got := Messages(s.cat))
    decreases PHASES - s.sender.phase, |Entries(s.cat, s.sender.phase)| - s.sender.i,
              if s.sender.i < |Entries(s.cat, s.sender.phase)| then |Entries(s.cat, s.sender.phase)[s.sender.i]| - s.sender.j else 0
  {
    hide Before, Messages, Entries;
    var p, i, j := s.sender.phase, s.sender.i, s.sender.j;
    if p == PHASES {
      LastPlace(s.cat, p, i, j);
      n := 1;
      AcksFirst(s, 0);
    } else if i == |Entries(s.cat, p)| {
      NextPhase(s.cat, p);
      n := QuietLoad(SendStep(s, Acked));
      AcksFirst(s, n);
      n := n + 1;
    } else if j == |Entries(s.cat, p)[i]| {
      NextEntry(s.cat, p, i);
      n := QuietLoad(SendStep(s, Acked));
      AcksFirst(s, n);
      n := n + 1;
    } else {
      NextMessage(s.cat, p, i, j);
      var sent := s.(sender := Form(p, i, j + 1), got := s.got + [Entries(s.cat, p)[i][j]]);
      n := QuietLoad(sent);
      MessageSteps(s, n);
      n := n + 3;
    }
  }

  lemma MessageSteps(s: State, n: nat)
    requires s.sender.Form? && s.flag == Running && s.sender.phase < PHASES
    requires s.sender.i < |Entries(s.cat, s.sender.phase)| && s.sender.j < |Entries(s.cat, s.sender.phase)[s.sender.i]|
    ensures var p, i, j := s.sender.phase, s.sender.i, s.sender.j;
            RunFrom(s, Acks(n + 3)) ==
            RunFrom(s.(sender := Form(p, i, j + 1), got := s.got + [Entries(s.cat, p)[i][j]]), Acks(n))
  {
    hide Entries, RunFrom, Acks;
    var p, i, j := s.sender.phase, s.sender.i, s.sender.j;
    var m := Entries(s.cat, p)[i][j];
    var checked, sending := s.(sender := Check(p, i, j, m)), s.(sender := Deliver(p, i, j, m));
    AcksFirst(s, n + 2);
    assert SendStep(s, Acked) == checked;
    AcksFirst(checked, n + 1);
    assert SendStep(checked, Acked) == sending;
    AcksFirst(sending, n);
  }

  lemma {:induction false} RunJoin(s: State, a: seq<Action>, b: seq<Action>)
    ensures RunFrom(s, a + b) == RunFrom(RunFrom(s, a), b)
    decreases a
  {
    if a == [] {
      assert a + b == b;
    } else {
      RunJoin(Act(s, a[0]), a[1..], b);
      assert (a + b)[1..] == a[1..] + b;
    }
  }

  lemma {:induction false} AcksCoarse(s: State, n: nat)
    requires s.handler.Resting?
    ensures Coarse(s, Acks(n))
    decreases n
  {
    if n > 0 {
      AcksCoarse(SendStep(s, Acked), n - 1);
      assert Acks(n)[1..] == Acks(n - 1);
    }
  }

  lemma {:induction false} CoarseJoin(s: State, a: seq<Action>, b: seq<Action>)
    requires Coarse(s, a) && Coarse(RunFrom(s, a), b)
    ensures Coarse(s, a + b)
    decreases a
  {
    if a == [] {
      assert a + b == b;
    } else {
      CoarseJoin(Act(s, a[0]), a[1..], b);
      assert (a + b)[1..] == a[1..] + b;
    }
  }

  /** A load that has sent everything but its last message. */
  function BeforeLast(cat: Catalog): State {
    State(cat, Running, true, Check(PHASES, 0, 0, Loaded), Resting, Messages(cat), false, false, false)
  }

  /** A run that brings an undisturbed load to the check before its last message. */
  lemma LoadToEnd(cat: Catalog) returns (actions: seq<Action>)
    ensures AllAcked(actions) && Coarse(Init(cat), actions)
    ensures Run(cat, actions) == BeforeLast(cat)
  {
    hide Before, Messages, Entries;
    var connected := Act(Init(cat), Connect);
    var started := SendStep(connected, Acked);
    FirstPlace(cat);
    assert InPlace(cat, 0, 0, 0) by { EntryCount(cat); }
    var n := QuietLoad(started);
    AcksFirst(connected, n);
    actions := [Connect] + Acks(n + 1);
    assert actions[1..] == Acks(n + 1);
    AcksCoarse(connected, n + 1);
  }

  lemma EntryCount(cat: Catalog)
    ensures InPlace(cat, 0, 0, 0)
  {
  }

  /** The steps that lose an update... */
  function LateUpdate(u: Update): seq<Action> {
    [Send(Acked), Begin(u), Handle(Acked)]
  }

  lemma UpdateComesLate(cat: Catalog, u: Update)
    ensures RunFrom(BeforeLast(cat), LateUpdate(u)) ==
            State(ApplyUpdate(cat, u), Changed, true, Deliver(PHASES, 0, 0, Loaded), if u.Move? then Applied(u) else Resting,
                  Messages(cat), false, false, false)
  {
    hide Messages, ApplyUpdate;
    Three(BeforeLast(cat), Send(Acked), Begin(u), Handle(Acked));
  }

  lemma LoadEndsAnyway(cat: Catalog, cat': Catalog, u: Update)
    ensures RunFrom(State(cat', Changed, true, Deliver(PHASES, 0, 0, Loaded), if u.Move? then Applied(u) else Resting,
                          Messages(cat), false, false, false),
                    [Handle(Acked), Send(Acked), Send(Acked)]) ==
            State(cat', Clear, true, Loop, Resting, Messages(cat) + [Loaded], false, false, false)
  {
    hide Messages;
    var s := State(cat', Changed, true, Deliver(PHASES, 0, 0, Loaded), if u.Move? then Applied(u) else Resting,
                   Messages(cat), false, false, false);
    Three(s, Handle(Acked), Send(Acked), Send(Acked));
  }

  /** ...after the last look at the flag, before the sender clears it: every send is
      acknowledged, no thread is running, and the component is left with the old
      catalog. */
  lemma LostUpdate(cat: Catalog, u: Update) returns (actions: seq<Action>)
    ensures AllAcked(actions)
    ensures var s := Run(cat, actions);
            && s.sender.Idle? && s.handler.Resting? && s.client && s.flag == Clear
            && s.cat == ApplyUpdate(cat, u) && s.got == Messages(cat) + [Loaded]
  {
    hide Messages, ApplyUpdate, RunFrom;
    actions := LoadToEnd(cat);
    var last := [Handle(Acked), Send(Acked), Send(Acked)];
    UpdateComesLate(cat, u);
    LoadEndsAnyway(cat, ApplyUpdate(cat, u), u);
    RunJoin(Init(cat), actions, LateUpdate(u));
    RunJoin(Init(cat), actions + LateUpdate(u), last);
    RunMore(Init(cat), actions + LateUpdate(u) + last, Send(Acked));
    actions := actions + LateUpdate(u) + last + [Send(Acked)];
  }

  lemma Three(s: State, a: Action, b: Action, c: Action)
    ensures RunFrom(s, [a, b, c]) == Act(Act(Act(s, a), b), c)
    ensures Allowed(s, a) && Allowed(Act(s, a), b) && Allowed(Act(Act(s, a), b), c) ==> Coarse(s, [a, b, c])
  {
    hide Act;
    assert [a, b, c][1..] == [b, c] && [b, c][1..] == [c] && [c][1..] == [];
    var s1, s2 := Act(s, a), Act(Act(s, a), b);
    assert RunFrom(s2, [c]) == Act(s2, c);
    if Allowed(s2, c) {
      OneCoarse(s2, c);
    }
    assert RunFrom(s1, [b, c]) == RunFrom(s2, [c]) && (Allowed(s1, b) && Coarse(s2, [c]) ==> Coarse(s1, [b, c]));
  }

  /** When the handler announces an update but the sender restarts before it is
      applied, the handler finds a copy running: the branch the source holds to be a
      programming error. */
  lemma HandlerOvertaken(cat: Catalog, u: Update) returns (actions: seq<Action>)
    requires u.Move?
    ensures AllAcked(actions) && Run(cat, actions).fatal
  {
    hide Messages, ApplyUpdate;
    actions := LoadToEnd(cat);
    var s := Run(cat, actions);
    var first, next := [Begin(u), Send(Acked), Send(Acked)], [Send(Acked), Handle(Acked), Handle(Acked)];
    Three(s, first[0], first[1], first[2]);
    Three(RunFrom(s, first), next[0], next[1], next[2]);
    RunJoin(Init(cat), actions, first);
    RunJoin(Init(cat), actions + first, next);
    actions := actions + first + next;
  }

  /** Even with single steps and every send acknowledged, an update that arrives between
      the restart and the reset makes the sender give up: the component stays connected,
      gets later moves, but never the rest of the catalog. */
  lemma LeftHalfway(cat: Catalog, u: Update) returns (actions: seq<Action>)
    requires u.Modify?
    ensures AllAcked(actions) && Coarse(Init(cat), actions)
    ensures var s := Run(cat, actions);
            && s.sender.Idle? && s.handler.Resting? && s.client && s.flag == Clear
            && s.got == Messages(cat) && !s.inStep
  {
    hide Messages, ApplyUpdate, RunFrom, Coarse;
    actions := LoadToEnd(cat);
    var first, next := [Begin(u), Handle(Acked), Send(Acked)], [Send(Acked), Send(Acked), Begin(u)];
    var last := [Handle(Acked), Send(Acked), Send(Acked)];
    Interrupted(cat, u);
    Struck(cat, ApplyUpdate(cat, u), u);
    GivesUp(cat, ApplyUpdate(cat, u), u);
    RunAndCoarse(Init(cat), actions, first);
    RunAndCoarse(Init(cat), actions + first, next);
    RunAndCoarse(Init(cat), actions + first + next, last);
    RunMore(Init(cat), actions + first + next + last, Send(Acked));
    OneCoarse(Run(cat, actions + first + next + last), Send(Acked));
    CoarseJoin(Init(cat), actions + first + next + last, [Send(Acked)]);
    actions := actions + first + next + last + [Send(Acked)];
  }

  lemma RunAndCoarse(s: State, a: seq<Action>, b: seq<Action>)
    requires Coarse(s, a) && Coarse(RunFrom(s, a), b)
    ensures RunFrom(s, a + b) == RunFrom(RunFrom(s, a), b) && Coarse(s, a + b)
  {
    RunJoin(s, a, b);
    CoarseJoin(s, a, b);
  }

  lemma OneCoarse(s: State, a: Action)
    requires Allowed(s, a)
    ensures Coarse(s, [a])
  {
  }

  /** A copy interrupted before its last message, with cat' the catalog by then. */
  function Halfway(cat: Catalog, cat': Catalog, flag: Flag, sender: Sender, handler: Handler): State {
    State(cat', flag, true, sender, handler, Messages(cat), false, false, false)
  }

  lemma Interrupted(cat: Catalog, u: Update)
    requires u.Modify?
    ensures var first := [Begin(u), Handle(Acked), Send(Acked)];
            && Coarse(BeforeLast(cat), first)
            && RunFrom(BeforeLast(cat), first) == Halfway(cat, ApplyUpdate(cat, u), Changed, Failed, Resting)
  {
    hide Messages, ApplyUpdate;
    Three(BeforeLast(cat), Begin(u), Handle(Acked), Send(Acked));
  }

  lemma Struck(cat: Catalog, cat': Catalog, u: Update)
    ensures var s, next := Halfway(cat, cat', Changed, Failed, Resting), [Send(Acked), Send(Acked), Begin(u)];
            Coarse(s, next) && RunFrom(s, next) == Halfway(cat, cat', Changed, CheckReset, Announced(u))
  {
    hide Messages;
    Three(Halfway(cat, cat', Changed, Failed, Resting), Send(Acked), Send(Acked), Begin(u));
  }

  lemma GivesUp(cat: Catalog, cat': Catalog, u: Update)
    requires u.Modify?
    ensures var s, last := Halfway(cat, cat', Changed, CheckReset, Announced(u)), [Handle(Acked), Send(Acked), Send(Acked)];
            Coarse(s, last) && RunFrom(s, last) == Halfway(cat, ApplyUpdate(cat', u), Clear, Loop, Resting)
  {
    hide Messages, ApplyUpdate;
    Three(Halfway(cat, cat', Changed, CheckReset, Announced(u)), Handle(Acked), Send(Acked), Send(Acked));
  }
}
