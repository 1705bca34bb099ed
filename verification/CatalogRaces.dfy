/**
  What the two races of the catalog copy lead to: from any state reached without them,
  each has a continuation, with every send acknowledged, that goes wrong.
*/
module CatalogRaces {
  import opened CatalogCopy
  import opened CatalogMessages

  // ----- continuations

  lemma {:induction false} RaceFreeJoin(s: State, a: seq<Action>, b: seq<Action>)
    requires RaceFree(s, a) && RaceFree(RunFrom(s, a), b)
    ensures RaceFree(s, a + b)
    decreases a
  {
    if a == [] {
      assert a + b == b;
    } else {
      RaceFreeJoin(Act(s, a[0]), a[1..], b);
      assert (a + b)[1..] == a[1..] + b;
    }
  }

  /** Left alone the sender does not come to a restart. */
  ghost predicate Smooth(s: State) {
    || (s.flag == Running && !s.sender.Idle? && !s.sender.Failed? && !s.sender.Restart? && !s.sender.GiveUp?)
    || (s.flag == Clear && (s.sender.Loop? || s.sender.Idle?))
  }

  lemma {:induction false} SmoothIsRaceFree(s: State, n: nat)
    requires Smooth(s)
    ensures RaceFree(s, Acks(n))
    decreases n
  {
    if n > 0 {
      StaysSmooth(s);
      hide SendStep, Smooth;
      SmoothIsRaceFree(SendStep(s, Acked), n - 1);
      assert Acks(n)[1..] == Acks(n - 1);
    }
  }

  lemma StaysSmooth(s: State)
    requires Smooth(s)
    ensures Smooth(SendStep(s, Acked)) && !s.sender.Restart?
  {
    hide Entries;
  }

  lemma {:induction false} NoSends(s: State, actions: seq<Action>)
    requires forall a :: a in actions ==> a.Handle?
    ensures RaceFree(s, actions)
    decreases actions
  {
    hide Act;
    if actions != [] {
      assert actions[0] in actions && forall a :: a in actions[1..] ==> a in actions;
      NoSends(Act(s, actions[0]), actions[1..]);
    }
  }

  function Handles(n: nat): seq<Action> {
    seq(n, _ => Handle(Acked))
  }

  lemma TwoHandles(s: State)
    ensures RunFrom(s, Handles(2)) == HandleStep(HandleStep(s, Acked), Acked)
    ensures RaceFree(s, Handles(2)) && AllAcked(Handles(2))
  {
    NoSends(s, Handles(2));
    assert Handles(2)[1..] == Handles(1) && Handles(1)[1..] == [];
    hide HandleStep;
    assert RunFrom(Act(s, Handle(Acked)), Handles(1)) == HandleStep(HandleStep(s, Acked), Acked);
  }

  /** The restart, the reset and the whole load up to the clearing of the flag, with
      the update still in hand. */
  function Recopied(s: State): State {
    s.(flag := Running, sender := Finish, got := Messages(s.cat) + [Loaded], torn := false)
  }

  lemma CopyAgain(s: State) returns (n: nat)
    requires s.sender.CheckReset? && s.flag == Running
    ensures RunFrom(s, Acks(n)) == Recopied(s) && RaceFree(s, Acks(n)) && AllAcked(Acks(n))
  {
    hide Before, Messages, Entries;
    var started := s.(sender := Form(0, 0, 0), got := [], torn := false);
    FirstPlace(s.cat);
    EntryCount(s.cat);
    n := QuietLoad(started);
    var last := started.(sender := Check(PHASES, 0, 0, Loaded), got := Messages(s.cat));
    RunOn(started, n, last, 2);
    LastTwo(last);
    n := n + 2;
    ResetSteps(s, n);
    n := n + 3;
    SmoothIsRaceFree(s, n);
  }

  lemma ResetSteps(s: State, n: nat)
    requires s.sender.CheckReset? && s.flag == Running
    ensures RunFrom(s, Acks(n + 3)) == RunFrom(s.(sender := Form(0, 0, 0), got := [], torn := false), Acks(n))
  {
    hide RunFrom, Acks;
    AcksFirst(s, n + 2);
    AcksFirst(SendStep(s, Acked), n + 1);
    AcksFirst(SendStep(SendStep(s, Acked), Acked), n);
  }

  lemma LastTwo(s: State)
    requires s.sender == Check(PHASES, 0, 0, Loaded) && s.flag == Running
    ensures RunFrom(s, Acks(2)) == s.(sender := Finish, got := s.got + [Loaded])
  {
    AcksFirst(s, 1);
    AcksFirst(SendStep(s, Acked), 0);
    assert Acks(0) == [];
  }

  lemma RunOn(s: State, n: nat, s': State, k: nat)
    requires RunFrom(s, Acks(n)) == s'
    ensures RunFrom(s, Acks(n + k)) == RunFrom(s', Acks(k))
  {
    assert Acks(n + k) == Acks(n) + Acks(k);
    RunJoin(s, Acks(n), Acks(k));
  }

  // ----- exactly these two

  lemma LateGoesWrong(s: State, a: Action) returns (more: seq<Action>)
    requires RaceFreeInv(s) && Late(s, a)
    ensures AllAcked(more) && RaceFree(Act(s, a), more) && !Right(RunFrom(Act(s, a), more))
  {
    hide Messages, Entries;
    more := if s.sender.Finish? then [] else [Send(Acked)];
    assert more != [] ==> more[1..] == [];
  }

  lemma OvertakingGoesWrong(s: State, a: Action) returns (more: seq<Action>)
    requires RaceFreeInv(s) && Overtakes(s, a)
    ensures AllAcked(more) && RaceFree(Act(s, a), more) && !Right(RunFrom(Act(s, a), more))
  {
    hide Messages, Entries, ApplyUpdate;
    var s' := Act(s, a);
    if s.handler.u.Move? {
      more := Handles(2);
      TwoHandles(s');
    } else {
      var n := CopyAgain(s');
      var handles := Handles(2);
      TwoHandles(Recopied(s'));
      RunJoin(s', Acks(n), handles);
      RaceFreeJoin(s', Acks(n), handles);
      more := Acks(n) + handles;
    }
  }

  /** After a run without races, a step leaves every race-free continuation right
      exactly when it is not a race itself. */
  lemma ExactlyTheRaces(cat: Catalog, actions: seq<Action>, a: Action)
    requires RaceFree(Init(cat), actions)
    ensures var s' := Act(Run(cat, actions), a);
            (forall more :: RaceFree(s', more) ==> Right(RunFrom(s', more))) <==> !Races(Run(cat, actions), a)
  {
    var s := Run(cat, actions);
    InitRaceFree(cat);
    RunKeepsRaceFree(Init(cat), actions);
    hide Act, Late, Overtakes, RaceFreeInv, Right;
    if Late(s, a) {
      var more := LateGoesWrong(s, a);
    } else if Overtakes(s, a) {
      var more := OvertakingGoesWrong(s, a);
    } else {
      ActKeepsRaceFree(s, a);
      forall more | RaceFree(Act(s, a), more)
        ensures Right(RunFrom(Act(s, a), more))
      {
        RunKeepsRaceFree(Act(s, a), more);
        RaceFreeIsRight(RunFrom(Act(s, a), more));
      }
    }
  }

  // ----- how they end

  /** All threads at rest, the component connected, and left with the messages of the
      catalog as it was before u. */
  ghost predicate Lost(s: State, cat: Catalog, u: Update) {
    && s.sender.Idle? && s.handler.Resting? && s.client && s.flag == Clear
    && s.cat == ApplyUpdate(cat, u) && s.got == Messages(cat) + [Loaded]
  }

  function SendsLeft(sender: Sender): nat {
    if sender.Finish? then 2 else 3
  }

  /** From the last send the load ends and the sender leaves. */
  function Ended(s: State): State
    requires LastSend(s.sender)
  {
    s.(flag := Clear, sender := Idle, inStep := s.flag == Running && !s.torn,
       got := if s.sender.Deliver? then s.got + [s.sender.text] else s.got)
  }

  lemma LoadEnds(s: State)
    requires LastSend(s.sender)
    ensures RunFrom(s, Acks(SendsLeft(s.sender))) == Ended(s)
  {
    hide RunFrom, Acks, Entries;
    if s.sender.Deliver? {
      var finish := s.(sender := Finish, got := s.got + [s.sender.text]);
      AcksFirst(s, 2);
      assert SendStep(s, Acked) == finish;
      FinishEnds(finish);
    } else {
      FinishEnds(s);
    }
  }

  lemma FinishEnds(s: State)
    requires s.sender.Finish?
    ensures RunFrom(s, Acks(2)) == s.(flag := Clear, sender := Idle, inStep := s.flag == Running && !s.torn)
  {
    AcksFirst(s, 1);
    AcksFirst(SendStep(s, Acked), 0);
    assert Acks(0) == [];
  }

  lemma LateHandled(s: State, u: Update)
    requires Late(s, Begin(u))
    ensures HandleStep(HandleStep(Act(s, Begin(u)), Acked), Acked) == s.(flag := Changed, cat := ApplyUpdate(s.cat, u))
  {
    hide ApplyUpdate;
  }

  /** At the last send everything else has been taken. */
  lemma LastMessage(s: State)
    requires RaceFreeInv(s) && LastSend(s.sender)
    ensures s.client && Ended(s).got == Messages(s.cat) + [Loaded]
  {
    if s.sender.Deliver? {
      LastPlace(s.cat, s.sender.phase, s.sender.i, s.sender.j);
    }
    hide Messages, Entries, Before;
  }

  /** From anywhere a late update can be lost... */
  lemma LateIsLost(cat: Catalog, actions: seq<Action>, u: Update) returns (more: seq<Action>)
    requires RaceFree(Init(cat), actions) && Late(Run(cat, actions), Begin(u))
    ensures AllAcked(more)
    ensures var end := RunFrom(Act(Run(cat, actions), Begin(u)), more);
            !end.inStep && Lost(end, Run(cat, actions).cat, u)
  {
    var s := Run(cat, actions);
    InitRaceFree(cat);
    RunKeepsRaceFree(Init(cat), actions);
    LastMessage(s);
    LateHandled(s, u);
    var s' := Act(s, Begin(u));
    var handled := s.(flag := Changed, cat := ApplyUpdate(s.cat, u));
    hide Messages, Entries, ApplyUpdate, Before, RunFrom, HandleStep, Act, Inv;
    TwoHandles(s');
    LoadEnds(handled);
    RunJoin(s', Handles(2), Acks(SendsLeft(s.sender)));
    more := Handles(2) + Acks(SendsLeft(s.sender));
  }

  lemma ChangeHandled(s: State, u: Update)
    requires s.flag == Clear && s.handler == Announced(u) && !u.Move?
    ensures HandleStep(HandleStep(s, Acked), Acked) == s.(cat := ApplyUpdate(s.cat, u), handler := Resting)
  {
    hide ApplyUpdate;
  }

  /** ...and so can a change that was overtaken: the sender resets the component and
      copies the catalog, and only then the change is made... */
  lemma OvertakenChangeIsLost(cat: Catalog, actions: seq<Action>, out: Outcome) returns (more: seq<Action>)
    requires RaceFree(Init(cat), actions) && Overtakes(Run(cat, actions), Send(out))
    requires Run(cat, actions).handler.Announced? && !Run(cat, actions).handler.u.Move?
    ensures AllAcked(more)
    ensures var s := Run(cat, actions); Lost(RunFrom(Act(s, Send(out)), more), s.cat, s.handler.u)
  {
    var s := Run(cat, actions);
    InitRaceFree(cat);
    RunKeepsRaceFree(Init(cat), actions);
    var s' := Act(s, Send(out));
    assert s'.client && s' == s.(flag := Running, sender := CheckReset);
    var n := CopyAgain(s');
    var copied := Recopied(s');
    var idle := Ended(copied);
    hide Messages, Entries, ApplyUpdate, Before, RunFrom, HandleStep, Act, Inv;
    LoadEnds(copied);
    RunOn(s', n, copied, 2);
    ChangeHandled(idle, s.handler.u);
    TwoHandles(idle);
    RunJoin(s', Acks(n + 2), Handles(2));
    more := Acks(n + 2) + Handles(2);
  }

  /** ...while a move that was overtaken finds the copy running. */
  lemma OvertakenMoveIsFatal(cat: Catalog, actions: seq<Action>, out: Outcome) returns (more: seq<Action>)
    requires RaceFree(Init(cat), actions) && Overtakes(Run(cat, actions), Send(out))
    requires Run(cat, actions).handler.u.Move?
    ensures AllAcked(more) && RunFrom(Act(Run(cat, actions), Send(out)), more).fatal
  {
    InitRaceFree(cat);
    RunKeepsRaceFree(Init(cat), actions);
    more := Handles(2);
    TwoHandles(Act(Run(cat, actions), Send(out)));
  }
}
