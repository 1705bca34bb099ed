/**
  The Linear Road wait-for box: data tuples wait in a buffer, filed by group and
  key, until the control stream raises the threshold of their group to their key.

  Hash maps are walked in no particular order, so the order in which one
  invocation releases buffered tuples is not determined.  What is determined is
  the order within each lane, the tuples of one group and one key; every
  statement below is made lane by lane.
*/
module LRWaitFor {

  type Group = string
  type Thresholds = map<Group, int>
  type Buffers = map<Group, map<int, seq<Data>>>

  datatype Control = Control(group: Group, key: int)
  datatype Data = Data(group: Group, key: int, body: string)

  /** start-key-value and use-data-as-first-key-value. */
  datatype Mode = Mode(useStart: bool, start: int, dataFirst: bool)

  datatype State = State(max: Thresholds, buffers: Buffers)

  const EMPTY := State(map[], map[])

  // ----- lanes

  /** The tuples of s with group g and key k, in the order they have in s. */
  function Lane(s: seq<Data>, g: Group, k: int): seq<Data> {
    if s == [] then []
    else
      var d, before := s[|s| - 1], Lane(s[..|s| - 1], g, k);
      if d.group == g && d.key == k then before + [d] else before
  }

  lemma LaneAppend(s: seq<Data>, d: Data, g: Group, k: int)
    ensures Lane(s + [d], g, k) == if d.group == g && d.key == k then Lane(s, g, k) + [d] else Lane(s, g, k)
  {
    assert (s + [d])[..|s|] == s;
  }

  lemma {:induction false} LaneConcat(s: seq<Data>, t: seq<Data>, g: Group, k: int)
    ensures Lane(s + t, g, k) == Lane(s, g, k) + Lane(t, g, k)
    decreases |t|
  {
    if t == [] {
      assert s + t == s;
    } else {
      var n := |t| - 1;
      LaneConcat(s, t[..n], g, k);
      assert (s + t)[..|s + t| - 1] == s + t[..n];
    }
  }

  /** A sequence all of one lane is that lane, and no other lane has any of it. */
  lemma {:induction false} LaneOfLane(s: seq<Data>, g: Group, k: int)
    requires forall d :: d in s ==> d.group == g && d.key == k
    ensures forall g', k' :: Lane(s, g', k') == if g' == g && k' == k then s else []
  {
    if s != [] {
      LaneOfLane(s[..|s| - 1], g, k);
    }
  }

  lemma {:induction false} LaneCounts(s: seq<Data>, d: Data)
    ensures multiset(s)[d] == multiset(Lane(s, d.group, d.key))[d]
  {
    if s != [] {
      var n := |s| - 1;
      LaneCounts(s[..n], d);
      assert s == s[..n] + [s[n]];
    }
  }

  /** Sequences that agree on every lane hold the same tuples equally often. */
  lemma LanesDetermineMultiset(s: seq<Data>, t: seq<Data>)
    requires forall g, k :: Lane(s, g, k) == Lane(t, g, k)
    ensures multiset(s) == multiset(t)
  {
    forall d: Data
      ensures multiset(s)[d] == multiset(t)[d]
    {
      LaneCounts(s, d);
      LaneCounts(t, d);
    }
  }

  // ----- thresholds

  function Raise(max: Thresholds, c: Control): Thresholds {
    if c.group in max && c.key <= max[c.group] then max else max[c.group := c.key]
  }

  function RaiseAll(max: Thresholds, control: seq<Control>): Thresholds {
    if control == [] then max
    else Raise(RaiseAll(max, control[..|control| - 1]), control[|control| - 1])
  }

  predicate NeverBelow(low: Thresholds, high: Thresholds) {
    forall g :: g in low ==> g in high && low[g] <= high[g]
  }

  lemma {:induction false} RaiseAllConcat(max: Thresholds, a: seq<Control>, b: seq<Control>)
    ensures RaiseAll(max, a + b) == RaiseAll(RaiseAll(max, a), b)
    decreases |b|
  {
    if b == [] {
      assert a + b == a;
    } else {
      var n := |b| - 1;
      RaiseAllConcat(max, a, b[..n]);
      assert (a + b)[..|a + b| - 1] == a + b[..n];
    }
  }

  lemma {:induction false} RaiseAllMonotone(max: Thresholds, control: seq<Control>)
    ensures NeverBelow(max, RaiseAll(max, control))
  {
    if control != [] {
      RaiseAllMonotone(max, control[..|control| - 1]);
    }
  }

  /** A group has a threshold exactly when it had one or has a control tuple, and the
      threshold is the largest of the one it had and the keys of these. */
  lemma {:induction false} ThresholdIsMaximum(max: Thresholds, control: seq<Control>, g: Group)
    ensures g in RaiseAll(max, control) <==> g in max || exists c :: c in control && c.group == g
    ensures g in RaiseAll(max, control) ==>
              var m := RaiseAll(max, control)[g];
              && ((g in max && max[g] == m) || Control(g, m) in control)
              && (g in max ==> max[g] <= m) && forall c :: c in control && c.group == g ==> c.key <= m
  {
    if control != [] {
      var n := |control| - 1;
      var c := control[n];
      ThresholdIsMaximum(max, control[..n], g);
      assert control == control[..n] + [c];
      var before := RaiseAll(max, control[..n]);
      if g in before && Control(g, before[g]) in control[..n] {
        assert Control(g, before[g]) in control;
      }
      if c.group == g {
        assert c in control;
        assert c == Control(g, c.key);
      }
    }
  }

  // ----- one invocation

  function Held(buffers: Buffers, g: Group, k: int): seq<Data> {
    if g in buffers && k in buffers[g] then buffers[g][k] else []
  }

  /** The list of lane (g, k) replaced; both maps gain an entry when they lack one. */
  function Refile(buffers: Buffers, g: Group, k: int, list: seq<Data>): (r: Buffers)
    ensures forall g', k' :: Held(r, g', k') == if g' == g && k' == k then list else Held(buffers, g', k')
    ensures g in r && r[g].Keys == (if g in buffers then buffers[g].Keys else {}) + {k}
  {
    var lists := if g in buffers then buffers[g] else map[];
    buffers[g := lists[k := list]]
  }

  predicate Due(max: Thresholds, g: Group, k: int) {
    g in max && k <= max[g]
  }

  /** What becomes of a data tuple: it passes, it passes and gives its group a
      first threshold, or it is held. */
  datatype Decision = Pass | Seed | Hold

  function Decide(mode: Mode, max: Thresholds, d: Data): Decision {
    if d.group in max then
      if d.key <= max[d.group] then Pass else Hold
    else if mode.dataFirst then Seed
    else if mode.useStart && d.key <= mode.start then Pass
    else Hold
  }

  datatype DataPhase = DataPhase(max: Thresholds, out: seq<Data>, held: seq<Data>)

  function Consume(mode: Mode, max: Thresholds, data: seq<Data>): DataPhase {
    if data == [] then DataPhase(max, [], [])
    else Accept(mode, Consume(mode, max, data[..|data| - 1]), data[|data| - 1])
  }

  function Accept(mode: Mode, p: DataPhase, d: Data): DataPhase {
    match Decide(mode, p.max, d)
    case Pass => p.(out := p.out + [d])
    case Seed => p.(max := p.max[d.group := d.key], out := p.out + [d])
    case Hold => p.(held := p.held + [d])
  }

  /** Every tuple is filed under its own group and key. */
  ghost predicate Filed(buffers: Buffers) {
    forall g, k :: forall d :: d in Held(buffers, g, k) ==> d.group == g && d.key == k
  }

  /** The lanes due under max have left the buffers, as out. */
  ghost predicate Released(max: Thresholds, before: Buffers, out: seq<Data>, after: Buffers) {
    forall g, k ::
      && Lane(out, g, k) == (if Due(max, g, k) then Held(before, g, k) else [])
      && Held(after, g, k) == (if Due(max, g, k) then [] else Held(before, g, k))
  }

  /** The same for the groups in done only; the other lanes have not moved. */
  ghost predicate ReleasedFrom(max: Thresholds, done: set<Group>, before: Buffers, out: seq<Data>, after: Buffers) {
    forall g, k ::
      var gone := g in done && Due(max, g, k);
      && Lane(out, g, k) == (if gone then Held(before, g, k) else [])
      && Held(after, g, k) == (if gone then [] else Held(before, g, k))
  }

  lemma ReleasedMore(max: Thresholds, done: set<Group>, g: Group,
                     before: Buffers, out: seq<Data>, between: Buffers, more: seq<Data>, after: Buffers)
    requires g !in done
    requires ReleasedFrom(max, done, before, out, between)
    requires ReleasedFrom(max, {g}, between, more, after)
    ensures ReleasedFrom(max, done + {g}, before, out + more, after)
  {
    forall g', k
      ensures var gone := g' in done + {g} && Due(max, g', k);
              && Lane(out + more, g', k) == (if gone then Held(before, g', k) else [])
              && Held(after, g', k) == (if gone then [] else Held(before, g', k))
    {
      LaneConcat(out, more, g', k);
      assert Lane(out, g', k) == if g' in done && Due(max, g', k) then Held(before, g', k) else [];
      assert Lane(more, g', k) == if g' == g && Due(max, g', k) then Held(between, g', k) else [];
    }
  }

  ghost predicate Emptied(before: Buffers, g: Group, k: int, after: Buffers) {
    forall g', k' :: Held(after, g', k') == if g' == g && k' == k then [] else Held(before, g', k')
  }

  /** The same for the keys in done of one group. */
  ghost predicate KeysReleased(max: Thresholds, g: Group, done: set<int>, before: Buffers, out: seq<Data>, after: Buffers) {
    forall g', k ::
      var gone := g' == g && k in done && Due(max, g, k);
      && Lane(out, g', k) == (if gone then Held(before, g', k) else [])
      && Held(after, g', k) == (if gone then [] else Held(before, g', k))
  }

  lemma KeysReleasedMore(max: Thresholds, g: Group, done: set<int>, k: int,
                         before: Buffers, out: seq<Data>, between: Buffers, more: seq<Data>, after: Buffers)
    requires k !in done && Due(max, g, k)
    requires KeysReleased(max, g, done, before, out, between)
    requires Filed(between) && more == Held(between, g, k)
    requires Emptied(between, g, k, after)
    ensures Filed(after)
    ensures KeysReleased(max, g, done + {k}, before, out + more, after)
  {
    LaneOfLane(more, g, k);
    forall g', k'
      ensures var gone := g' == g && k' in done + {k} && Due(max, g, k');
              && Lane(out + more, g', k') == (if gone then Held(before, g', k') else [])
              && Held(after, g', k') == (if gone then [] else Held(before, g', k'))
    {
      LaneConcat(out, more, g', k');
      assert Lane(out, g', k') == if g' == g && k' in done && Due(max, g, k') then Held(before, g', k') else [];
    }
  }

  lemma NoKeysReleased(max: Thresholds, g: Group, before: Buffers, after: Buffers)
    requires Filed(before)
    requires after == before || (g !in before && after == before[g := map[]])
    ensures Filed(after) && KeysReleased(max, g, {}, before, [], after)
  {
    assert forall g', k :: Held(after, g', k) == Held(before, g', k);
  }

  lemma KeyKept(max: Thresholds, g: Group, done: set<int>, k: int, before: Buffers, out: seq<Data>, after: Buffers)
    requires KeysReleased(max, g, done, before, out, after) && !Due(max, g, k)
    ensures KeysReleased(max, g, done + {k}, before, out, after)
  {
  }

  lemma AllKeysReleased(max: Thresholds, g: Group, done: set<int>, before: Buffers, out: seq<Data>, after: Buffers)
    requires KeysReleased(max, g, done, before, out, after)
    requires g in after && done == after[g].Keys
    ensures ReleasedFrom(max, {g}, before, out, after)
  {
    forall g', k
      ensures var gone := g' in {g} && Due(max, g', k);
              && Lane(out, g', k) == (if gone then Held(before, g', k) else [])
              && Held(after, g', k) == (if gone then [] else Held(before, g', k))
    {
      if g' == g && k !in done {
        assert Held(after, g, k) == [];
      }
    }
  }

  lemma SomeKey(keys: set<int>)
    ensures keys == {} || exists k :: k in keys
  {
    if forall k :: k !in keys {
      assert keys == {};
    }
  }

  /** The tuples in held have joined the buffers, each at the end of its lane. */
  ghost predicate Stored(before: Buffers, held: seq<Data>, after: Buffers) {
    forall g, k :: Held(after, g, k) == Held(before, g, k) + Lane(held, g, k)
  }

  lemma StoredMore(start: Buffers, held: seq<Data>, before: Buffers, d: Data)
    requires Filed(before)
    requires Stored(start, held, before)
    ensures var after := Refile(before, d.group, d.key, Held(before, d.group, d.key) + [d]);
            Filed(after) && Stored(start, held + [d], after)
  {
    var after := Refile(before, d.group, d.key, Held(before, d.group, d.key) + [d]);
    assert Filed(after) by {
      RefileFiled(before, d);
    }
    forall g, k
      ensures Held(after, g, k) == Held(start, g, k) + Lane(held + [d], g, k)
    {
      LaneAppend(held, d, g, k);
    }
  }

  lemma RefileFiled(before: Buffers, d: Data)
    requires Filed(before)
    ensures Filed(Refile(before, d.group, d.key, Held(before, d.group, d.key) + [d]))
  {
    var after := Refile(before, d.group, d.key, Held(before, d.group, d.key) + [d]);
    forall g, k
      ensures forall e :: e in Held(after, g, k) ==> e.group == g && e.key == k
    {
      if g != d.group || k != d.key {
        assert Held(after, g, k) == Held(before, g, k);
      }
    }
  }

  /** One invocation takes s to s' and emits out. */
  ghost predicate Invocation(mode: Mode, s: State, b: Batch, out: seq<Data>, s': State) {
    var raised := RaiseAll(s.max, b.control);
    var phase := Consume(mode, raised, b.data);
    && s'.max == phase.max
    && forall g, k ::
         var due := Due(raised, g, k);
         && Lane(out, g, k) == (if due then Held(s.buffers, g, k) else []) + Lane(phase.out, g, k)
         && Held(s'.buffers, g, k) == (if due then [] else Held(s.buffers, g, k)) + Lane(phase.held, g, k)
  }

  /** The tuples one invocation dequeues from its two inputs. */
  datatype Batch = Batch(control: seq<Control>, data: seq<Data>)

  class LRWaitForBox {
    const mode: Mode
    var maxKeys: Thresholds
    var buffers: Buffers

    constructor (mode: Mode)
      ensures this.mode == mode && Now() == EMPTY && Filed(buffers)
    {
      this.mode := mode;
      maxKeys, buffers := map[], map[];
    }

    ghost function Now(): State
      reads this
    {
      State(maxKeys, buffers)
    }

    /** Control tuples first, then the buffers, then the new data. */
    method Run(b: Batch) returns (out: seq<Data>)
      requires Filed(buffers)
      modifies this
      ensures Filed(buffers)
      ensures Invocation(mode, old(Now()), b, out, Now())
      ensures InvocationMeans(mode, old(Now()), b, out, Now())
    {
      hide InvocationMeans;
      RaiseThresholds(b.control);
      ghost var raised, before := maxKeys, buffers;
      out := Release();
      ghost var released, between := out, buffers;
      var passed := AcceptData(b.data);
      out := out + passed;
      forall g, k
        ensures var due := Due(raised, g, k);
                && Lane(out, g, k) == (if due then Held(before, g, k) else []) + Lane(passed, g, k)
                && Held(buffers, g, k) == (if due then [] else Held(before, g, k))
                   + Lane(Consume(mode, raised, b.data).held, g, k)
      {
        LaneConcat(released, passed, g, k);
        assert Lane(released, g, k) == (if Due(raised, g, k) then Held(before, g, k) else []);
      }
      InvocationIs(mode, old(Now()), b, out, Now());
    }

    method RaiseThresholds(control: seq<Control>)
      modifies this`maxKeys
      ensures maxKeys == RaiseAll(old(maxKeys), control)
    {
      var i := 0;
      while i < |control|
        invariant 0 <= i <= |control|
        invariant maxKeys == RaiseAll(old(maxKeys), control[..i])
      {
        var c := control[i];
        assert control[..i + 1][..i] == control[..i];
        if c.group in maxKeys {
          if c.key > maxKeys[c.group] {
            maxKeys := maxKeys[c.group := c.key];
          }
        } else {
          maxKeys := maxKeys[c.group := c.key];
        }
        i := i + 1;
      }
      assert control[..i] == control;
    }

    method Release() returns (out: seq<Data>)
      requires Filed(buffers)
      modifies this`buffers
      ensures Filed(buffers)
      ensures Released(maxKeys, old(buffers), out, buffers)
    {
      out := [];
      var groups := maxKeys.Keys;
      ghost var done: set<Group> := {};
      while groups != {}
        invariant groups + done == maxKeys.Keys && groups !! done
        invariant Filed(buffers)
        invariant ReleasedFrom(maxKeys, done, old(buffers), out, buffers)
        decreases |groups|
      {
        var g :| g in groups;
        groups := groups - {g};
        ghost var between := buffers;
        var more := ReleaseGroup(g);
        ReleasedMore(maxKeys, done, g, old(buffers), out, between, more, buffers);
        out := out + more;
        done := done + {g};
      }
    }

    method ReleaseGroup(g: Group) returns (out: seq<Data>)
      requires g in maxKeys
      requires Filed(buffers)
      modifies this`buffers
      ensures Filed(buffers)
      ensures ReleasedFrom(maxKeys, {g}, old(buffers), out, buffers)
    {
      out := [];
      if g !in buffers {
        buffers := buffers[g := map[]];
      }
      ghost var all := buffers[g].Keys;
      var keys: set<int> := buffers[g].Keys;
      NoKeysReleased(maxKeys, g, old(buffers), buffers);
      while keys != {}
        invariant g in buffers && buffers[g].Keys == all
        invariant keys <= all
        invariant Filed(buffers)
        invariant KeysReleased(maxKeys, g, all - keys, old(buffers), out, buffers)
        decreases |keys|
      {
        SomeKey(keys);
        var k :| k in keys;
        if k <= maxKeys[g] {
          ghost var between := buffers;
          var more := EmitList(g, k);
          KeysReleasedMore(maxKeys, g, all - keys, k, old(buffers), out, between, more, buffers);
          out := out + more;
        } else {
          KeyKept(maxKeys, g, all - keys, k, old(buffers), out, buffers);
        }
        assert all - (keys - {k}) == all - keys + {k};
        keys := keys - {k};
      }
      assert all - keys == all;
      AllKeysReleased(maxKeys, g, all, old(buffers), out, buffers);
    }

    /** Emit one list, erasing each tuple as it goes. */
    method EmitList(g: Group, k: int) returns (out: seq<Data>)
      requires g in buffers && k in buffers[g]
      modifies this`buffers
      ensures out == old(Held(buffers, g, k))
      ensures g in buffers && buffers[g].Keys == old(buffers[g].Keys)
      ensures Emptied(old(buffers), g, k, buffers)
    {
      out := [];
      while buffers[g][k] != []
        invariant g in buffers && buffers[g].Keys == old(buffers[g].Keys)
        invariant out + buffers[g][k] == old(Held(buffers, g, k))
        invariant forall g', k' ::
                    Held(buffers, g', k') == if g' == g && k' == k then buffers[g][k] else old(Held(buffers, g', k'))
        decreases |buffers[g][k]|
      {
        var t := buffers[g][k];
        out := out + [t[0]];
        buffers := Refile(buffers, g, k, t[1..]);
      }
    }

    method AcceptData(data: seq<Data>) returns (out: seq<Data>)
      requires Filed(buffers)
      modifies this
      ensures Filed(buffers)
      ensures maxKeys == Consume(mode, old(maxKeys), data).max
      ensures out == Consume(mode, old(maxKeys), data).out
      ensures Stored(old(buffers), Consume(mode, old(maxKeys), data).held, buffers)
    {
      out := [];
      var i := 0;
      while i < |data|
        invariant 0 <= i <= |data|
        invariant Filed(buffers)
        invariant maxKeys == Consume(mode, old(maxKeys), data[..i]).max
        invariant out == Consume(mode, old(maxKeys), data[..i]).out
        invariant Stored(old(buffers), Consume(mode, old(maxKeys), data[..i]).held, buffers)
      {
        var d := data[i];
        ghost var p := Consume(mode, old(maxKeys), data[..i]);
        assert data[..i + 1][..i] == data[..i];
        i := i + 1;
        if d.group in maxKeys {
          if d.key <= maxKeys[d.group] {
            out := out + [d];
          } else {
            Buffer(d, old(buffers), p.held);
          }
          continue;
        }
        if mode.dataFirst {
          maxKeys := maxKeys[d.group := d.key];
          out := out + [d];
          continue;
        }
        if mode.useStart && d.key <= mode.start {
          out := out + [d];
          continue;
        }
        Buffer(d, old(buffers), p.held);
      }
      assert data[..i] == data;
    }

    method Buffer(d: Data, ghost start: Buffers, ghost held: seq<Data>)
      requires Filed(buffers)
      requires Stored(start, held, buffers)
      modifies this`buffers
      ensures Filed(buffers)
      ensures Stored(start, held + [d], buffers)
    {
      buffers := Refile(buffers, d.group, d.key, Held(buffers, d.group, d.key) + [d]);
      StoredMore(start, held, old(buffers), d);
    }
  }

  // ----- whole runs

  function AllControl(batches: seq<Batch>): seq<Control> {
    if batches == [] then []
    else AllControl(batches[..|batches| - 1]) + batches[|batches| - 1].control
  }

  function AllData(batches: seq<Batch>): seq<Data> {
    if batches == [] then []
    else AllData(batches[..|batches| - 1]) + batches[|batches| - 1].data
  }

  /** batches take EMPTY to s, and everything emitted on the way is out. */
  ghost predicate Run(mode: Mode, batches: seq<Batch>, out: seq<Data>, s: State) {
    if batches == [] then out == [] && s == EMPTY
    else
      var n := |batches| - 1;
      exists before, sofar, last ::
        && Run(mode, batches[..n], sofar, before)
        && Invocation(mode, before, batches[n], last, s)
        && out == sofar + last
  }

  /** Another invocation makes a run longer. */
  lemma RunGrows(mode: Mode, batches: seq<Batch>, sofar: seq<Data>, before: State, b: Batch, last: seq<Data>, s: State)
    requires Run(mode, batches, sofar, before) && Invocation(mode, before, b, last, s)
    ensures Run(mode, batches + [b], sofar + last, s)
  {
    var all, n := batches + [b], |batches|;
    assert all[..n] == batches && all[n] == b;
    assert Run(mode, all[..n], sofar, before) && Invocation(mode, before, all[n], last, s);
  }

  /** With the thresholds max, would a tuple of lane (g, k) pass? */
  predicate Open(mode: Mode, max: Thresholds, g: Group, k: int) {
    if g in max then k <= max[g] else !mode.dataFirst && mode.useStart && k <= mode.start
  }

  /** A lane is held only when it is closed; in data-as-first mode only a group
      with a threshold has anything held at all. */
  ghost predicate HeldIsClosed(mode: Mode, s: State) {
    forall g, k :: Held(s.buffers, g, k) != [] ==>
                     !Open(mode, s.max, g, k) && (mode.dataFirst ==> g in s.max)
  }

  /** Within one data phase a lane passes as a whole or is held as a whole. */
  ghost predicate Uniform(mode: Mode, max: Thresholds, data: seq<Data>, p: DataPhase, g: Group, k: int) {
    && Lane(p.out, g, k) == (if Open(mode, p.max, g, k) then Lane(data, g, k) else [])
    && Lane(p.held, g, k) == (if Open(mode, p.max, g, k) then [] else Lane(data, g, k))
    && (mode.dataFirst && g !in p.max ==> Lane(data, g, k) == [])
    && (g in max ==> g in p.max && p.max[g] == max[g])
    && (!mode.dataFirst ==> p.max == max)
  }

  lemma UniformStep(mode: Mode, max: Thresholds, data: seq<Data>, p: DataPhase, d: Data, g: Group, k: int)
    requires Uniform(mode, max, data, p, g, k)
    ensures Uniform(mode, max, data + [d], Accept(mode, p, d), g, k)
  {
    LaneAppend(data, d, g, k);
    LaneAppend(p.out, d, g, k);
    LaneAppend(p.held, d, g, k);
    hide Lane;
  }

  lemma {:induction false} LanePassesOrIsHeld(mode: Mode, max: Thresholds, data: seq<Data>, g: Group, k: int)
    ensures Uniform(mode, max, data, Consume(mode, max, data), g, k)
  {
    if data != [] {
      var n := |data| - 1;
      var p := Consume(mode, max, data[..n]);
      assert Consume(mode, max, data) == Accept(mode, p, data[n]);
      assert data == data[..n] + [data[n]];
      LanePassesOrIsHeld(mode, max, data[..n], g, k);
      UniformStep(mode, max, data[..n], p, data[n], g, k);
    }
  }

  /** Tuple i is the first of group g in the data. */
  ghost predicate FirstAt(data: seq<Data>, i: int, g: Group) {
    0 <= i < |data| && data[i].group == g && forall j :: 0 <= j < i ==> data[j].group != g
  }

  /** A data phase leaves the thresholds there were; in data-as-first mode a group without
      one gets the key of its first tuple, and in no other mode does any. */
  lemma {:induction false} SeededByFirst(mode: Mode, max: Thresholds, data: seq<Data>, g: Group)
    ensures var m := Consume(mode, max, data).max;
            && (g in max ==> g in m && m[g] == max[g])
            && (g in m <==> g in max || (mode.dataFirst && exists i :: FirstAt(data, i, g)))
            && (g !in max && mode.dataFirst ==> forall i :: FirstAt(data, i, g) ==> m[g] == data[i].key)
  {
    if data != [] {
      var n := |data| - 1;
      var before := data[..n];
      SeededByFirst(mode, max, before, g);
      assert Consume(mode, max, data) == Accept(mode, Consume(mode, max, before), data[n]);
      assert forall i :: 0 <= i < n ==> before[i] == data[i];
      forall i | 0 <= i < n
        ensures FirstAt(data, i, g) <==> FirstAt(before, i, g)
      {
      }
      if forall i :: !FirstAt(before, i, g) {
        NoFirst(before, g);
        assert data[n].group == g ==> FirstAt(data, n, g);
      }
    }
  }

  lemma {:induction false} NoFirst(data: seq<Data>, g: Group)
    requires forall i :: !FirstAt(data, i, g)
    ensures forall i :: 0 <= i < |data| ==> data[i].group != g
  {
    if data != [] {
      var n := |data| - 1;
      assert forall j :: 0 <= j < n ==> data[..n][j] == data[j];
      forall i
        ensures FirstAt(data[..n], i, g) ==> FirstAt(data, i, g)
      {
      }
      NoFirst(data[..n], g);
      assert !FirstAt(data, n, g);
    }
  }

  /** Do the new tuples of a lane pass?  If their key is up to the threshold of the group;
      without a threshold, in data-as-first mode if it is up to the key of the group's
      first new tuple, else if a start key was given and it is up to that. */
  ghost predicate Passes(mode: Mode, max: Thresholds, data: seq<Data>, g: Group, k: int) {
    if g in max then k <= max[g]
    else if mode.dataFirst then exists i :: FirstAt(data, i, g) && k <= data[i].key
    else mode.useStart && k <= mode.start
  }

  /** The new tuples of a lane pass in the order they came, or are held in that order. */
  lemma WhoPasses(mode: Mode, max: Thresholds, data: seq<Data>, g: Group, k: int)
    ensures var p, passes := Consume(mode, max, data), Passes(mode, max, data, g, k);
            && Lane(p.out, g, k) == (if passes then Lane(data, g, k) else [])
            && Lane(p.held, g, k) == (if passes then [] else Lane(data, g, k))
  {
    SeededByFirst(mode, max, data, g);
    LanePassesOrIsHeld(mode, max, data, g, k);
    var p := Consume(mode, max, data);
    if g !in max && mode.dataFirst && g in p.max {
      var i :| FirstAt(data, i, g);
      assert Open(mode, p.max, g, k) <==> Passes(mode, max, data, g, k);
    }
  }

  /** One invocation, group by group and key by key. */
  ghost predicate InvocationMeans(mode: Mode, s: State, b: Batch, out: seq<Data>, s': State) {
    var raised := RaiseAll(s.max, b.control);
    && (forall g, k ::
          && Lane(out, g, k) == (if g in raised && k <= raised[g] then Held(s.buffers, g, k) else [])
                                + (if Passes(mode, raised, b.data, g, k) then Lane(b.data, g, k) else [])
          && Held(s'.buffers, g, k) == (if g in raised && k <= raised[g] then [] else Held(s.buffers, g, k))
                                       + (if Passes(mode, raised, b.data, g, k) then [] else Lane(b.data, g, k)))
    && forall g ::
         && (g in raised ==> g in s'.max && s'.max[g] == raised[g])
         && (g in s'.max <==> g in raised || (mode.dataFirst && exists i :: FirstAt(b.data, i, g)))
         && (g !in raised && mode.dataFirst ==> forall i :: FirstAt(b.data, i, g) ==> s'.max[g] == b.data[i].key)
  }

  lemma InvocationIs(mode: Mode, s: State, b: Batch, out: seq<Data>, s': State)
    requires Invocation(mode, s, b, out, s')
    ensures InvocationMeans(mode, s, b, out, s')
  {
    hide Lane, Held, Consume, Passes, RaiseAll;
    var raised := RaiseAll(s.max, b.control);
    var phase := Consume(mode, raised, b.data);
    forall g, k
      ensures Lane(out, g, k) == (if g in raised && k <= raised[g] then Held(s.buffers, g, k) else [])
                                 + (if Passes(mode, raised, b.data, g, k) then Lane(b.data, g, k) else [])
      ensures Held(s'.buffers, g, k) == (if g in raised && k <= raised[g] then [] else Held(s.buffers, g, k))
                                        + (if Passes(mode, raised, b.data, g, k) then [] else Lane(b.data, g, k))
    {
      WhoPasses(mode, raised, b.data, g, k);
      var due := Due(raised, g, k);
      assert Lane(out, g, k) == (if due then Held(s.buffers, g, k) else []) + Lane(phase.out, g, k);
      assert Held(s'.buffers, g, k) == (if due then [] else Held(s.buffers, g, k)) + Lane(phase.held, g, k);
    }
    forall g
      ensures g in raised ==> g in s'.max && s'.max[g] == raised[g]
      ensures g in s'.max <==> g in raised || (mode.dataFirst && exists i :: FirstAt(b.data, i, g))
      ensures g !in raised && mode.dataFirst ==> forall i :: FirstAt(b.data, i, g) ==> s'.max[g] == b.data[i].key
    {
      SeededByFirst(mode, raised, b.data, g);
    }
  }

  /** One invocation in one lane, in terms of the thresholds it ends with. */
  lemma InvocationLane(mode: Mode, s: State, b: Batch, out: seq<Data>, s': State, g: Group, k: int)
    requires Invocation(mode, s, b, out, s')
    requires HeldIsClosed(mode, s)
    ensures g in s.max ==> g in s'.max && s.max[g] <= s'.max[g]
    ensures Open(mode, s'.max, g, k) ==>
              Lane(out, g, k) == Held(s.buffers, g, k) + Lane(b.data, g, k) && Held(s'.buffers, g, k) == []
    ensures !Open(mode, s'.max, g, k) ==>
              Lane(out, g, k) == [] && Held(s'.buffers, g, k) == Held(s.buffers, g, k) + Lane(b.data, g, k)
    ensures Held(s'.buffers, g, k) != [] && mode.dataFirst ==> g in s'.max
  {
    var raised := RaiseAll(s.max, b.control);
    RaiseAllMonotone(s.max, b.control);
    LanePassesOrIsHeld(mode, raised, b.data, g, k);
    var due := Due(raised, g, k);
    var p := Consume(mode, raised, b.data);
    assert Lane(out, g, k) == (if due then Held(s.buffers, g, k) else []) + Lane(p.out, g, k);
    assert Held(s'.buffers, g, k) == (if due then [] else Held(s.buffers, g, k)) + Lane(p.held, g, k);
    assert Held(s.buffers, g, k) != [] ==> !Open(mode, s.max, g, k) && (mode.dataFirst ==> g in s.max);
  }

  /** The lane invariant of a run: what has come in is what has gone out followed
      by what is still held, and only open lanes have let anything out. */
  ghost predicate LaneInvariant(mode: Mode, data: seq<Data>, out: seq<Data>, s: State, g: Group, k: int) {
    && Lane(data, g, k) == Lane(out, g, k) + Held(s.buffers, g, k)
    && (Held(s.buffers, g, k) != [] ==> !Open(mode, s.max, g, k) && (mode.dataFirst ==> g in s.max))
    && (!mode.dataFirst && !mode.useStart && Lane(out, g, k) != [] ==> Open(mode, s.max, g, k))
  }

  lemma LaneInvariantStep(mode: Mode, data: seq<Data>, sofar: seq<Data>, before: State,
                          b: Batch, last: seq<Data>, s: State, g: Group, k: int)
    requires HeldIsClosed(mode, before)
    requires Invocation(mode, before, b, last, s)
    requires LaneInvariant(mode, data, sofar, before, g, k)
    ensures LaneInvariant(mode, data + b.data, sofar + last, s, g, k)
  {
    InvocationLane(mode, before, b, last, s, g, k);
    LaneConcat(sofar, last, g, k);
    LaneConcat(data, b.data, g, k);
    hide Lane, Invocation, HeldIsClosed;
    Regroup(Lane(sofar, g, k), Held(before.buffers, g, k), Lane(b.data, g, k));
  }

  lemma Regroup(out: seq<Data>, held: seq<Data>, more: seq<Data>)
    ensures out + held + more == out + (held + more) + []
    ensures out + held + more == out + [] + (held + more)
  {
  }

  lemma {:induction false} RunLane(mode: Mode, batches: seq<Batch>, out: seq<Data>, s: State, g: Group, k: int)
    requires Run(mode, batches, out, s)
    ensures LaneInvariant(mode, AllData(batches), out, s, g, k)
    decreases |batches|, 0
  {
    if batches != [] {
      var n := |batches| - 1;
      var before, sofar, last :|
        && Run(mode, batches[..n], sofar, before)
        && Invocation(mode, before, batches[n], last, s)
        && out == sofar + last;
      RunHeldIsClosed(mode, batches[..n], sofar, before);
      RunLane(mode, batches[..n], sofar, before, g, k);
      LaneInvariantStep(mode, AllData(batches[..n]), sofar, before, batches[n], last, s, g, k);
    }
  }

  lemma RunHeldIsClosed(mode: Mode, batches: seq<Batch>, out: seq<Data>, s: State)
    requires Run(mode, batches, out, s)
    ensures HeldIsClosed(mode, s)
    decreases |batches|, 1
  {
    forall g, k
      ensures Held(s.buffers, g, k) != [] ==> !Open(mode, s.max, g, k) && (mode.dataFirst ==> g in s.max)
    {
      RunLane(mode, batches, out, s, g, k);
    }
  }

  /** Conservation and first-in-first-out, in every mode and over every run: the
      consumed tuples of a lane are, in arrival order, the emitted ones followed by
      the held ones; a held tuple of a group with a threshold has a larger key. */
  lemma ConservationAndFifo(mode: Mode, batches: seq<Batch>, out: seq<Data>, s: State)
    requires Run(mode, batches, out, s)
    ensures forall g, k :: Lane(AllData(batches), g, k) == Lane(out, g, k) + Held(s.buffers, g, k)
    ensures forall g, k :: Held(s.buffers, g, k) != [] && g in s.max ==> s.max[g] < k
  {
    forall g, k
      ensures Lane(AllData(batches), g, k) == Lane(out, g, k) + Held(s.buffers, g, k)
      ensures Held(s.buffers, g, k) != [] && g in s.max ==> s.max[g] < k
    {
      RunLane(mode, batches, out, s, g, k);
    }
  }

  /** One more invocation never lowers a threshold. */
  lemma ThresholdsNeverFall(mode: Mode, s: State, b: Batch, out: seq<Data>, s': State)
    requires Invocation(mode, s, b, out, s')
    ensures NeverBelow(s.max, s'.max)
  {
    var raised := RaiseAll(s.max, b.control);
    RaiseAllMonotone(s.max, b.control);
    forall g
      ensures g in raised ==> g in s'.max && s'.max[g] == raised[g]
    {
      LanePassesOrIsHeld(mode, raised, b.data, g, 0);
    }
  }

  /** Without data-as-first mode the thresholds are those of the control stream. */
  lemma {:induction false} RunThresholds(mode: Mode, batches: seq<Batch>, out: seq<Data>, s: State)
    requires !mode.dataFirst
    requires Run(mode, batches, out, s)
    ensures s.max == RaiseAll(map[], AllControl(batches))
    decreases |batches|
  {
    if batches != [] {
      var n := |batches| - 1;
      var before, sofar, last :|
        && Run(mode, batches[..n], sofar, before)
        && Invocation(mode, before, batches[n], last, s)
        && out == sofar + last;
      RunThresholds(mode, batches[..n], sofar, before);
      RaiseAllConcat(map[], AllControl(batches[..n]), batches[n].control);
      LanePassesOrIsHeld(mode, RaiseAll(before.max, batches[n].control), batches[n].data, "", 0);
    }
  }

  /** The tuples of data whose key is at most the threshold of their group. */
  function AtMost(max: Thresholds, data: seq<Data>): seq<Data> {
    if data == [] then []
    else
      var d, before := data[|data| - 1], AtMost(max, data[..|data| - 1]);
      if Due(max, d.group, d.key) then before + [d] else before
  }

  lemma {:induction false} AtMostLane(max: Thresholds, data: seq<Data>, g: Group, k: int)
    ensures Lane(AtMost(max, data), g, k) == if Due(max, g, k) then Lane(data, g, k) else []
  {
    if data != [] {
      var n := |data| - 1;
      var d := data[n];
      AtMostLane(max, data[..n], g, k);
      LaneAppend(AtMost(max, data[..n]), d, g, k);
    }
  }

  /** With neither mode set, what a run emits is exactly the data whose key is at
      most the largest control key of its group, wherever the batches were cut. */
  lemma EmittedIsDataUpToThreshold(mode: Mode, batches: seq<Batch>, out: seq<Data>, s: State)
    requires !mode.dataFirst && !mode.useStart
    requires Run(mode, batches, out, s)
    ensures var due := AtMost(RaiseAll(map[], AllControl(batches)), AllData(batches));
            && (forall g, k :: Lane(out, g, k) == Lane(due, g, k))
            && multiset(out) == multiset(due)
  {
    RunThresholds(mode, batches, out, s);
    var due := AtMost(s.max, AllData(batches));
    forall g, k
      ensures Lane(out, g, k) == Lane(due, g, k)
    {
      RunLane(mode, batches, out, s, g, k);
      AtMostLane(s.max, AllData(batches), g, k);
    }
    LanesDetermineMultiset(out, due);
  }

  /** However the same two inputs are cut into invocations, the same tuples come
      out, each lane in the same order. */
  lemma SchedulingIndependence(mode: Mode, batches: seq<Batch>, out: seq<Data>, s: State,
                               batches': seq<Batch>, out': seq<Data>, s': State)
    requires !mode.dataFirst && !mode.useStart
    requires AllControl(batches) == AllControl(batches') && AllData(batches) == AllData(batches')
    requires Run(mode, batches, out, s) && Run(mode, batches', out', s')
    ensures multiset(out) == multiset(out')
    ensures forall g, k :: Lane(out, g, k) == Lane(out', g, k)
    ensures s.max == s'.max && forall g, k :: Held(s.buffers, g, k) == Held(s'.buffers, g, k)
  {
    EmittedIsDataUpToThreshold(mode, batches, out, s);
    EmittedIsDataUpToThreshold(mode, batches', out', s');
    RunThresholds(mode, batches, out, s);
    RunThresholds(mode, batches', out', s');
    forall g, k
      ensures Held(s.buffers, g, k) == Held(s'.buffers, g, k)
    {
      RunLane(mode, batches, out, s, g, k);
      RunLane(mode, batches', out', s', g, k);
      var o := Lane(out, g, k);
      assert Held(s.buffers, g, k) == Lane(AllData(batches), g, k)[|o|..];
      assert Held(s'.buffers, g, k) == Lane(AllData(batches), g, k)[|o|..];
    }
  }

  // ----- the flat list per group

  type FlatBuffers = map<Group, seq<Data>>
  datatype FlatState = FlatState(max: Thresholds, buffers: FlatBuffers)

  function FlatHeld(buffers: FlatBuffers, g: Group): seq<Data> {
    if g in buffers then buffers[g] else []
  }

  /** Erase from one group's list what is due, in list order. */
  function FlatDue(max: Thresholds, list: seq<Data>): seq<Data> {
    AtMost(max, list)
  }

  function FlatKept(max: Thresholds, list: seq<Data>): seq<Data> {
    if list == [] then []
    else
      var d, before := list[|list| - 1], FlatKept(max, list[..|list| - 1]);
      if Due(max, d.group, d.key) then before else before + [d]
  }

  /** Release the groups in the order given. */
  function FlatRelease(max: Thresholds, groups: seq<Group>, buffers: FlatBuffers): (seq<Data>, FlatBuffers) {
    if groups == [] then ([], buffers)
    else
      var n := |groups| - 1;
      var (out, b) := FlatRelease(max, groups[..n], buffers);
      var list := FlatHeld(b, groups[n]);
      (out + FlatDue(max, list), b[groups[n] := FlatKept(max, list)])
  }

  function FlatStore(buffers: FlatBuffers, held: seq<Data>): FlatBuffers {
    if held == [] then buffers
    else
      var d := held[|held| - 1];
      var b := FlatStore(buffers, held[..|held| - 1]);
      b[d.group := FlatHeld(b, d.group) + [d]]
  }

  /** The invocation of the flat form, walking the groups in the order given. */
  function FlatInvocation(mode: Mode, s: FlatState, b: Batch, groups: seq<Group>): (seq<Data>, FlatState) {
    var raised := RaiseAll(s.max, b.control);
    var (out, kept) := FlatRelease(raised, groups, s.buffers);
    var p := Consume(mode, raised, b.data);
    (out + p.out, FlatState(p.max, FlatStore(kept, p.held)))
  }

  /** groups lists the keys of max, each once. */
  ghost predicate Walks(groups: seq<Group>, max: Thresholds) {
    && (forall g :: g in groups <==> g in max)
    && forall i, j :: 0 <= i < j < |groups| ==> groups[i] != groups[j]
  }

  ghost predicate ByGroup(buffers: FlatBuffers) {
    forall g, d :: d in FlatHeld(buffers, g) ==> d.group == g
  }

  /** The nested hash maps hold what the flat lists hold, lane by lane. */
  ghost predicate Simulates(s: State, f: FlatState) {
    && s.max == f.max
    && ByGroup(f.buffers)
    && forall g, k :: Held(s.buffers, g, k) == Lane(FlatHeld(f.buffers, g), g, k)
  }

  lemma {:induction false} FlatKeptLane(max: Thresholds, list: seq<Data>, g: Group, k: int)
    ensures Lane(FlatKept(max, list), g, k) == if Due(max, g, k) then [] else Lane(list, g, k)
    ensures forall d :: d in FlatKept(max, list) ==> d in list
  {
    if list != [] {
      var n := |list| - 1;
      var d := list[n];
      FlatKeptLane(max, list[..n], g, k);
      LaneAppend(FlatKept(max, list[..n]), d, g, k);
    }
  }

  /** A release keeps every list within its group and leaves the groups not walked. */
  lemma {:induction false} FlatReleaseGroups(max: Thresholds, groups: seq<Group>, buffers: FlatBuffers, g: Group)
    requires ByGroup(buffers)
    ensures var (_, b) := FlatRelease(max, groups, buffers);
            ByGroup(b) && (g !in groups ==> FlatHeld(b, g) == FlatHeld(buffers, g))
  {
    if groups != [] {
      var n := |groups| - 1;
      FlatReleaseGroups(max, groups[..n], buffers, g);
      var (_, b) := FlatRelease(max, groups[..n], buffers);
      var (_, b') := FlatRelease(max, groups, buffers);
      var h := groups[n];
      FlatKeptLane(max, FlatHeld(b, h), g, 0);
      assert b' == b[h := FlatKept(max, FlatHeld(b, h))];
      assert g !in groups ==> g !in groups[..n] && g != h;
      hide FlatRelease, FlatKept;
      forall g', d | d in FlatHeld(b', g')
        ensures d.group == g'
      {
        assert g' != h ==> FlatHeld(b', g') == FlatHeld(b, g');
      }
    }
  }

  lemma {:induction false} FlatReleaseLane(max: Thresholds, groups: seq<Group>, buffers: FlatBuffers, g: Group, k: int)
    requires ByGroup(buffers)
    requires forall i, j :: 0 <= i < j < |groups| ==> groups[i] != groups[j]
    ensures var (out, b) := FlatRelease(max, groups, buffers);
            var gone := g in groups && Due(max, g, k);
            && Lane(out, g, k) == (if gone then Lane(FlatHeld(buffers, g), g, k) else [])
            && Lane(FlatHeld(b, g), g, k) == (if gone then [] else Lane(FlatHeld(buffers, g), g, k))
  {
    if groups != [] {
      var n := |groups| - 1;
      var h := groups[n];
      assert groups == groups[..n] + [h];
      FlatReleaseLane(max, groups[..n], buffers, g, k);
      FlatReleaseGroups(max, groups[..n], buffers, h);
      var (out, b) := FlatRelease(max, groups[..n], buffers);
      var list := FlatHeld(buffers, h);
      LaneConcat(out, FlatDue(max, list), g, k);
      AtMostLane(max, list, g, k);
      FlatKeptLane(max, list, g, k);
      if g != h {
        LaneElsewhere(list, h, g, k);
      }
      var (out', b') := FlatRelease(max, groups, buffers);
      assert out' == out + FlatDue(max, list) && b' == b[h := FlatKept(max, list)];
    }
  }

  lemma {:induction false} LaneElsewhere(list: seq<Data>, h: Group, g: Group, k: int)
    requires h != g
    requires forall d :: d in list ==> d.group == h
    ensures Lane(list, g, k) == []
  {
    if list != [] {
      LaneElsewhere(list[..|list| - 1], h, g, k);
    }
  }

  lemma {:induction false} FlatStoreByGroup(buffers: FlatBuffers, held: seq<Data>)
    requires ByGroup(buffers)
    ensures ByGroup(FlatStore(buffers, held))
  {
    if held != [] {
      var d, b := held[|held| - 1], FlatStore(buffers, held[..|held| - 1]);
      FlatStoreByGroup(buffers, held[..|held| - 1]);
      var b' := FlatStore(buffers, held);
      assert b' == b[d.group := FlatHeld(b, d.group) + [d]];
      forall g, e | e in FlatHeld(b', g)
        ensures e.group == g
      {
        assert g != d.group ==> FlatHeld(b', g) == FlatHeld(b, g);
      }
    }
  }

  lemma {:induction false} FlatStoreLane(buffers: FlatBuffers, held: seq<Data>, g: Group, k: int)
    ensures Lane(FlatHeld(FlatStore(buffers, held), g), g, k) == Lane(FlatHeld(buffers, g), g, k) + Lane(held, g, k)
  {
    if held != [] {
      var n := |held| - 1;
      FlatStoreLane(buffers, held[..n], g, k);
      LaneAppend(FlatHeld(FlatStore(buffers, held[..n]), g), held[n], g, k);
    }
  }

  /** The hash of lists refines the flat list: from related states the same batch
      emits the same tuples, each lane in the same order, and leaves related
      states, whatever order either form walks its hash maps in. */
  lemma HashRefinesFlat(mode: Mode, s: State, f: FlatState, b: Batch, groups: seq<Group>, out: seq<Data>, s': State)
    requires Simulates(s, f)
    requires Walks(groups, RaiseAll(s.max, b.control))
    requires Invocation(mode, s, b, out, s')
    ensures var (flatOut, f') := FlatInvocation(mode, f, b, groups);
            && Simulates(s', f')
            && (forall g, k :: Lane(out, g, k) == Lane(flatOut, g, k))
            && multiset(out) == multiset(flatOut)
  {
    var raised := RaiseAll(s.max, b.control);
    var p := Consume(mode, raised, b.data);
    var (released, kept) := FlatRelease(raised, groups, f.buffers);
    var (flatOut, f') := FlatInvocation(mode, f, b, groups);
    FlatReleaseGroups(raised, groups, f.buffers, "");
    FlatStoreByGroup(kept, p.held);
    forall g, k
      ensures Lane(out, g, k) == Lane(flatOut, g, k)
      ensures Held(s'.buffers, g, k) == Lane(FlatHeld(f'.buffers, g), g, k)
    {
      FlatReleaseLane(raised, groups, f.buffers, g, k);
      LaneConcat(released, p.out, g, k);
      FlatStoreLane(kept, p.held, g, k);
      var due := Due(raised, g, k);
      assert Lane(out, g, k) == (if due then Held(s.buffers, g, k) else []) + Lane(p.out, g, k);
      assert Held(s'.buffers, g, k) == (if due then [] else Held(s.buffers, g, k)) + Lane(p.held, g, k);
    }
    LanesDetermineMultiset(out, flatOut);
  }
}
