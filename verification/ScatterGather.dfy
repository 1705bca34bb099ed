/**
  Scatter sends the two halves of each frame to two workers; gather joins what comes
  back from them. Arrays only: the slice, id and chunk fields are not kept.
*/
module ScatterGather {
  import opened Basics

  const CLONE_SIZE: nat := 160

  /** A fake tuple is passed to the first worker as it is. */
  datatype Frame = Frame(fake: bool, cells: Bytes)

  ghost predicate ValidFrames(frames: seq<Frame>) {
    forall f :: f in frames ==> |f.cells| == 2 * CLONE_SIZE
  }

  // ----- scatter

  /** The copy for one output: the first half, or for any other output the second. */
  function HalveArray(cells: Bytes, out: nat): Bytes
    requires |cells| == 2 * CLONE_SIZE
  {
    if out == 0 then cells[..CLONE_SIZE] else cells[CLONE_SIZE..2 * CLONE_SIZE]
  }

  /** What a frame sends to the first output, and to the second. */
  function FirstPart(f: Frame): Bytes
    requires |f.cells| == 2 * CLONE_SIZE
  {
    if f.fake then f.cells else HalveArray(f.cells, 0)
  }

  function SecondPart(f: Frame): seq<Bytes>
    requires |f.cells| == 2 * CLONE_SIZE
  {
    if f.fake then [] else [HalveArray(f.cells, 1)]
  }

  function ToFirst(frames: seq<Frame>): seq<Bytes>
    requires ValidFrames(frames)
  {
    if frames == [] then []
    else ToFirst(frames[..|frames| - 1]) + [FirstPart(frames[|frames| - 1])]
  }

  function ToSecond(frames: seq<Frame>): seq<Bytes>
    requires ValidFrames(frames)
  {
    if frames == [] then []
    else ToSecond(frames[..|frames| - 1]) + SecondPart(frames[|frames| - 1])
  }

  class ScatterBox {
    var seqNo: nat

    constructor ()
      ensures seqNo == 0
    {
      seqNo := 0;
    }

    method Run(frames: seq<Frame>) returns (first: seq<Bytes>, second: seq<Bytes>)
      requires ValidFrames(frames)
      modifies this
      ensures first == ToFirst(frames) && second == ToSecond(frames)
      ensures seqNo == old(seqNo) + 1
    {
      first, second := [], [];
      var i := 0;
      while i < |frames|
        invariant 0 <= i <= |frames| && seqNo == old(seqNo)
        invariant first == ToFirst(frames[..i]) && second == ToSecond(frames[..i])
      {
        assert frames[..i + 1][..i] == frames[..i];
        var data := frames[i];
        if data.fake {
          first := first + [data.cells];
        } else {
          first := first + [HalveArray(data.cells, 0)];
          second := second + [HalveArray(data.cells, 1)];
        }
        i := i + 1;
      }
      assert frames[..i] == frames;
      seqNo := seqNo + 1;
    }
  }

  /** How many of the frames are not fake. */
  function Real(frames: seq<Frame>): nat {
    if frames == [] then 0 else Real(frames[..|frames| - 1]) + if frames[|frames| - 1].fake then 0 else 1
  }

  /** The first worker gets something of every frame in order: the first 160 bytes, or all
      of a fake one; the second gets the other 160 bytes of those that are not fake. */
  lemma {:induction false} ScatterIs(frames: seq<Frame>, i: nat)
    requires ValidFrames(frames) && i < |frames|
    ensures |ToFirst(frames)| == |frames| && |frames[i].cells| == 320 && Real(frames[..i]) <= |ToSecond(frames)| == Real(frames)
    ensures ToFirst(frames)[i] == if frames[i].fake then frames[i].cells else frames[i].cells[..160]
    ensures !frames[i].fake ==> Real(frames[..i]) < Real(frames) && ToSecond(frames)[Real(frames[..i])] == frames[i].cells[160..]
  {
    var n := |frames| - 1;
    assert frames[i] in frames;
    if i < n {
      ScatterIs(frames[..n], i);
      assert frames[..n][..i] == frames[..i];
    } else if n > 0 {
      ScatterIs(frames[..n], n - 1);
    }
  }

  // ----- gather

  function Min(a: nat, b: nat): nat {
    if a < b then a else b
  }

  function Join(l: Bytes, r: Bytes): Bytes
    requires |l| >= CLONE_SIZE && |r| >= CLONE_SIZE
  {
    l[..CLONE_SIZE] + r[..CLONE_SIZE]
  }

  /** Each array holds at least one half. */
  ghost predicate Halves(arrays: seq<Bytes>) {
    forall i :: 0 <= i < |arrays| ==> |arrays[i]| >= CLONE_SIZE
  }

  /** The arrays of the two streams joined in pairs, as far as both go. */
  function Pairs(l: seq<Bytes>, r: seq<Bytes>): (out: seq<Bytes>)
    requires Halves(l) && Halves(r)
    ensures |out| == Min(|l|, |r|)
    ensures forall i :: 0 <= i < |out| ==> out[i] == Join(l[i], r[i])
  {
    seq(Min(|l|, |r|), i requires 0 <= i < Min(|l|, |r|) => Join(l[i], r[i]))
  }

  function Fronts(arrays: seq<Bytes>): (r: seq<Bytes>)
    requires Halves(arrays)
    ensures |r| == |arrays| && forall i :: 0 <= i < |r| ==> r[i] == arrays[i][..CLONE_SIZE]
  {
    seq(|arrays|, i requires 0 <= i < |arrays| => arrays[i][..CLONE_SIZE])
  }

  lemma FrontsMore(arrays: seq<Bytes>, cells: Bytes, n: nat)
    requires Halves(arrays) && |cells| >= CLONE_SIZE && n <= |arrays|
    ensures Halves(arrays + [cells])
    ensures Fronts(arrays + [cells])[n..] == Fronts(arrays)[n..] + [cells[..CLONE_SIZE]]
  {
  }

  /** The queues hold what one stream is ahead of the other; so one is empty. */
  ghost predicate Balanced(left: seq<Bytes>, right: seq<Bytes>, sent: seq<Bytes>, lhs: seq<Bytes>, rhs: seq<Bytes>) {
    && Halves(left) && Halves(right)
    && sent == Pairs(left, right)
    && lhs == Fronts(left)[|sent|..] && rhs == Fronts(right)[|sent|..]
  }

  lemma FirstPushed(left: seq<Bytes>, right: seq<Bytes>, sent: seq<Bytes>, lhs: seq<Bytes>, rhs: seq<Bytes>, cells: Bytes)
    requires Balanced(left, right, sent, lhs, rhs) && |cells| >= CLONE_SIZE
    ensures rhs == [] ==> Balanced(left + [cells], right, sent, lhs + [cells[..CLONE_SIZE]], rhs)
    ensures rhs != [] ==> lhs == [] && Balanced(left + [cells], right, sent + [cells[..CLONE_SIZE] + rhs[0]], [], rhs[1..])
  {
    FrontsMore(left, cells, |sent|);
    if rhs == [] {
      assert Pairs(left + [cells], right) == sent;
    } else {
      assert Pairs(left + [cells], right) == sent + [cells[..CLONE_SIZE] + rhs[0]];
    }
  }

  lemma SecondPushed(left: seq<Bytes>, right: seq<Bytes>, sent: seq<Bytes>, lhs: seq<Bytes>, rhs: seq<Bytes>, cells: Bytes)
    requires Balanced(left, right, sent, lhs, rhs) && |cells| >= CLONE_SIZE
    ensures lhs == [] ==> Balanced(left, right + [cells], sent, lhs, rhs + [cells[..CLONE_SIZE]])
    ensures lhs != [] ==> rhs == [] && Balanced(left, right + [cells], sent + [lhs[0] + cells[..CLONE_SIZE]], lhs[1..], [])
  {
    FrontsMore(right, cells, |sent|);
    if lhs == [] {
      assert Pairs(left, right + [cells]) == sent;
    } else {
      assert Pairs(left, right + [cells]) == sent + [lhs[0] + cells[..CLONE_SIZE]];
    }
  }

  lemma Regroup(a: seq<Bytes>, b: seq<Bytes>, c: Bytes)
    ensures a + (b + [c]) == (a + b) + [c]
  {
  }

  lemma RegroupAll(a: seq<Bytes>, b: seq<Bytes>, c: seq<Bytes>)
    ensures a + b + c == a + (b + c)
  {
  }

  class GatherBox {
    var lhs: seq<Bytes>
    var rhs: seq<Bytes>
    var output: Bytes
    // Everything taken from the two streams and put out since the start.
    ghost var left: seq<Bytes>
    ghost var right: seq<Bytes>
    ghost var sent: seq<Bytes>

    ghost predicate Valid()
      reads this
    {
      Balanced(left, right, sent, lhs, rhs)
    }

    constructor ()
      ensures Valid() && left == [] && right == [] && sent == []
    {
      lhs, rhs, output, left, right, sent := [], [], [], [], [], [];
    }

    lemma OneQueueEmpty()
      requires Valid()
      ensures lhs == [] || rhs == []
    {
    }

    /** Takes one array; says whether output holds a joined one. */
    method ProcessInputTuple(cells: Bytes, input: nat) returns (outputted: bool)
      requires Valid() && |cells| >= CLONE_SIZE
      modifies this
      ensures Valid()
      ensures left == if input == 0 then old(left) + [cells] else old(left)
      ensures right == if input == 0 then old(right) else old(right) + [cells]
      ensures sent == if outputted then old(sent) + [output] else old(sent)
    {
      OneQueueEmpty();
      hide Balanced;
      if input != 0 {
        SecondPushed(left, right, sent, lhs, rhs, cells);
        rhs, right := rhs + [cells[..CLONE_SIZE]], right + [cells];
      } else {
        FirstPushed(left, right, sent, lhs, rhs, cells);
        lhs, left := lhs + [cells[..CLONE_SIZE]], left + [cells];
      }
      outputted := lhs != [] && rhs != [];
      if outputted {
        output := lhs[0] + rhs[0];
        lhs, rhs, sent := lhs[1..], rhs[1..], sent + [output];
      }
    }

    /** All there is on one stream. */
    method Drain(tuples: seq<Bytes>, input: nat) returns (out: seq<Bytes>)
      requires Valid() && Halves(tuples)
      modifies this
      ensures Valid() && sent == old(sent) + out
      ensures left == if input == 0 then old(left) + tuples else old(left)
      ensures right == if input == 0 then old(right) else old(right) + tuples
    {
      hide Halves, Pairs, Fronts, Valid;
      out := [];
      var i := 0;
      while i < |tuples|
        invariant 0 <= i <= |tuples| && Valid() && sent == old(sent) + out
        invariant left == if input == 0 then old(left) + tuples[..i] else old(left)
        invariant right == if input == 0 then old(right) else old(right) + tuples[..i]
      {
        Shape(tuples, i);
        var outputted := ProcessInputTuple(tuples[i], input);
        if outputted {
          Regroup(old(sent), out, output);
          out := out + [output];
        }
        i := i + 1;
      }
      assert tuples[..i] == tuples;
    }

    /** One invocation: the first stream, then the second. */
    method Run(first: seq<Bytes>, second: seq<Bytes>) returns (out: seq<Bytes>)
      requires Valid() && Halves(first) && Halves(second)
      modifies this
      ensures Valid() && left == old(left) + first && right == old(right) + second
      ensures sent == old(sent) + out
    {
      hide Valid, Halves;
      out := Drain(first, 0);
      var more := Drain(second, 1);
      RegroupAll(old(sent), out, more);
      out := out + more;
    }
  }

  lemma Shape(tuples: seq<Bytes>, i: nat)
    requires Halves(tuples) && i < |tuples|
    ensures |tuples[i]| >= CLONE_SIZE
    ensures forall before: seq<Bytes> :: before + tuples[..i + 1] == before + tuples[..i] + [tuples[i]]
  {
    forall before: seq<Bytes>
      ensures before + tuples[..i + 1] == before + tuples[..i] + [tuples[i]]
    {
      assert tuples[..i + 1] == tuples[..i] + [tuples[i]];
    }
  }

  // ----- scatter, then gather

  ghost predicate NoFakes(frames: seq<Frame>) {
    forall f :: f in frames ==> !f.fake
  }

  function Arrays(frames: seq<Frame>): (r: seq<Bytes>)
    ensures |r| == |frames| && forall i :: 0 <= i < |r| ==> r[i] == frames[i].cells
  {
    seq(|frames|, i requires 0 <= i < |frames| => frames[i].cells)
  }

  lemma {:induction false} Scattered(frames: seq<Frame>)
    requires ValidFrames(frames)
    ensures |ToFirst(frames)| == |frames| && Halves(ToFirst(frames)) && Halves(ToSecond(frames))
    ensures |ToSecond(frames)| <= |frames| && (|ToSecond(frames)| == |frames| <==> NoFakes(frames))
  {
    if frames != [] {
      var n := |frames| - 1;
      Scattered(frames[..n]);
      LastFake(frames);
      assert frames[n] in frames;
    }
  }

  lemma LastFake(frames: seq<Frame>)
    requires frames != []
    ensures NoFakes(frames) <==> NoFakes(frames[..|frames| - 1]) && !frames[|frames| - 1].fake
  {
    assert frames == frames[..|frames| - 1] + [frames[|frames| - 1]];
  }

  lemma {:induction false} HalvesOf(frames: seq<Frame>, i: nat)
    requires ValidFrames(frames) && NoFakes(frames) && i < |frames|
    ensures |ToFirst(frames)| == |ToSecond(frames)| == |frames| && frames[i] in frames
    ensures ToFirst(frames)[i] == HalveArray(frames[i].cells, 0)
    ensures ToSecond(frames)[i] == HalveArray(frames[i].cells, 1)
  {
    var n := |frames| - 1;
    Scattered(frames);
    assert frames[n] in frames;
    if i < n {
      LastFake(frames);
      HalvesOf(frames[..n], i);
    } else {
      LastFake(frames);
      Scattered(frames[..n]);
    }
  }

  /** However far the two streams have been delivered, and in whatever turns, a gather
      box that keeps the order within each has put out exactly the first frames. */
  lemma GatherUndoesScatter(frames: seq<Frame>, l: nat, r: nat)
    requires ValidFrames(frames) && NoFakes(frames) && l <= |frames| && r <= |frames|
    ensures l <= |ToFirst(frames)| && r <= |ToSecond(frames)|
    ensures Halves(ToFirst(frames)[..l]) && Halves(ToSecond(frames)[..r])
    ensures Pairs(ToFirst(frames)[..l], ToSecond(frames)[..r]) == Arrays(frames[..Min(l, r)])
  {
    Scattered(frames);
    forall i | 0 <= i < Min(l, r)
      ensures Join(ToFirst(frames)[i], ToSecond(frames)[i]) == frames[i].cells
    {
      HalvesOf(frames, i);
      var a := frames[i].cells;
      assert a == a[..CLONE_SIZE] + a[CLONE_SIZE..2 * CLONE_SIZE];
    }
  }

  /** Once everything is delivered the frames are back exactly when none was fake: a
      fake one goes to one worker only, so there is one pair too few. */
  lemma IdentityIffNoFakes(frames: seq<Frame>)
    requires ValidFrames(frames)
    ensures Halves(ToFirst(frames)) && Halves(ToSecond(frames))
    ensures Pairs(ToFirst(frames), ToSecond(frames)) == Arrays(frames) <==> NoFakes(frames)
  {
    Scattered(frames);
    if NoFakes(frames) {
      GatherUndoesScatter(frames, |frames|, |frames|);
      assert ToFirst(frames)[..|frames|] == ToFirst(frames) && ToSecond(frames)[..|frames|] == ToSecond(frames);
      assert frames[..|frames|] == frames;
    }
  }

  // ----- the two boxes together

  /** The scatter box is invoked with frames, or the gather box with the next arrays of
      the two streams, as many as these but no more than have been sent. */
  datatype Event = Scatter(frames: seq<Frame>) | Gather(first: nat, second: nat)

  ghost predicate ValidEvents(events: seq<Event>) {
    forall e :: e in events && e.Scatter? ==> ValidFrames(e.frames)
  }

  function AllFrames(events: seq<Event>): (frames: seq<Frame>)
    requires ValidEvents(events)
    ensures ValidFrames(frames)
  {
    if events == [] then []
    else
      var n := |events| - 1;
      assert events[n] in events;
      AllFrames(events[..n]) + if events[n].Scatter? then events[n].frames else []
  }

  /** How far the gather box has got in the first stream, or in the second. */
  function Reached(events: seq<Event>, second: bool): nat
    requires ValidEvents(events)
  {
    if events == [] then 0
    else
      var n := |events| - 1;
      var before, frames := Reached(events[..n], second), AllFrames(events[..n]);
      match events[n]
      case Scatter(_) => before
      case Gather(f, s) => if second then Min(before + s, |ToSecond(frames)|) else Min(before + f, |ToFirst(frames)|)
  }

  /** What one more event adds to the frames sent and to the arrays delivered. */
  lemma OneMoreEvent(events: seq<Event>, e: Event)
    requires ValidEvents(events) && (e.Scatter? ==> ValidFrames(e.frames))
    ensures ValidEvents(events + [e])
    ensures AllFrames(events + [e]) == AllFrames(events) + if e.Scatter? then e.frames else []
    ensures e.Scatter? ==> forall second :: Reached(events + [e], second) == Reached(events, second)
    ensures e.Gather? ==>
              var l, r := |ToFirst(AllFrames(events))|, |ToSecond(AllFrames(events))|;
              && Reached(events + [e], false) == (if Reached(events, false) + e.first < l then Reached(events, false) + e.first else l)
              && Reached(events + [e], true) == (if Reached(events, true) + e.second < r then Reached(events, true) + e.second else r)
  {
    var more := events + [e];
    assert more[..|events|] == events && more[|events|] == e;
    assert forall x :: x in more <==> x in events || x == e;
  }

  lemma OneMoreFrame(frames: seq<Frame>, f: Frame)
    requires ValidFrames(frames) && |f.cells| == 2 * CLONE_SIZE
    ensures ValidFrames(frames + [f])
    ensures ToFirst(frames + [f]) == ToFirst(frames) + [FirstPart(f)]
    ensures ToSecond(frames + [f]) == ToSecond(frames) + SecondPart(f)
  {
    assert (frames + [f])[..|frames|] == frames;
  }

  lemma LastApart(a: seq<Frame>, b: seq<Frame>)
    requires b != []
    ensures var n := |b| - 1; b[..n] + [b[n]] == b && a + b[..n] + [b[n]] == a + b
  {
  }

  lemma {:induction false} ScatterMore(a: seq<Frame>, b: seq<Frame>)
    requires ValidFrames(a) && ValidFrames(b)
    ensures ValidFrames(a + b)
    ensures ToFirst(a + b) == ToFirst(a) + ToFirst(b) && ToSecond(a + b) == ToSecond(a) + ToSecond(b)
    decreases |b|
  {
    if b == [] {
      assert a + b == a;
    } else {
      var fewer, last := b[..|b| - 1], b[|b| - 1];
      ScatterMore(a, fewer);
      OneMoreFrame(a + fewer, last);
      OneMoreFrame(fewer, last);
      LastApart(a, b);
      hide ToFirst, ToSecond, FirstPart, SecondPart, ValidFrames;
      RegroupAll(ToFirst(a), ToFirst(fewer), [FirstPart(last)]);
      RegroupAll(ToSecond(a), ToSecond(fewer), SecondPart(last));
    }
  }

  /** The part of a stream that was not delivered before. */
  lemma Delivered(tuples: seq<Bytes>, before: nat, upTo: nat)
    requires before <= upTo <= |tuples| && Halves(tuples)
    ensures Halves(tuples[before..upTo]) && tuples[..before] + tuples[before..upTo] == tuples[..upTo]
  {
  }

  /** Over several invocations of both boxes, in whatever turns, gather has put out the
      pairs of what it has been given; without fake tuples these are the first frames,
      as many as both streams have brought. */
  method ScatterThenGather(events: seq<Event>) returns (out: seq<Bytes>)
    requires ValidEvents(events)
    ensures var frames, l, r := AllFrames(events), Reached(events, false), Reached(events, true);
            && l <= |ToFirst(frames)| && r <= |ToSecond(frames)|
            && Halves(ToFirst(frames)) && Halves(ToSecond(frames))
            && out == Pairs(ToFirst(frames)[..l], ToSecond(frames)[..r])
            && (NoFakes(frames) ==> Min(l, r) <= |frames| && out == Arrays(frames[..Min(l, r)]))
    ensures var frames := AllFrames(events);
            NoFakes(frames) && EndsWithAll(events, |frames|) ==> out == Arrays(frames)
  {
    hide Halves, Pairs, ToFirst, ToSecond, NoFakes, GatherBox.Valid;
    var scatter := new ScatterBox();
    var gather := new GatherBox();
    out := [];
    var first: seq<Bytes>, second: seq<Bytes> := [], [];
    var l: nat, r: nat := 0, 0;
    var i := 0;
    ghost var frames := [];
    Scattered([]);
    while i < |events|
      invariant 0 <= i <= |events| && gather.Valid() && gather.sent == out
      invariant ValidEvents(events[..i]) && frames == AllFrames(events[..i])
      invariant first == ToFirst(frames) && second == ToSecond(frames) && Halves(first) && Halves(second)
      invariant l == Reached(events[..i], false) <= |first| && r == Reached(events[..i], true) <= |second|
      invariant gather.left == first[..l] && gather.right == second[..r]
    {
      assert events[..i + 1][..i] == events[..i];
      match events[i] {
        case Scatter(more) =>
          var f, s := scatter.Run(more);
          ScatterMore(frames, more);
          frames := frames + more;
          Scattered(frames);
          first, second := first + f, second + s;
        case Gather(f, s) =>
          var l', r' := Min(l + f, |first|), Min(r + s, |second|);
          Delivered(first, l, l');
          Delivered(second, r, r');
          var joined := gather.Run(first[l..l'], second[r..r']);
          out, l, r := out + joined, l', r';
      }
      i := i + 1;
    }
    assert events[..i] == events;
    AllPaired(gather);
    if NoFakes(frames) {
      Scattered(frames);
      GatherUndoesScatter(frames, l, r);
      if EndsWithAll(events, |frames|) {
        AllReached(events);
        assert frames[..|frames|] == frames;
      }
    }
  }

  /** The last event is an invocation of the gather box with all there is, n arrays at most. */
  predicate EndsWithAll(events: seq<Event>, n: nat) {
    events != [] && events[|events| - 1].Gather? && events[|events| - 1].first >= n && events[|events| - 1].second >= n
  }

  lemma AllReached(events: seq<Event>)
    requires ValidEvents(events) && EndsWithAll(events, |AllFrames(events)|) && NoFakes(AllFrames(events))
    ensures Reached(events, false) == Reached(events, true) == |AllFrames(events)|
  {
    var n := |events| - 1;
    assert events[..n] + [events[n]] == events;
    var before, last := events[..n], events[n];
    OneMoreEvent(before, last);
    assert AllFrames(before) == AllFrames(before) + [] == AllFrames(before + [last]);
    Scattered(AllFrames(before));
    hide AllFrames, Reached, ToFirst, ToSecond, NoFakes;
    assert |ToFirst(AllFrames(before))| == |ToSecond(AllFrames(before))| == |AllFrames(before)|;
  }

  lemma AllPaired(gather: GatherBox)
    requires gather.Valid()
    ensures Halves(gather.left) && Halves(gather.right) && gather.sent == Pairs(gather.left, gather.right)
  {
  }
}
