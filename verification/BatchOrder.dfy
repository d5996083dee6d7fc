/** What batching keeps: conservation, order within each lane, barriers and priorities. */
module BatchOrder {
  import opened Bytes
  import opened Framing
  import opened RemoteState
  import opened Batcher

  // ---- lanes ----

  /** The messages of one lane, in order. */
  function InLane(ms: seq<OutboundMessage>, lane: Lane): (r: seq<OutboundMessage>)
    ensures |r| <= |ms|
  {
    if ms == [] then []
    else InLane(ms[..|ms| - 1], lane) + if LaneOf(ms[|ms| - 1]) == lane then [ms[|ms| - 1]] else []
  }

  lemma {:induction false} InLaneAppend(a: seq<OutboundMessage>, b: seq<OutboundMessage>, lane: Lane)
    ensures InLane(a + b, lane) == InLane(a, lane) + InLane(b, lane)
  {
    hide LaneOf;
    if b == [] {
      assert a + b == a;
    } else {
      assert (a + b)[..|a + b| - 1] == a + b[..|b| - 1];
      InLaneAppend(a, b[..|b| - 1], lane);
    }
  }

  lemma InLaneOne(m: OutboundMessage, lane: Lane)
    ensures InLane([m], lane) == if LaneOf(m) == lane then [m] else []
  {
    assert [m][..0] == [];
  }

  lemma {:induction false} NoneInLane(ms: seq<OutboundMessage>, lane: Lane)
    requires forall i :: 0 <= i < |ms| ==> LaneOf(ms[i]) != lane
    ensures InLane(ms, lane) == []
  {
    hide LaneOf;
    if ms == [] {
    } else {
      NoneInLane(ms[..|ms| - 1], lane);
    }
  }

  /** Every message belongs in this buffer, and no lane is held twice. */
  predicate Buffer(pending: seq<OutboundMessage>, group: Group) {
    && (forall i :: 0 <= i < |pending| ==> GroupOf(LaneOf(pending[i])) == group)
    && (forall i, j :: 0 <= i < j < |pending| ==> LaneOf(pending[i]) != LaneOf(pending[j]))
  }

  predicate Tidy(p: Pending) {
    && Buffer(p.control, ControlGroup) && Buffer(p.focused, FocusedGroup)
    && Buffer(p.screen, ScreenGroup) && Buffer(p.passive, PassiveGroup)
  }

  lemma {:induction false} PutBuffer(pending: seq<OutboundMessage>, m: OutboundMessage, group: Group)
    requires Buffer(pending, group) && GroupOf(LaneOf(m)) == group
    ensures Buffer(Put(pending, m), group)
  {
    hide LaneOf, Holds, Buffer;
    if pending == [] {
      OneBuffer(m, group);
    } else if LaneOf(pending[0]) == LaneOf(m) {
      HeadBuffer(pending, m, group);
    } else {
      var rest := Put(pending[1..], m);
      TailBuffer(pending, group);
      PutBuffer(pending[1..], m, group);
      forall i | 0 <= i < |rest| ensures LaneOf(rest[i]) != LaneOf(pending[0]) {
        PutLanes(pending[1..], m, i);
      }
      ConsBuffer(pending[0], rest, group);
    }
  }

  lemma OneBuffer(m: OutboundMessage, group: Group)
    requires GroupOf(LaneOf(m)) == group
    ensures Buffer([m], group)
  {
  }

  lemma HeadBuffer(pending: seq<OutboundMessage>, m: OutboundMessage, group: Group)
    requires Buffer(pending, group) && pending != [] && LaneOf(pending[0]) == LaneOf(m)
    ensures Buffer([m] + pending[1..], group)
  {
    hide LaneOf, GroupOf;
    var next := [m] + pending[1..];
    assert |next| == |pending| && forall i :: 0 <= i < |next| ==> LaneOf(next[i]) == LaneOf(pending[i]);
  }

  lemma TailBuffer(pending: seq<OutboundMessage>, group: Group)
    requires Buffer(pending, group) && pending != []
    ensures Buffer(pending[1..], group) && GroupOf(LaneOf(pending[0])) == group
    ensures forall i :: 0 <= i < |pending| - 1 ==> LaneOf(pending[1..][i]) != LaneOf(pending[0])
  {
    hide LaneOf, GroupOf;
  }

  lemma ConsBuffer(m: OutboundMessage, rest: seq<OutboundMessage>, group: Group)
    requires Buffer(rest, group) && GroupOf(LaneOf(m)) == group
    requires forall i :: 0 <= i < |rest| ==> LaneOf(rest[i]) != LaneOf(m)
    ensures Buffer([m] + rest, group)
  {
    hide LaneOf, GroupOf;
  }

  /** A message put in brings no lane but its own. */
  lemma {:induction false} PutLanes(pending: seq<OutboundMessage>, m: OutboundMessage, i: nat)
    requires i < |Put(pending, m)|
    ensures LaneOf(Put(pending, m)[i]) == LaneOf(m)
            || exists k :: 0 <= k < |pending| && LaneOf(pending[k]) == LaneOf(Put(pending, m)[i])
  {
    hide LaneOf, Holds;
    if pending != [] && LaneOf(pending[0]) != LaneOf(m) && i > 0 {
      PutLanes(pending[1..], m, i - 1);
      if LaneOf(Put(pending, m)[i]) != LaneOf(m) {
        var k :| 0 <= k < |pending[1..]| && LaneOf(pending[1..][k]) == LaneOf(Put(pending, m)[i]);
        assert pending[k + 1] == pending[1..][k];
      }
    } else if pending != [] && i < |pending| {
      assert Put(pending, m)[i] == m || Put(pending, m)[i] == pending[i];
    }
  }

  lemma PushTidy(p: Pending, m: OutboundMessage, coalesce: bool)
    requires Tidy(p)
    ensures Tidy(Push(p, m, coalesce))
  {
    hide PriorityFrame, CoalescibleKind, Put;
    if m.Frame? && LaneOf(m).ControlLane? {
      PutBuffer(p.control, m, ControlGroup);
    } else if m.PaneUpdate? {
      if m.focused {
        PutBuffer(p.focused, m, FocusedGroup);
      } else {
        PutBuffer(p.passive, m, PassiveGroup);
      }
    }
  }

  lemma {:induction false} PushAllTidy(ms: seq<OutboundMessage>, coalesce: bool)
    ensures Tidy(PushAll(NOTHING, ms, coalesce))
  {
    hide Push, Tidy;
    if ms == [] {
      assert Tidy(NOTHING) by { NothingTidy(); }
    } else {
      PushAllTidy(ms[..|ms| - 1], coalesce);
      PushTidy(PushAll(NOTHING, ms[..|ms| - 1], coalesce), ms[|ms| - 1], coalesce);
    }
  }

  lemma NothingTidy()
    ensures Tidy(NOTHING)
  {
  }

  // ---- thinning ----

  /** `s` without its last element, if it has one. */
  function DropLast<T>(s: seq<T>): seq<T> {
    if s == [] then [] else s[..|s| - 1]
  }

  /** `o` is a subsequence of `i`. */
  predicate Subsequence<T(==)>(o: seq<T>, i: seq<T>) {
    o == [] || (i != [] && (if o[|o| - 1] == i[|i| - 1] then Subsequence(DropLast(o), DropLast(i))
                            else Subsequence(o, DropLast(i))))
  }

  lemma {:induction false} SubsequencePrefix<T>(o: seq<T>, i: seq<T>)
    requires Subsequence(o, i)
    ensures Subsequence(DropLast(o), i)
    decreases |i|
  {
    if o == [] {
    } else {
      if o[|o| - 1] == i[|i| - 1] {
        if |o| > 1 {
          SubsequencePrefix(DropLast(o), DropLast(i));
        }
      } else {
        SubsequencePrefix(o, DropLast(i));
        if |o| > 1 && DropLast(o)[|o| - 2] == i[|i| - 1] {
          SubsequencePrefix(DropLast(o), DropLast(i));
        }
      }
    }
  }

  /** `o` is what is left of `i` when superseded elements are dropped: a subsequence that still
      ends as `i` does. */
  predicate Thinned<T(==)>(o: seq<T>, i: seq<T>) {
    Subsequence(o, i) && (i != [] ==> o != [] && o[|o| - 1] == i[|i| - 1])
  }

  lemma ThinnedAppend<T>(o: seq<T>, i: seq<T>, x: T)
    requires Thinned(o, i)
    ensures Thinned(o + [x], i + [x]) && Thinned(DropLast(o) + [x], i + [x])
  {
    SubsequencePrefix(o, i);
    assert DropLast(o + [x]) == o && DropLast(i + [x]) == i && DropLast(DropLast(o) + [x]) == DropLast(o);
  }

  // ---- one push, one lane ----

  /** A lane either gains the message at its end, or the message takes the place of the last,
      which was still `held` in a buffer. */
  predicate Supersedes(before: seq<OutboundMessage>, after: seq<OutboundMessage>, m: OutboundMessage,
                       held: seq<OutboundMessage>) {
    after == before + [m] || (held != [] && after == DropLast(before) + [m])
  }

  /** What is pending of a lane. */
  function Held(p: Pending, lane: Lane): seq<OutboundMessage> {
    InLane(BufferOf(p, GroupOf(lane)), lane)
  }

  lemma {:induction false} PutLane(pending: seq<OutboundMessage>, m: OutboundMessage, lane: Lane, group: Group)
    requires Buffer(pending, group)
    ensures LaneOf(m) != lane ==> InLane(Put(pending, m), lane) == InLane(pending, lane)
    ensures LaneOf(m) == lane ==> InLane(Put(pending, m), lane) == [m]
    ensures LaneOf(m) == lane ==> InLane(pending, lane) == [] || |InLane(pending, lane)| == 1
  {
    hide LaneOf, Holds, InLane, GroupOf;
    NoneInLane([], lane);
    if pending == [] {
      InLaneOne(m, lane);
    } else {
      assert pending == [pending[0]] + pending[1..];
      InLaneAppend([pending[0]], pending[1..], lane);
      InLaneOne(pending[0], lane);
      if LaneOf(pending[0]) == LaneOf(m) {
        InLaneAppend([m], pending[1..], lane);
        InLaneOne(m, lane);
        if LaneOf(m) == lane {
          NoneInLane(pending[1..], lane);
        }
      } else {
        PutLane(pending[1..], m, lane, group);
        InLaneAppend([pending[0]], Put(pending[1..], m), lane);
      }
    }
  }

  lemma ForeignBuffer(pending: seq<OutboundMessage>, group: Group, lane: Lane)
    requires Buffer(pending, group) && GroupOf(lane) != group
    ensures InLane(pending, lane) == []
  {
    NoneInLane(pending, lane);
  }

  /** Lane contents of a whole state: what was emitted, then the one buffer the lane can be in. */
  function BufferOf(p: Pending, group: Group): seq<OutboundMessage> {
    match group
    case ControlGroup => p.control
    case FocusedGroup => p.focused
    case ScreenGroup => p.screen
    case PassiveGroup => p.passive
    case NoGroup => []
  }

  lemma LaneContents(p: Pending, lane: Lane)
    requires Tidy(p)
    ensures InLane(Everything(p), lane) == InLane(p.out, lane) + Held(p, lane)
    ensures InLane(p.out + p.control, lane)
            == InLane(p.out, lane) + if GroupOf(lane) == ControlGroup then InLane(p.control, lane) else []
  {
    hide InLane, Buffer;
    InLaneAppend(p.out + p.control, Screens(p), lane);
    InLaneAppend(p.out, p.control, lane);
    InLaneAppend(p.focused + p.screen, p.passive, lane);
    InLaneAppend(p.focused, p.screen, lane);
    if GroupOf(lane) != ControlGroup { ForeignBuffer(p.control, ControlGroup, lane); }
    if GroupOf(lane) != FocusedGroup { ForeignBuffer(p.focused, FocusedGroup, lane); }
    if GroupOf(lane) != ScreenGroup { ForeignBuffer(p.screen, ScreenGroup, lane); }
    if GroupOf(lane) != PassiveGroup { ForeignBuffer(p.passive, PassiveGroup, lane); }
    if GroupOf(lane) == NoGroup { assert InLane([], lane) == [] by { NoneInLane([], lane); } }
  }

  /** The lane's share of the state before and after a push. */
  predicate LaneStep(p: Pending, q: Pending, m: OutboundMessage, lane: Lane) {
    var before := InLane(p.out, lane) + Held(p, lane);
    var after := InLane(q.out, lane) + Held(q, lane);
    if LaneOf(m) == lane then Supersedes(before, after, m, Held(p, lane)) else after == before
  }

  /** One buffer takes a message; every other one and the output stay. */
  lemma PutStep(p: Pending, q: Pending, m: OutboundMessage, lane: Lane)
    requires Tidy(p) && q.out == p.out && GroupOf(LaneOf(m)) != NoGroup
    requires BufferOf(q, GroupOf(LaneOf(m))) == Put(BufferOf(p, GroupOf(LaneOf(m))), m)
    requires forall group :: group != GroupOf(LaneOf(m)) ==> BufferOf(q, group) == BufferOf(p, group)
    ensures LaneStep(p, q, m, lane)
  {
    hide InLane, Buffer, Put, LaneOf;
    var group := GroupOf(LaneOf(m));
    if GroupOf(lane) == group {
      PutLane(BufferOf(p, group), m, lane, group);
    }
  }

  /** The message goes straight out, behind every buffer that is flushed with it. */
  lemma DirectStep(p: Pending, q: Pending, m: OutboundMessage, lane: Lane, flushed: seq<OutboundMessage>)
    requires q.out == p.out + flushed + [m]
    requires InLane(flushed, lane) + InLane(BufferOf(q, GroupOf(lane)), lane)
             == InLane(BufferOf(p, GroupOf(lane)), lane)
    requires LaneOf(m) == lane ==> InLane(BufferOf(q, GroupOf(lane)), lane) == []
    ensures LaneStep(p, q, m, lane)
  {
    hide InLane, LaneOf;
    InLaneAppend(p.out + flushed, [m], lane);
    InLaneAppend(p.out, flushed, lane);
    InLaneOne(m, lane);
  }

  lemma FlushControl(p: Pending, lane: Lane)
    requires Tidy(p)
    ensures InLane(p.control, lane) + InLane(BufferOf(p.(control := []), GroupOf(lane)), lane)
            == InLane(BufferOf(p, GroupOf(lane)), lane)
  {
    hide InLane, Buffer;
    NoneInLane([], lane);
    if GroupOf(lane) != ControlGroup { ForeignBuffer(p.control, ControlGroup, lane); }
  }

  lemma FlushAll(p: Pending, lane: Lane)
    requires Tidy(p)
    ensures InLane(p.control + Screens(p), lane) + InLane([], lane) == InLane(BufferOf(p, GroupOf(lane)), lane)
  {
    hide InLane, Buffer;
    LaneContents(p.(out := []), lane);
    assert Everything(p.(out := [])) == p.control + Screens(p);
    NoneInLane([], lane);
  }

  lemma ScreenStep(p: Pending, m: OutboundMessage, coalesce: bool, lane: Lane)
    requires Tidy(p) && m.ScreenUpdate?
    ensures LaneStep(p, Push(p, m, coalesce), m, lane)
  {
    hide InLane, Buffer;
    var q := Push(p, m, coalesce);
    OnlyScreenLane(lane);
    ScreenAtMostOne(p.screen, lane);
    InLaneOne(m, lane);
    NoneInLane([], lane);
    if !coalesce {
      FlushControl(p, lane);
      InLaneAppend(p.control, p.screen, lane);
      if lane != ScreenLane { ForeignBuffer(p.screen, ScreenGroup, lane); }
      assert q.out == p.out + (p.control + p.screen) + [m];
      DirectStep(p, q, m, lane, p.control + p.screen);
    }
  }

  lemma FrameStep(p: Pending, m: OutboundMessage, coalesce: bool, lane: Lane)
    requires Tidy(p) && (LaneOf(m) == DirectLane || (m.PaneUpdate? && !m.focused && !coalesce))
    ensures LaneStep(p, Push(p, m, coalesce), m, lane)
  {
    hide InLane, Buffer, PriorityFrame, CoalescibleKind, LaneStep;
    var q := Push(p, m, coalesce);
    NoneInLane([], lane);
    if Priority(m) {
      FlushControl(p, lane);
      DirectStep(p, q, m, lane, p.control);
    } else {
      FlushAll(p, lane);
      assert q.out == p.out + (p.control + Screens(p)) + [m];
      assert BufferOf(q, GroupOf(lane)) == [];
      DirectStep(p, q, m, lane, p.control + Screens(p));
    }
  }

  /** A push lets a message into its own lane only: at the end, or in the last one's place. */
  lemma PushLane(p: Pending, m: OutboundMessage, coalesce: bool, lane: Lane)
    requires Tidy(p)
    ensures var before, after := InLane(Everything(p), lane), InLane(Everything(Push(p, m, coalesce)), lane);
            if LaneOf(m) == lane then Supersedes(before, after, m, Held(p, lane)) else after == before
  {
    var q := Push(p, m, coalesce);
    PushTidy(p, m, coalesce);
    LaneContents(p, lane);
    LaneContents(q, lane);
    assert LaneStep(p, q, m, lane) by { AnyStep(p, m, coalesce, lane); }
    hide InLane, Tidy, LaneOf, Held, Everything, Push, Supersedes;
  }

  lemma AnyStep(p: Pending, m: OutboundMessage, coalesce: bool, lane: Lane)
    requires Tidy(p)
    ensures LaneStep(p, Push(p, m, coalesce), m, lane)
  {
    hide InLane, Tidy, Put, PriorityFrame, CoalescibleKind, LaneStep, Everything;
    if m.ScreenUpdate? {
      ScreenStep(p, m, coalesce, lane);
    } else if (m.Frame? && LaneOf(m).ControlLane?) || (m.PaneUpdate? && (m.focused || coalesce)) {
      PutStep(p, Push(p, m, coalesce), m, lane);
    } else {
      FrameStep(p, m, coalesce, lane);
    }
  }

  lemma ScreenAtMostOne(screen: seq<OutboundMessage>, lane: Lane)
    requires Buffer(screen, ScreenGroup)
    ensures |screen| <= 1 && |InLane(screen, lane)| <= 1
  {
    hide LaneOf;
    if |screen| > 1 {
      OnlyScreenLane(LaneOf(screen[0]));
      OnlyScreenLane(LaneOf(screen[1]));
      assert false;
    }
  }

  lemma OnlyScreenLane(lane: Lane)
    ensures GroupOf(lane) == ScreenGroup <==> lane == ScreenLane
  {
  }

  /** Lane order and no lost last frame: for either setting, each control kind, the screen lane,
      each (pane, focused) lane and the lane of direct frames come out as a subsequence of what
      went in, ending in the last message that went in. */
  lemma {:induction false} LanesAreThinned(ms: seq<OutboundMessage>, coalesce: bool, lane: Lane)
    ensures Thinned(InLane(Emitted(ms, coalesce), lane), InLane(ms, lane))
  {
    hide Push, Tidy, InLane, Everything, Thinned;
    if ms == [] {
      NoneInLane([], lane);
      assert Everything(NOTHING) == [] by { NothingEmitted(); }
      assert Thinned<OutboundMessage>([], []) by { NothingThinned(); }
    } else {
      var before, m := ms[..|ms| - 1], ms[|ms| - 1];
      LanesAreThinned(before, coalesce, lane);
      PushAllTidy(before, coalesce);
      PushLane(PushAll(NOTHING, before, coalesce), m, coalesce, lane);
      assert ms == before + [m];
      InLaneAppend(before, [m], lane);
      InLaneOne(m, lane);
      assert InLane(before, lane) + [] == InLane(before, lane);
      if LaneOf(m) == lane {
        ThinnedStep(InLane(Emitted(before, coalesce), lane), InLane(Emitted(ms, coalesce), lane),
                    InLane(before, lane), m, Held(PushAll(NOTHING, before, coalesce), lane));
      }
    }
  }

  lemma ThinnedStep(o: seq<OutboundMessage>, next: seq<OutboundMessage>, i: seq<OutboundMessage>, m: OutboundMessage,
                    held: seq<OutboundMessage>)
    requires Thinned(o, i) && Supersedes(o, next, m, held)
    ensures Thinned(next, i + [m])
  {
    hide Thinned;
    ThinnedAppend(o, i, m);
  }

  lemma NothingEmitted()
    ensures Everything(NOTHING) == []
  {
  }

  lemma NothingThinned()
    ensures Thinned<OutboundMessage>([], [])
  {
  }

  /** Direct frames, priority or barrier, are never dropped: their lane only ever gains. */
  lemma {:induction false} DirectFramesSurvive(ms: seq<OutboundMessage>, coalesce: bool)
    ensures InLane(Emitted(ms, coalesce), DirectLane) == InLane(ms, DirectLane)
  {
    hide Push, Tidy, InLane, Everything;
    if ms == [] {
      NothingEmitted();
    } else {
      var before, m := ms[..|ms| - 1], ms[|ms| - 1];
      DirectFramesSurvive(before, coalesce);
      PushAllTidy(before, coalesce);
      DirectPush(PushAll(NOTHING, before, coalesce), m, coalesce);
      assert ms == before + [m];
      InLaneAppend(before, [m], DirectLane);
      InLaneOne(m, DirectLane);
    }
  }

  lemma DirectPush(p: Pending, m: OutboundMessage, coalesce: bool)
    requires Tidy(p)
    ensures InLane(Everything(Push(p, m, coalesce)), DirectLane)
            == InLane(Everything(p), DirectLane) + if LaneOf(m) == DirectLane then [m] else []
  {
    hide InLane, Put, PriorityFrame, CoalescibleKind, Buffer;
    PushLane(p, m, coalesce, DirectLane);
    if LaneOf(m) == DirectLane {
      PushTidy(p, m, coalesce);
      LaneContents(p, DirectLane);
      LaneContents(Push(p, m, coalesce), DirectLane);
      NoneInLane([], DirectLane);
      InLaneOne(m, DirectLane);
      if Priority(m) {
        InLaneAppend(p.out + p.control, [m], DirectLane);
      } else {
        InLaneAppend(Everything(p), [m], DirectLane);
      }
    }
  }

  // ---- barriers and priorities ----

  /** The same state with more already written in front of it. */
  function Behind(front: seq<OutboundMessage>, p: Pending): Pending {
    p.(out := front + p.out)
  }

  lemma PushBehind(front: seq<OutboundMessage>, p: Pending, m: OutboundMessage, coalesce: bool)
    ensures Push(Behind(front, p), m, coalesce) == Behind(front, Push(p, m, coalesce))
  {
    hide PriorityFrame, LaneOf, Put;
    assert front + p.out + p.control + [m] == front + (p.out + p.control + [m]);
    assert front + p.out + p.control + p.screen + [m] == front + (p.out + p.control + p.screen + [m]);
    assert Everything(Behind(front, p)) + [m] == front + (Everything(p) + [m]);
  }

  lemma {:induction false} PushAllBehind(front: seq<OutboundMessage>, p: Pending, ms: seq<OutboundMessage>,
                                         coalesce: bool)
    ensures PushAll(Behind(front, p), ms, coalesce) == Behind(front, PushAll(p, ms, coalesce))
  {
    hide Push, Behind;
    if ms == [] {
    } else {
      PushAllBehind(front, p, ms[..|ms| - 1], coalesce);
      PushBehind(front, PushAll(p, ms[..|ms| - 1], coalesce), ms[|ms| - 1], coalesce);
    }
  }

  lemma {:induction false} PushAllAppend(p: Pending, a: seq<OutboundMessage>, b: seq<OutboundMessage>, coalesce: bool)
    ensures PushAll(p, a + b, coalesce) == PushAll(PushAll(p, a, coalesce), b, coalesce)
  {
    hide Push;
    if b == [] {
      assert a + b == a;
    } else {
      assert (a + b)[..|a + b| - 1] == a + b[..|b| - 1];
      PushAllAppend(p, a, b[..|b| - 1], coalesce);
    }
  }

  lemma PushOne(p: Pending, m: OutboundMessage, coalesce: bool)
    ensures PushAll(p, [m], coalesce) == Push(p, m, coalesce)
  {
    assert [m][..0] == [];
  }

  lemma EverythingBehind(front: seq<OutboundMessage>, p: Pending)
    ensures Everything(Behind(front, p)) == front + Everything(p)
  {
  }

  /** A barrier separates the batch exactly: the two sides are batched as if they were alone. */
  lemma BarrierSeparates(pre: seq<OutboundMessage>, b: OutboundMessage, post: seq<OutboundMessage>, coalesce: bool)
    requires Barrier(b)
    ensures Emitted(pre + [b] + post, coalesce) == Emitted(pre, coalesce) + [b] + Emitted(post, coalesce)
  {
    hide Everything, PriorityFrame, CoalescibleKind, PushAll;
    var p := PushAll(NOTHING, pre, coalesce);
    var front := Emitted(pre, coalesce) + [b];
    PushAllAppend(NOTHING, pre + [b], post, coalesce);
    PushAllAppend(NOTHING, pre, [b], coalesce);
    PushOne(p, b, coalesce);
    assert Push(p, b, coalesce) == Behind(front, NOTHING);
    PushAllBehind(front, NOTHING, post, coalesce);
    EverythingBehind(front, PushAll(NOTHING, post, coalesce));
  }

  /** What is still pending once the control frames have been flushed. */
  function ScreensPending(p: Pending): Pending {
    p.(out := [], control := [])
  }

  /** A priority frame comes after every control frame pending at its arrival and before every
      screen and pane update pending then, which stay pending for what follows. */
  lemma PriorityOvertakesScreens(pre: seq<OutboundMessage>, m: OutboundMessage, post: seq<OutboundMessage>,
                                 coalesce: bool)
    requires Priority(m)
    ensures var p := PushAll(NOTHING, pre, coalesce);
            && Emitted(pre, coalesce) == p.out + p.control + Screens(p)
            && Emitted(pre + [m], coalesce) == p.out + p.control + [m] + Screens(p)
            && Emitted(pre + [m] + post, coalesce)
               == p.out + p.control + [m] + Everything(PushAll(ScreensPending(p), post, coalesce))
  {
    hide PriorityFrame, CoalescibleKind, PushAll;
    var p := PushAll(NOTHING, pre, coalesce);
    var front := p.out + p.control + [m];
    PushAllAppend(NOTHING, pre + [m], post, coalesce);
    PushAllAppend(NOTHING, pre, [m], coalesce);
    PushOne(p, m, coalesce);
    assert front + [] == front;
    assert Push(p, m, coalesce) == Behind(front, ScreensPending(p));
    PushAllBehind(front, ScreensPending(p), post, coalesce);
    EverythingBehind(front, PushAll(ScreensPending(p), post, coalesce));
  }

  predicate PriorityType(ty: MessageType) {
    ty in {AUTH_OK, AUTH_FAIL, ERROR_MSG, HEARTBEAT_ACK, TAB_CREATED}
  }

  /** The batcher looks at one byte of a frame; for the server's own messages that is their type. So
      the cached control payloads take the lane of their kind, and every other frame is a priority
      frame or a barrier by its type. */
  lemma ClassifiedByType(m: Message)
    ensures var f := Frame(EncodeMessage(m));
            && (forall k :: LaneOf(f) == ControlLane(k) <==> m.ty == ControlType(k))
            && (Priority(f) <==> PriorityType(m.ty))
            && (Barrier(f) <==> !PriorityType(m.ty) && forall k :: m.ty != ControlType(k))
  {
    hide LE;
    var f := Frame(EncodeMessage(m));
    assert EncodeMessage(m)[2] == m.ty;
    assert FrameType(f.bytes) == Some(m.ty);
    hide EncodeMessage, FrameType;
    forall k ensures LaneOf(f) == ControlLane(k) <==> m.ty == ControlType(k) {
    }
    if CoalescibleKind(f.bytes).Some? {
      assert m.ty == ControlType(CoalescibleKind(f.bytes).value);
    }
  }

  // ---- conservation ----

  lemma {:induction false} PutContents(pending: seq<OutboundMessage>, m: OutboundMessage)
    ensures multiset(Put(pending, m)) <= multiset(pending) + multiset{m}
  {
    if pending == [] {
    } else {
      assert pending == [pending[0]] + pending[1..];
      if LaneOf(pending[0]) != LaneOf(m) {
        PutContents(pending[1..], m);
      }
    }
  }

  lemma PushContents(p: Pending, m: OutboundMessage, coalesce: bool)
    ensures multiset(Everything(Push(p, m, coalesce))) <= multiset(Everything(p)) + multiset{m}
  {
    hide LaneOf, Put, PriorityFrame;
    if m.ScreenUpdate? {
      ScreenContents(p, m, coalesce);
    } else if m.Frame? && LaneOf(m).ControlLane? {
      PutContents(p.control, m);
    } else if m.PaneUpdate? && m.focused {
      PutContents(p.focused, m);
    } else if m.PaneUpdate? && coalesce {
      PutContents(p.passive, m);
    }
  }

  lemma ScreenContents(p: Pending, m: OutboundMessage, coalesce: bool)
    requires m.ScreenUpdate?
    ensures multiset(Everything(Push(p, m, coalesce))) <= multiset(Everything(p)) + multiset{m}
  {
    hide LaneOf, Put, PriorityFrame;
  }

  /** A batch invents nothing: what it emits is a sub-multiset of what it was given. */
  lemma {:induction false} EmittedContents(ms: seq<OutboundMessage>, coalesce: bool)
    ensures multiset(Emitted(ms, coalesce)) <= multiset(ms)
  {
    hide Push, Everything;
    if ms == [] {
      NothingEmitted();
    } else {
      var before, m := ms[..|ms| - 1], ms[|ms| - 1];
      EmittedContents(before, coalesce);
      PushContents(PushAll(NOTHING, before, coalesce), m, coalesce);
      assert ms == before + [m];
    }
  }

  predicate Balanced(c: Counts, p: Pending) {
    && c.emittedScreens + |p.screen| <= c.screenUpdates
    && |Everything(p)| + (c.screenUpdates - c.emittedScreens - |p.screen|) + c.coalescedPanes + c.coalescedControl
       == c.messages
  }

  lemma PushBalanced(c: Counts, p: Pending, m: OutboundMessage, coalesce: bool)
    requires Balanced(c, p) && Tidy(p)
    ensures Balanced(Count(c, p, m, coalesce), Push(p, m, coalesce))
  {
    hide LaneOf, Put, PriorityFrame, Holds, Buffer;
    ScreenAtMostOne(p.screen, ScreenLane);
  }

  lemma {:induction false} RunBalanced(ms: seq<OutboundMessage>, coalesce: bool)
    ensures Balanced(CountAll(ms, coalesce), PushAll(NOTHING, ms, coalesce))
    ensures CountAll(ms, coalesce).messages == |ms|
  {
    hide Push, Tidy, Balanced;
    if ms == [] {
      assert Balanced(NO_COUNTS, NOTHING) by { NothingBalanced(); }
    } else {
      var before, m := ms[..|ms| - 1], ms[|ms| - 1];
      RunBalanced(before, coalesce);
      PushAllTidy(before, coalesce);
      PushBalanced(CountAll(before, coalesce), PushAll(NOTHING, before, coalesce), m, coalesce);
    }
  }

  lemma NothingBalanced()
    ensures Balanced(NO_COUNTS, NOTHING)
  {
  }

  /** Conservation: every message is emitted or counted as coalesced, the screen counter's
      saturating subtraction never saturates, and the frames are among those pushed. */
  lemma BatchConserves(ms: seq<OutboundMessage>, coalesce: bool)
    ensures var b := Batch(ms, coalesce);
            && b.messageCount == |ms|
            && |b.frames| + b.coalescedScreenUpdates + b.coalescedPaneUpdates + b.coalescedControlFrames == |ms|
            && (var c, p := CountAll(ms, coalesce), PushAll(NOTHING, ms, coalesce);
                b.coalescedScreenUpdates == c.screenUpdates - (c.emittedScreens + |p.screen|))
            && b.frames == FramesOf(Emitted(ms, coalesce))
            && multiset(Emitted(ms, coalesce)) <= multiset(ms)
  {
    RunBalanced(ms, coalesce);
    EmittedContents(ms, coalesce);
  }

  // ---- each counter ----

  /** What the batch counts separately; direct frames are never coalesced. */
  datatype Class = ControlClass | ScreenClass | PaneClass | DirectClass

  function ClassOf(m: OutboundMessage): Class {
    match m
    case Frame(_) => if LaneOf(m) == DirectLane then DirectClass else ControlClass
    case ScreenUpdate(_) => ScreenClass
    case PaneUpdate(_, _, _) => PaneClass
  }

  function Number(ms: seq<OutboundMessage>, c: Class): nat {
    if ms == [] then 0 else Number(ms[..|ms| - 1], c) + if ClassOf(ms[|ms| - 1]) == c then 1 else 0
  }

  lemma {:induction false} NumberAppend(a: seq<OutboundMessage>, b: seq<OutboundMessage>, c: Class)
    ensures Number(a + b, c) == Number(a, c) + Number(b, c)
  {
    hide ClassOf;
    if b == [] {
      assert a + b == a;
    } else {
      assert (a + b)[..|a + b| - 1] == a + b[..|b| - 1];
      NumberAppend(a, b[..|b| - 1], c);
    }
  }

  lemma NumberOne(m: OutboundMessage, c: Class)
    ensures Number([m], c) == if ClassOf(m) == c then 1 else 0
  {
    assert [m][..0] == [];
  }

  lemma {:induction false} NumberOfOne(ms: seq<OutboundMessage>, own: Class, c: Class)
    requires forall i :: 0 <= i < |ms| ==> ClassOf(ms[i]) == own
    ensures Number(ms, c) == if c == own then |ms| else 0
  {
    hide ClassOf;
    if ms == [] {
    } else {
      NumberOfOne(ms[..|ms| - 1], own, c);
    }
  }

  function GroupClass(group: Group): Class {
    match group
    case ControlGroup => ControlClass
    case ScreenGroup => ScreenClass
    case NoGroup => DirectClass
    case FocusedGroup => PaneClass
    case PassiveGroup => PaneClass
  }

  lemma NumberOfBuffer(pending: seq<OutboundMessage>, group: Group, c: Class)
    requires Buffer(pending, group)
    ensures Number(pending, c) == if c == GroupClass(group) then |pending| else 0
  {
    forall i | 0 <= i < |pending| ensures ClassOf(pending[i]) == GroupClass(group) {
      assert GroupOf(LaneOf(pending[i])) == group;
    }
    NumberOfOne(pending, GroupClass(group), c);
  }

  /** How many of a class a state holds, emitted or pending. */
  function Total(p: Pending, c: Class): nat {
    Number(p.out, c)
    + match c
      case ControlClass => |p.control|
      case ScreenClass => |p.screen|
      case PaneClass => |p.focused| + |p.passive|
      case DirectClass => 0
  }

  lemma TotalOf(p: Pending, c: Class)
    requires Tidy(p)
    ensures Number(Everything(p), c) == Total(p, c)
    ensures Number(p.out + p.control, c) == Number(p.out, c) + if c == ControlClass then |p.control| else 0
  {
    hide Number, Buffer;
    NumberAppend(p.out + p.control, Screens(p), c);
    NumberAppend(p.out, p.control, c);
    NumberAppend(p.focused + p.screen, p.passive, c);
    NumberAppend(p.focused, p.screen, c);
    NumberOfBuffer(p.control, ControlGroup, c);
    NumberOfBuffer(p.focused, FocusedGroup, c);
    NumberOfBuffer(p.screen, ScreenGroup, c);
    NumberOfBuffer(p.passive, PassiveGroup, c);
  }

  predicate Counted(c: Counts, p: Pending, ms: seq<OutboundMessage>) {
    && c.coalescedControl + Total(p, ControlClass) == Number(ms, ControlClass)
    && c.coalescedPanes + Total(p, PaneClass) == Number(ms, PaneClass)
    && c.screenUpdates == Number(ms, ScreenClass)
    && c.emittedScreens == Number(p.out, ScreenClass)
    && Number(p.out, DirectClass) == Number(ms, DirectClass)
  }

  lemma OutNumber(p: Pending, m: OutboundMessage, flushed: seq<OutboundMessage>, c: Class)
    ensures Number(p.out + flushed + [m], c) == Number(p.out, c) + Number(flushed, c) + if ClassOf(m) == c then 1 else 0
  {
    hide Number, ClassOf;
    NumberAppend(p.out + flushed, [m], c);
    NumberAppend(p.out, flushed, c);
    NumberOne(m, c);
  }

  /** What a flush of some buffers adds to each class. */
  lemma FlushNumbers(p: Pending, c: Class)
    requires Tidy(p)
    ensures Number(p.control, c) == if c == ControlClass then |p.control| else 0
    ensures Number(p.control + p.screen, c)
            == (if c == ControlClass then |p.control| else 0) + (if c == ScreenClass then |p.screen| else 0)
    ensures Number(p.control + Screens(p), c) == Total(p, c) - Number(p.out, c)
  {
    hide Number, Buffer;
    NumberOfBuffer(p.control, ControlGroup, c);
    NumberOfBuffer(p.screen, ScreenGroup, c);
    NumberAppend(p.control, p.screen, c);
    TotalOf(p, c);
    NumberAppend(p.out, p.control + Screens(p), c);
    assert Everything(p) == p.out + (p.control + Screens(p));
  }

  lemma DirectCounted(c: Counts, p: Pending, m: OutboundMessage, coalesce: bool, ms: seq<OutboundMessage>)
    requires Counted(c, p, ms) && Tidy(p)
    requires (m.Frame? && LaneOf(m) == DirectLane) || (m.PaneUpdate? && !m.focused && !coalesce)
             || (m.ScreenUpdate? && !coalesce)
    ensures Counted(Count(c, p, m, coalesce), Push(p, m, coalesce), ms + [m])
  {
    hide Number, Tidy, PriorityFrame, CoalescibleKind, Holds;
    forall k: Class
      ensures Number(ms + [m], k) == Number(ms, k) + if ClassOf(m) == k then 1 else 0
    {
      NumberAppend(ms, [m], k);
      NumberOne(m, k);
    }
    forall k: Class
      ensures Number(Push(p, m, coalesce).out, k)
              == Number(p.out, k) + (if ClassOf(m) == k then 1 else 0)
                 + if m.ScreenUpdate? then Number(p.control + p.screen, k)
                   else if Priority(m) then Number(p.control, k)
                   else Number(p.control + Screens(p), k)
    {
      if m.ScreenUpdate? {
        assert p.out + p.control + p.screen + [m] == p.out + (p.control + p.screen) + [m];
        OutNumber(p, m, p.control + p.screen, k);
      } else if Priority(m) {
        OutNumber(p, m, p.control, k);
      } else {
        assert Everything(p) + [m] == p.out + (p.control + Screens(p)) + [m];
        OutNumber(p, m, p.control + Screens(p), k);
      }
    }
    FlushNumbers(p, ControlClass);
    FlushNumbers(p, ScreenClass);
    FlushNumbers(p, PaneClass);
    FlushNumbers(p, DirectClass);
    hide Screens, Everything;
  }

  lemma PendingCounted(c: Counts, p: Pending, m: OutboundMessage, coalesce: bool, ms: seq<OutboundMessage>)
    requires Counted(c, p, ms)
    requires LaneOf(m).ControlLane? || (m.PaneUpdate? && (m.focused || coalesce)) || (m.ScreenUpdate? && coalesce)
    ensures Counted(Count(c, p, m, coalesce), Push(p, m, coalesce), ms + [m])
  {
    hide Number, Put, PriorityFrame, CoalescibleKind, Holds;
    forall k: Class
      ensures Number(ms + [m], k) == Number(ms, k) + if ClassOf(m) == k then 1 else 0
    {
      NumberAppend(ms, [m], k);
      NumberOne(m, k);
    }
  }

  lemma {:induction false} RunCounted(ms: seq<OutboundMessage>, coalesce: bool)
    ensures Counted(CountAll(ms, coalesce), PushAll(NOTHING, ms, coalesce), ms)
  {
    hide Push, Count, Tidy, Counted;
    if ms == [] {
      assert Counted(NO_COUNTS, NOTHING, []) by { NothingCounted(); }
    } else {
      var before, m := ms[..|ms| - 1], ms[|ms| - 1];
      var c, p := CountAll(before, coalesce), PushAll(NOTHING, before, coalesce);
      RunCounted(before, coalesce);
      PushAllTidy(before, coalesce);
      assert ms == before + [m];
      if LaneOf(m).ControlLane? || (m.PaneUpdate? && (m.focused || coalesce)) || (m.ScreenUpdate? && coalesce) {
        PendingCounted(c, p, m, coalesce, before);
      } else {
        DirectCounted(c, p, m, coalesce, before);
      }
    }
  }

  lemma NothingCounted()
    ensures Counted(NO_COUNTS, NOTHING, [])
  {
  }

  /** Each counter is what its name says: the screens, panes and control frames that went in, less
      those that came out; and no other frame is lost. */
  lemma CountersExactly(ms: seq<OutboundMessage>, coalesce: bool)
    ensures var b, o := Batch(ms, coalesce), Emitted(ms, coalesce);
            && b.coalescedControlFrames == Number(ms, ControlClass) - Number(o, ControlClass)
            && b.coalescedPaneUpdates == Number(ms, PaneClass) - Number(o, PaneClass)
            && b.coalescedScreenUpdates == Number(ms, ScreenClass) - Number(o, ScreenClass)
            && Number(o, DirectClass) == Number(ms, DirectClass)
  {
    hide Number, Tidy, Everything, Push, Count;
    var p := PushAll(NOTHING, ms, coalesce);
    RunCounted(ms, coalesce);
    RunBalanced(ms, coalesce);
    PushAllTidy(ms, coalesce);
    TotalOf(p, ControlClass);
    TotalOf(p, ScreenClass);
    TotalOf(p, PaneClass);
    TotalOf(p, DirectClass);
  }

  // ---- without coalescing ----

  lemma {:induction false} NothingPassive(ms: seq<OutboundMessage>)
    ensures PushAll(NOTHING, ms, false).passive == []
  {
    hide LaneOf, PriorityFrame, Everything, Put;
    if ms == [] {
    } else {
      NothingPassive(ms[..|ms| - 1]);
    }
  }

  /** A screen or a passive pane overtakes nothing: when it is the last to go in, nothing comes out after it
      but, after a screen, focused panes. */
  lemma UncoalescedWaits(before: seq<OutboundMessage>, m: OutboundMessage)
    requires m.ScreenUpdate? || (m.PaneUpdate? && !m.focused)
    ensures var out := Emitted(before + [m], false);
            exists k :: 0 <= k < |out| && out[k] == m
                        && forall j :: k < j < |out| ==> m.ScreenUpdate? && out[j].PaneUpdate? && out[j].focused
  {
    hide PushAll, PriorityFrame, Put;
    var p, out := PushAll(NOTHING, before, false), Emitted(before + [m], false);
    PushAllSnoc(before, m);
    NothingPassive(before);
    PushAllTidy(before, false);
    var k := |p.out + p.control| + (if m.ScreenUpdate? then |p.screen| else |Screens(p)|);
    assert out[k] == m;
    forall j | k < j < |out| ensures m.ScreenUpdate? && out[j].PaneUpdate? && out[j].focused {
      assert out[j] == p.focused[j - k - 1];
    }
  }

  lemma PushAllSnoc(before: seq<OutboundMessage>, m: OutboundMessage)
    ensures PushAll(NOTHING, before + [m], false) == Push(PushAll(NOTHING, before, false), m, false)
  {
    assert (before + [m])[..|before|] == before;
  }

  predicate FramesAndFocused(ms: seq<OutboundMessage>) {
    forall i :: 0 <= i < |ms| ==> ms[i].Frame? || (ms[i].PaneUpdate? && ms[i].focused)
  }

  lemma {:induction false} SettingIsMoot(ms: seq<OutboundMessage>)
    requires FramesAndFocused(ms)
    ensures PushAll(NOTHING, ms, false) == PushAll(NOTHING, ms, true) && CountAll(ms, false) == CountAll(ms, true)
  {
    hide LaneOf, PriorityFrame, Everything, Put, Holds;
    if ms == [] {
    } else {
      SettingIsMoot(ms[..|ms| - 1]);
    }
  }

  /** Focused panes and control frames coalesce under either setting. */
  lemma FocusedAlwaysCoalesce(ms: seq<OutboundMessage>)
    requires FramesAndFocused(ms)
    ensures Batch(ms, false) == Batch(ms, true)
  {
    hide PushAll, CountAll;
    SettingIsMoot(ms);
  }

  // ---- the focus flip ----

  /** Order within a pane is only kept lane by lane: when its focus flag flips inside a batch, the
      newer focused frame is emitted ahead of the older passive one. */
  lemma FocusFlipReorders(paneId: u64, older: seq<byte>, newer: seq<byte>)
    ensures Emitted([PaneUpdate(paneId, false, older), PaneUpdate(paneId, true, newer)], true)
            == [PaneUpdate(paneId, true, newer), PaneUpdate(paneId, false, older)]
  {
    var a, b := PaneUpdate(paneId, false, older), PaneUpdate(paneId, true, newer);
    assert [a, b][..1] == [a] && [a][..0] == [];
    assert PushAll(NOTHING, [a], true) == Push(NOTHING, a, true);
    assert PushAll(NOTHING, [a, b], true) == Push(Push(NOTHING, a, true), b, true);
  }
}
