/** The batcher's in-place buffers and its collecting loop, against `Batcher.Batch`. */
module BatchCollector {
  import opened Bytes
  import opened RemoteState
  import opened Batcher
  import opened BatchOrder

  // ---- what a keyed buffer does to the pending sequence ----

  lemma {:induction false} PutReplaces(pending: seq<OutboundMessage>, m: OutboundMessage, i: nat)
    requires i < |pending| && LaneOf(pending[i]) == LaneOf(m)
    requires forall j :: 0 <= j < i ==> LaneOf(pending[j]) != LaneOf(m)
    ensures Put(pending, m) == pending[i := m]
  {
    hide LaneOf, Holds;
    if i == 0 {
    } else {
      PutReplaces(pending[1..], m, i - 1);
    }
  }

  lemma {:induction false} PutAppends(pending: seq<OutboundMessage>, m: OutboundMessage)
    requires forall j :: 0 <= j < |pending| ==> LaneOf(pending[j]) != LaneOf(m)
    ensures Put(pending, m) == pending + [m] && !Holds(pending, LaneOf(m))
  {
    hide LaneOf;
    if pending == [] {
    } else {
      PutAppends(pending[1..], m);
    }
  }

  lemma FramesOfAppend(a: seq<OutboundMessage>, b: seq<OutboundMessage>)
    ensures FramesOf(a + b) == FramesOf(a) + FramesOf(b)
  {
  }

  /** The newest pending frame of each control kind, in order of first arrival. */
  class PendingOutboundFrames {
    var order: seq<ControlKind>
    var tabList: Option<seq<byte>>
    var uiRuntimeState: Option<seq<byte>>
    var uiAppearance: Option<seq<byte>>

    function Slot(kind: ControlKind): Option<seq<byte>>
      reads this
    {
      match kind
      case TabListKind => tabList
      case RuntimeStateKind => uiRuntimeState
      case AppearanceKind => uiAppearance
    }

    ghost predicate Valid()
      reads this
    {
      && (forall i, j :: 0 <= i < j < |order| ==> order[i] != order[j])
      && (forall kind :: kind in order <==> Slot(kind).Some?)
      && (forall kind :: kind in order ==> CoalescibleKind(Slot(kind).value) == Some(kind))
    }

    ghost function Model(): (r: seq<OutboundMessage>)
      reads this
      requires Valid()
      ensures |r| == |order|
    {
      seq(|order|, i requires 0 <= i < |order| reads this requires Valid() => Frame(Slot(order[i]).value))
    }

    lemma ModelLanes()
      requires Valid()
      ensures forall i :: 0 <= i < |Model()| ==> LaneOf(Model()[i]) == ControlLane(order[i])
    {
      hide CoalescibleKind;
    }

    constructor ()
      ensures Valid() && Model() == []
    {
      order := [];
      tabList, uiRuntimeState, uiAppearance := None, None, None;
    }

    method Set(kind: ControlKind, frame: seq<byte>)
      requires Valid() && CoalescibleKind(frame) == Some(kind)
      modifies this
      ensures Valid() && Model() == Put(old(Model()), Frame(frame))
      ensures old(Slot(kind)).Some? <==> Holds(old(Model()), LaneOf(Frame(frame)))
    {
      hide CoalescibleKind, Put, Holds, LaneOf;
      ModelAfterSet(kind, frame);
      PushKindOnce(kind);
      Assign(kind, frame);
    }

    /** What a new frame does to the pending sequence. */
    lemma ModelAfterSet(kind: ControlKind, frame: seq<byte>)
      requires Valid() && CoalescibleKind(frame) == Some(kind)
      ensures var m := Frame(frame);
              && (Holds(Model(), LaneOf(m)) <==> kind in order)
              && |Put(Model(), m)| == (if kind in order then |order| else |order| + 1)
              && (forall i :: 0 <= i < |order| ==> Put(Model(), m)[i] == if order[i] == kind then m else Model()[i])
              && (kind !in order ==> Put(Model(), m) == Model() + [m])
    {
      hide CoalescibleKind, Put, Holds, LaneOf;
      var was, m := Model(), Frame(frame);
      ModelLanes();
      KindLane(kind, frame);
      if kind in order {
        var i :| 0 <= i < |order| && order[i] == kind;
        PutReplaces(was, m, i);
        HoldsAt(was, i);
      } else {
        PutAppends(was, m);
      }
    }

    method PushKindOnce(kind: ControlKind)
      modifies this`order
      ensures order == if kind in old(order) then old(order) else old(order) + [kind]
    {
      if kind !in order {
        order := order + [kind];
      }
    }

    method Assign(kind: ControlKind, frame: seq<byte>)
      modifies this`tabList, this`uiRuntimeState, this`uiAppearance
      ensures forall k :: Slot(k) == if k == kind then Some(frame) else old(Slot(k))
    {
      match kind {
        case TabListKind => tabList := Some(frame);
        case RuntimeStateKind => uiRuntimeState := Some(frame);
        case AppearanceKind => uiAppearance := Some(frame);
      }
    }

    method Take(kind: ControlKind) returns (frame: Option<seq<byte>>)
      modifies this
      ensures frame == old(Slot(kind)) && Slot(kind).None? && order == old(order)
      ensures forall k :: k != kind ==> Slot(k) == old(Slot(k))
    {
      frame := Slot(kind);
      match kind {
        case TabListKind => tabList := None;
        case RuntimeStateKind => uiRuntimeState := None;
        case AppearanceKind => uiAppearance := None;
      }
    }

    method TakeAll() returns (frames: seq<seq<byte>>)
      requires Valid()
      modifies this
      ensures Valid() && Model() == [] && frames == FramesOf(old(Model()))
    {
      hide CoalescibleKind;
      frames := [];
      for i := 0 to |order|
        invariant order == old(order)
        invariant frames == FramesOf(old(Model())[..i])
        invariant forall k :: Slot(k) == if k in order[..i] then None else old(Slot(k))
      {
        assert old(Model())[..i + 1] == old(Model())[..i] + [old(Model())[i]];
        FramesOfAppend(old(Model())[..i], [old(Model())[i]]);
        assert order[i] !in order[..i];
        var frame := Take(order[i]);
        if frame.Some? {
          frames := frames + [frame.value];
        }
      }
      assert old(Model())[..|order|] == old(Model());
      assert order[..|order|] == order;
      order := [];
    }
  }

  lemma KindLane(kind: ControlKind, frame: seq<byte>)
    requires CoalescibleKind(frame) == Some(kind)
    ensures LaneOf(Frame(frame)) == ControlLane(kind)
  {
    hide CoalescibleKind;
  }

  lemma HoldsAt(pending: seq<OutboundMessage>, i: nat)
    requires i < |pending|
    ensures Holds(pending, LaneOf(pending[i]))
  {
  }

  /** The newest pending frame of each pane, in order of first arrival. */
  class PendingPaneFrames {
    var order: seq<u64>
    var frames: map<u64, seq<byte>>
    var coalesced: nat

    ghost predicate Valid()
      reads this
    {
      && (forall i, j :: 0 <= i < j < |order| ==> order[i] != order[j])
      && (forall id :: id in order <==> id in frames)
    }

    ghost function Model(focused: bool): (r: seq<OutboundMessage>)
      reads this
      requires Valid()
      ensures |r| == |order|
    {
      seq(|order|, i requires 0 <= i < |order| reads this requires Valid() =>
        PaneUpdate(order[i], focused, frames[order[i]]))
    }

    constructor ()
      ensures Valid() && coalesced == 0
      ensures forall focused :: Model(focused) == []
    {
      order, frames, coalesced := [], map[], 0;
    }

    method Set(paneId: u64, frame: seq<byte>, ghost focused: bool)
      requires Valid()
      modifies this
      ensures Valid() && Model(focused) == Put(old(Model(focused)), PaneUpdate(paneId, focused, frame))
      ensures coalesced
              == old(coalesced) + if Holds(old(Model(focused)), PaneLane(paneId, focused)) then 1 else 0
    {
      hide Put, Holds, LaneOf;
      ModelAfterSet(paneId, frame, focused);
      var replaced := paneId in frames;
      frames := frames[paneId := frame];
      if replaced {
        coalesced := coalesced + 1;
      } else {
        order := order + [paneId];
      }
    }

    /** What a new frame does to the pending sequence. */
    lemma ModelAfterSet(paneId: u64, frame: seq<byte>, focused: bool)
      requires Valid()
      ensures var m := PaneUpdate(paneId, focused, frame);
              && LaneOf(m) == PaneLane(paneId, focused)
              && (Holds(Model(focused), LaneOf(m)) <==> paneId in frames)
              && |Put(Model(focused), m)| == (if paneId in frames then |order| else |order| + 1)
              && (forall i :: 0 <= i < |order| ==>
                    Put(Model(focused), m)[i] == if order[i] == paneId then m else Model(focused)[i])
              && (paneId !in frames ==> Put(Model(focused), m) == Model(focused) + [m])
    {
      hide Put, Holds;
      var was, m := Model(focused), PaneUpdate(paneId, focused, frame);
      assert forall i :: 0 <= i < |was| ==> LaneOf(was[i]) == PaneLane(order[i], focused);
      if paneId in frames {
        var i :| 0 <= i < |order| && order[i] == paneId;
        PutReplaces(was, m, i);
        HoldsAt(was, i);
      } else {
        PutAppends(was, m);
      }
    }

    method TakeAll(ghost focused: bool) returns (taken: seq<seq<byte>>)
      requires Valid()
      modifies this
      ensures Valid() && Model(focused) == [] && taken == FramesOf(old(Model(focused)))
      ensures coalesced == old(coalesced)
    {
      taken := [];
      for i := 0 to |order|
        invariant order == old(order) && coalesced == old(coalesced)
        invariant taken == FramesOf(old(Model(focused))[..i])
        invariant frames == old(frames) - set id | id in order[..i]
      {
        ghost var was := old(Model(focused));
        assert was[..i + 1] == was[..i] + [was[i]];
        FramesOfAppend(was[..i], [was[i]]);
        assert order[i] !in order[..i];
        if order[i] in frames {
          taken := taken + [frames[order[i]]];
          frames := frames - {order[i]};
        }
      }
      assert old(Model(focused))[..|order|] == old(Model(focused));
      assert order[..|order|] == order;
      order := [];
    }
  }

  /** The locals that the collecting closure captures. */
  class Collector {
    const coalesceScreens: bool
    const control: PendingOutboundFrames
    const focusedPanes: PendingPaneFrames
    const passivePanes: PendingPaneFrames
    var frames: seq<seq<byte>>
    var pendingScreen: Option<seq<byte>>
    var messageCount: nat
    var screenUpdates: nat
    var emittedScreenFrames: nat
    var coalescedControlFrames: nat
    ghost var pending: Pending
    ghost var counts: Counts

    ghost function Repr(): set<object> {
      {this, control, focusedPanes, passivePanes}
    }

    ghost predicate Valid()
      reads Repr()
    {
      && focusedPanes != passivePanes
      && control.Valid() && focusedPanes.Valid() && passivePanes.Valid()
      && Tidy(pending)
      && pending == Pending(pending.out, control.Model(), focusedPanes.Model(true),
                            if pendingScreen.None? then [] else [ScreenUpdate(pendingScreen.value)],
                            passivePanes.Model(false))
      && frames == FramesOf(pending.out)
      && counts == Counts(messageCount, screenUpdates, emittedScreenFrames,
                          focusedPanes.coalesced + passivePanes.coalesced, coalescedControlFrames)
    }

    constructor (coalesce: bool)
      ensures Valid() && fresh(Repr()) && coalesceScreens == coalesce
      ensures pending == NOTHING && counts == NO_COUNTS
    {
      coalesceScreens := coalesce;
      control := new PendingOutboundFrames();
      focusedPanes := new PendingPaneFrames();
      passivePanes := new PendingPaneFrames();
      frames, pendingScreen := [], None;
      messageCount, screenUpdates, emittedScreenFrames, coalescedControlFrames := 0, 0, 0, 0;
      pending, counts := NOTHING, NO_COUNTS;
    }

    method FlushControl()
      requires Valid()
      modifies this, control
      ensures Valid() && counts == old(counts)
      ensures pending == old(pending).(out := old(pending).out + old(pending).control, control := [])
    {
      FramesOfAppend(pending.out, pending.control);
      var flushed := control.TakeAll();
      frames := frames + flushed;
      pending := pending.(out := pending.out + pending.control, control := []);
    }

    method FlushScreen()
      requires Valid()
      modifies this
      ensures Valid()
      ensures pending == old(pending).(out := old(pending).out + old(pending).screen, screen := [])
      ensures counts == old(counts).(emittedScreens := old(counts).emittedScreens + |old(pending).screen|)
    {
      FramesOfAppend(pending.out, pending.screen);
      counts := counts.(emittedScreens := counts.emittedScreens + |pending.screen|);
      if pendingScreen.Some? {
        frames := frames + [pendingScreen.value];
        pendingScreen := None;
        emittedScreenFrames := emittedScreenFrames + 1;
      } else {
        assert pending.out + [] == pending.out;
      }
      pending := pending.(out := pending.out + pending.screen, screen := []);
    }

    method FlushPanes(focused: bool)
      requires Valid()
      modifies this, focusedPanes, passivePanes
      ensures Valid() && counts == old(counts)
      ensures pending == if focused
                         then old(pending).(out := old(pending).out + old(pending).focused, focused := [])
                         else old(pending).(out := old(pending).out + old(pending).passive, passive := [])
    {
      if focused {
        FramesOfAppend(pending.out, pending.focused);
        var flushed := focusedPanes.TakeAll(true);
        frames := frames + flushed;
        pending := pending.(out := pending.out + pending.focused, focused := []);
      } else {
        FramesOfAppend(pending.out, pending.passive);
        var flushed := passivePanes.TakeAll(false);
        frames := frames + flushed;
        pending := pending.(out := pending.out + pending.passive, passive := []);
      }
    }

    /** `flush_pane_updates`: focused panes, the screen, passive panes. */
    method FlushPaneUpdates()
      requires Valid()
      modifies this, focusedPanes, passivePanes
      ensures Valid()
      ensures pending == Pending(old(pending).out + Screens(old(pending)), old(pending).control, [], [], [])
      ensures counts == old(counts).(emittedScreens := old(counts).emittedScreens + |old(pending).screen|)
    {
      ghost var p := pending;
      FlushPanes(true);
      FlushScreen();
      FlushPanes(false);
      assert p.out + p.focused + p.screen + p.passive == p.out + Screens(p);
    }

    method Emit(ghost m: OutboundMessage, frame: seq<byte>)
      requires Valid() && m.bytes == frame
      modifies this
      ensures Valid() && counts == old(counts)
      ensures pending == old(pending).(out := old(pending).out + [m])
    {
      FramesOfAppend(pending.out, [m]);
      frames := frames + [frame];
      pending := pending.(out := pending.out + [m]);
    }

    method PushFrame(frame: seq<byte>)
      requires Valid()
      modifies Repr()
      ensures Valid() && pending == Batcher.Push(old(pending), Frame(frame), coalesceScreens)
      ensures counts == Count(old(counts), old(pending), Frame(frame), coalesceScreens)
    {
      hide Tidy, PriorityFrame, CoalescibleKind, Put, Holds;
      ghost var p, m := pending, Frame(frame);
      PushTidy(p, m, coalesceScreens);
      messageCount := messageCount + 1;
      counts := counts.(messages := counts.messages + 1);
      var kind := CoalescibleKind(frame);
      if kind.Some? {
        if control.Slot(kind.value).Some? {
          coalescedControlFrames := coalescedControlFrames + 1;
        }
        control.Set(kind.value, frame);
        counts := Count(old(counts), p, m, coalesceScreens);
        pending := pending.(control := control.Model());
        return;
      }
      FlushControl();
      if PriorityFrame(frame) {
        Emit(m, frame);
        return;
      }
      FlushPaneUpdates();
      Emit(m, frame);
      assert p.out + p.control + Screens(p) == Everything(p);
    }

    method PushScreen(frame: seq<byte>)
      requires Valid()
      modifies Repr()
      ensures Valid() && pending == Batcher.Push(old(pending), ScreenUpdate(frame), coalesceScreens)
      ensures counts == Count(old(counts), old(pending), ScreenUpdate(frame), coalesceScreens)
    {
      hide Tidy;
      PushTidy(pending, ScreenUpdate(frame), coalesceScreens);
      messageCount := messageCount + 1;
      screenUpdates := screenUpdates + 1;
      counts := counts.(messages := counts.messages + 1, screenUpdates := counts.screenUpdates + 1);
      if coalesceScreens {
        pendingScreen := Some(frame);
        pending := pending.(screen := [ScreenUpdate(frame)]);
      } else {
        FlushControl();
        FlushScreen();
        Emit(ScreenUpdate(frame), frame);
        emittedScreenFrames := emittedScreenFrames + 1;
        counts := counts.(emittedScreens := counts.emittedScreens + 1);
      }
    }

    method PushPane(paneId: u64, focused: bool, frame: seq<byte>)
      requires Valid()
      modifies Repr()
      ensures Valid() && pending == Batcher.Push(old(pending), PaneUpdate(paneId, focused, frame), coalesceScreens)
      ensures counts == Count(old(counts), old(pending), PaneUpdate(paneId, focused, frame), coalesceScreens)
    {
      hide Tidy, Put, Holds;
      ghost var p, m := pending, PaneUpdate(paneId, focused, frame);
      PushTidy(p, m, coalesceScreens);
      messageCount := messageCount + 1;
      counts := counts.(messages := counts.messages + 1);
      if focused {
        focusedPanes.Set(paneId, frame, true);
        counts := Count(old(counts), p, m, coalesceScreens);
        pending := pending.(focused := focusedPanes.Model(true));
      } else if coalesceScreens {
        passivePanes.Set(paneId, frame, false);
        counts := Count(old(counts), p, m, coalesceScreens);
        pending := pending.(passive := passivePanes.Model(false));
      } else {
        FlushControl();
        FlushPaneUpdates();
        Emit(m, frame);
        assert p.out + p.control + Screens(p) == Everything(p);
      }
    }

    /** The closure itself. */
    method Push(message: OutboundMessage)
      requires Valid()
      modifies Repr()
      ensures Valid() && pending == Batcher.Push(old(pending), message, coalesceScreens)
      ensures counts == Count(old(counts), old(pending), message, coalesceScreens)
    {
      hide Tidy;
      match message {
        case Frame(frame) => PushFrame(frame);
        case ScreenUpdate(frame) => PushScreen(frame);
        case PaneUpdate(paneId, focused, frame) => PushPane(paneId, focused, frame);
      }
    }

    method Finish() returns (batch: OutboundBatch)
      requires Valid()
      modifies Repr()
      ensures batch.frames == FramesOf(Everything(old(pending)))
      ensures var c := old(counts);
              && batch.messageCount == c.messages && batch.coalescedPaneUpdates == c.coalescedPanes
              && batch.coalescedControlFrames == c.coalescedControl
              && batch.coalescedScreenUpdates
                 == SaturatingSub(c.screenUpdates, c.emittedScreens + |old(pending).screen|)
    {
      hide Tidy;
      ghost var p := pending;
      FlushControl();
      FlushPaneUpdates();
      assert p.out + p.control + Screens(p) == Everything(p);
      batch := OutboundBatch(frames, messageCount, SaturatingSub(screenUpdates, emittedScreenFrames),
                             focusedPanes.coalesced + passivePanes.coalesced, coalescedControlFrames);
    }
  }

  /** `collect_outbound_batch`: the first message, then everything the channel still holds. */
  method CollectOutboundBatch(first: OutboundMessage, queued: seq<OutboundMessage>, coalesce: bool)
    returns (batch: OutboundBatch)
    ensures batch == Batch([first] + queued, coalesce)
  {
    hide Batcher.Push, Count, Tidy;
    ghost var ms := [first] + queued;
    var collector := new Collector(coalesce);
    assert ms[..1] == [first] && [first][..0] == [];
    collector.Push(first);
    for i := 0 to |queued|
      invariant collector.Valid() && fresh(collector.Repr()) && collector.coalesceScreens == coalesce
      invariant collector.pending == PushAll(NOTHING, ms[..i + 1], coalesce)
      invariant collector.counts == CountAll(ms[..i + 1], coalesce)
    {
      assert ms[..i + 2][..i + 1] == ms[..i + 1];
      collector.Push(queued[i]);
    }
    assert ms[..|queued| + 1] == ms;
    batch := collector.Finish();
  }
}
