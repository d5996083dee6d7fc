/** The outbound batcher: pending buffers, priorities, barriers and coalescing. */
module Batcher {
  import opened Bytes
  import opened Framing
  import opened RemoteState

  // ---- classifying frames ----

  function FrameType(frame: seq<byte>): Option<MessageType> {
    if |frame| > 2 && KnownType(frame[2]) then Some(frame[2]) else None
  }

  /** The frames that overtake screens. */
  predicate PriorityFrame(frame: seq<byte>) {
    var ty := FrameType(frame);
    ty == Some(AUTH_OK) || ty == Some(AUTH_FAIL) || ty == Some(ERROR_MSG) || ty == Some(HEARTBEAT_ACK)
    || ty == Some(TAB_CREATED)
  }

  function CoalescibleKind(frame: seq<byte>): Option<ControlKind> {
    var ty := FrameType(frame);
    if ty == Some(TAB_LIST) then Some(TabListKind)
    else if ty == Some(UI_RUNTIME_STATE) then Some(RuntimeStateKind)
    else if ty == Some(UI_APPEARANCE) then Some(AppearanceKind)
    else None
  }

  /** What supersedes what: a message only ever replaces an older one of its own lane. */
  datatype Lane = ControlLane(kind: ControlKind) | ScreenLane | PaneLane(paneId: u64, focused: bool) | DirectLane

  function LaneOf(m: OutboundMessage): Lane {
    match m
    case Frame(bytes) =>
      var kind := CoalescibleKind(bytes);
      if kind.Some? then ControlLane(kind.value) else DirectLane
    case ScreenUpdate(_) => ScreenLane
    case PaneUpdate(paneId, focused, _) => PaneLane(paneId, focused)
  }

  /** The pending buffer a lane lives in. */
  datatype Group = ControlGroup | FocusedGroup | ScreenGroup | PassiveGroup | NoGroup

  function GroupOf(lane: Lane): Group {
    match lane
    case ControlLane(_) => ControlGroup
    case ScreenLane => ScreenGroup
    case PaneLane(_, focused) => if focused then FocusedGroup else PassiveGroup
    case DirectLane => NoGroup
  }

  predicate Priority(m: OutboundMessage) {
    m.Frame? && LaneOf(m) == DirectLane && PriorityFrame(m.bytes)
  }

  predicate Barrier(m: OutboundMessage) {
    m.Frame? && LaneOf(m) == DirectLane && !PriorityFrame(m.bytes)
  }

  // ---- pending buffers ----

  predicate Holds(pending: seq<OutboundMessage>, lane: Lane) {
    exists i :: 0 <= i < |pending| && LaneOf(pending[i]) == lane
  }

  /** A message takes the place of its lane's pending one, or queues up behind. */
  function Put(pending: seq<OutboundMessage>, m: OutboundMessage): (r: seq<OutboundMessage>)
    ensures |r| == |pending| + if Holds(pending, LaneOf(m)) then 0 else 1
  {
    if pending == [] then [m]
    else if LaneOf(pending[0]) == LaneOf(m) then [m] + pending[1..]
    else [pending[0]] + Put(pending[1..], m)
  }

  datatype Pending = Pending(
    out: seq<OutboundMessage>, control: seq<OutboundMessage>, focused: seq<OutboundMessage>,
    screen: seq<OutboundMessage>, passive: seq<OutboundMessage>)

  const NOTHING: Pending := Pending([], [], [], [], [])

  /** Flushing order of the screens and panes. */
  function Screens(p: Pending): seq<OutboundMessage> {
    p.focused + p.screen + p.passive
  }

  /** Everything emitted or pending, in the order the end of the batch would emit it. */
  function Everything(p: Pending): seq<OutboundMessage> {
    p.out + p.control + Screens(p)
  }

  function Push(p: Pending, m: OutboundMessage, coalesce: bool): Pending {
    match m
    case Frame(bytes) =>
      if LaneOf(m).ControlLane? then p.(control := Put(p.control, m))
      else if PriorityFrame(bytes) then p.(out := p.out + p.control + [m], control := [])
      else NOTHING.(out := Everything(p) + [m])
    case ScreenUpdate(_) =>
      if coalesce then p.(screen := [m])
      else p.(out := p.out + p.control + p.screen + [m], control := [], screen := [])
    case PaneUpdate(_, focused, _) =>
      if focused then p.(focused := Put(p.focused, m))
      else if coalesce then p.(passive := Put(p.passive, m))
      else NOTHING.(out := Everything(p) + [m])
  }

  function PushAll(p: Pending, ms: seq<OutboundMessage>, coalesce: bool): Pending {
    if ms == [] then p else Push(PushAll(p, ms[..|ms| - 1], coalesce), ms[|ms| - 1], coalesce)
  }

  /** The messages a batch emits, in order. */
  function Emitted(ms: seq<OutboundMessage>, coalesce: bool): seq<OutboundMessage> {
    Everything(PushAll(NOTHING, ms, coalesce))
  }

  datatype Counts = Counts(messages: nat, screenUpdates: nat, emittedScreens: nat, coalescedPanes: nat,
                           coalescedControl: nat)

  const NO_COUNTS: Counts := Counts(0, 0, 0, 0, 0)

  function Count(c: Counts, p: Pending, m: OutboundMessage, coalesce: bool): Counts {
    var c := c.(messages := c.messages + 1);
    match m
    case Frame(bytes) =>
      if LaneOf(m).ControlLane?
      then c.(coalescedControl := c.coalescedControl + if Holds(p.control, LaneOf(m)) then 1 else 0)
      else if PriorityFrame(bytes) then c
      else c.(emittedScreens := c.emittedScreens + |p.screen|)
    case ScreenUpdate(_) =>
      var c := c.(screenUpdates := c.screenUpdates + 1);
      if coalesce then c else c.(emittedScreens := c.emittedScreens + |p.screen| + 1)
    case PaneUpdate(_, focused, _) =>
      if focused then c.(coalescedPanes := c.coalescedPanes + if Holds(p.focused, LaneOf(m)) then 1 else 0)
      else if coalesce then c.(coalescedPanes := c.coalescedPanes + if Holds(p.passive, LaneOf(m)) then 1 else 0)
      else c.(emittedScreens := c.emittedScreens + |p.screen|)
  }

  function CountAll(ms: seq<OutboundMessage>, coalesce: bool): Counts {
    if ms == [] then NO_COUNTS
    else
      var before := ms[..|ms| - 1];
      Count(CountAll(before, coalesce), PushAll(NOTHING, before, coalesce), ms[|ms| - 1], coalesce)
  }

  datatype OutboundBatch = OutboundBatch(
    frames: seq<seq<byte>>, messageCount: nat, coalescedScreenUpdates: nat, coalescedPaneUpdates: nat,
    coalescedControlFrames: nat)

  function FramesOf(ms: seq<OutboundMessage>): (r: seq<seq<byte>>)
    ensures |r| == |ms|
  {
    seq(|ms|, i requires 0 <= i < |ms| => ms[i].bytes)
  }

  function SaturatingSub(a: nat, b: nat): nat {
    if a < b then 0 else a - b
  }

  /** `collect_outbound_batch` on everything the channel held. */
  function Batch(ms: seq<OutboundMessage>, coalesce: bool): OutboundBatch {
    var c, p := CountAll(ms, coalesce), PushAll(NOTHING, ms, coalesce);
    OutboundBatch(FramesOf(Everything(p)), c.messages,
                  SaturatingSub(c.screenUpdates, c.emittedScreens + |p.screen|),
                  c.coalescedPanes, c.coalescedControl)
  }
}
