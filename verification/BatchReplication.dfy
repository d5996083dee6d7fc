/** The batcher in front of a client: draining what a batch emits against draining what went in. */
module BatchReplication {
  import opened Bytes
  import opened Grid
  import opened Framing
  import opened WireEncode
  import opened WireDecode
  import opened Snapshot
  import opened DeltaRefinement
  import opened ClientGui
  import opened RemoteState
  import opened RowStamps
  import opened Replication
  import opened Batcher
  import opened BatchOrder
  import opened PaneOrder
  import opened Changes
  import opened BatchScreen

  // ---- one pane of a draining client ----

  function EventOf(bytes: seq<byte>, json: Json): Event {
    var r := ReadMessage(bytes);
    if r.Read? then DecodeEvent(r.message, json) else Other
  }

  lemma ReceiveEvent(d: App, bytes: seq<byte>, json: Json)
    ensures Receive(d, bytes, json) == Handle(d, EventOf(bytes, json))
  {
    hide ReadMessage, DecodeEvent;
  }

  /** What a frame is judged by: revisions, focus, theme. */
  datatype Footing = Footing(runtimeRevision: u64, viewRevision: u64, focusedPaneId: u64, theme: Theme)

  function FootingOf(a: App): Footing {
    Footing(a.runtimeRevision, a.viewRevision, a.focusedPaneId, a.theme)
  }

  function NextFooting(f: Footing, e: Event): Footing {
    match e
    case RuntimeState(s) => Footing(s.runtimeRevision, s.viewRevision, s.focusedPane, f.theme)
    case Appearance(t) => f.(theme := t)
    case _ => f
  }

  predicate FullPasses(revision: u64, current: u64) {
    !(revision != 0 && revision < current)
  }

  predicate DeltaPasses(revision: u64, current: u64) {
    !(revision != 0 && revision != current)
  }

  /** What an event of the stream does to one pane of a client on this footing. */
  function ChangeBy(e: Event, paneId: u64, f: Footing): Change {
    match e
    case RuntimeState(s) => if f.viewRevision != 0 && s.viewRevision != f.viewRevision then Drop else Keep
    case PaneFull(q, revision, grid) =>
      if q == paneId && FullPasses(revision, f.runtimeRevision) then Draw(Picture(Render(grid, 0, f.theme))) else Keep
    case PaneDelta(q, revision, delta) =>
      if q == paneId && DeltaPasses(revision, f.runtimeRevision) then Amend(delta) else Keep
    case FullScreen(grid) =>
      if f.focusedPaneId != 0 && f.focusedPaneId == paneId then Draw(Picture(Render(grid, 0, f.theme))) else Keep
    case ScreenDelta(delta) => if f.focusedPaneId == paneId then Amend(delta) else Keep
    case _ => Keep
  }

  function FootingAfter(f: Footing, ms: seq<OutboundMessage>, json: Json): Footing {
    if ms == [] then f else NextFooting(FootingAfter(f, ms[..|ms| - 1], json), EventOf(ms[|ms| - 1].bytes, json))
  }

  /** What a sequence of messages does to one pane, message by message. */
  function Trace(f: Footing, ms: seq<OutboundMessage>, paneId: u64, json: Json): (cs: seq<Change>)
    ensures |cs| == |ms|
  {
    if ms == [] then []
    else
      var before := ms[..|ms| - 1];
      Trace(f, before, paneId, json)
      + [ChangeBy(EventOf(ms[|ms| - 1].bytes, json), paneId, FootingAfter(f, before, json))]
  }

  /** The server never asks for a scroll. */
  predicate NoScroll(m: OutboundMessage, json: Json) {
    match EventOf(m.bytes, json)
    case PaneDelta(_, _, delta) => delta.scrollRows == 0
    case ScreenDelta(delta) => delta.scrollRows == 0
    case _ => true
  }

  predicate NoScrolls(ms: seq<OutboundMessage>, json: Json) {
    forall i :: 0 <= i < |ms| ==> NoScroll(ms[i], json)
  }

  /** Whatever arrives on the stream is whole, and no UI snapshot. */
  predicate FromStream(e: Event) {
    match e
    case PaneFull(_, _, grid) => grid.WellFormed()
    case FullScreen(grid) => grid.WellFormed()
    case UiSnapshot(_, _, _) => false
    case _ => true
  }

  lemma StreamEvents(bytes: seq<byte>, json: Json)
    ensures FromStream(EventOf(bytes, json))
  {
    hide ReadMessage, DecodeFull, DecodeDelta;
    var r := ReadMessage(bytes);
    if r.Read? {
      var payload := r.message.payload;
      DecodedGridsAreWhole(payload);
      if |payload| >= PANE_HEADER_LEN {
        DecodedGridsAreWhole(payload[PANE_HEADER_LEN..]);
      }
    }
  }

  lemma ChangeByOrderly(e: Event, paneId: u64, f: Footing)
    requires FromStream(e) && (e.PaneDelta? || e.ScreenDelta? ==> e.delta.scrollRows == 0)
    ensures Orderly(ChangeBy(e, paneId, f))
  {
    hide RenderChunks;
    match e
    case PaneFull(_, _, grid) => RenderRows(grid, 0, f.theme);
    case FullScreen(grid) => RenderRows(grid, 0, f.theme);
    case _ =>
  }

  lemma {:induction false} TraceOrderly(f: Footing, ms: seq<OutboundMessage>, paneId: u64, json: Json)
    requires NoScrolls(ms, json)
    ensures AllOrderly(Trace(f, ms, paneId, json))
  {
    hide EventOf, Orderly, ChangeBy, FromStream;
    if ms == [] {
    } else {
      var before, m := ms[..|ms| - 1], ms[|ms| - 1];
      TraceOrderly(f, before, paneId, json);
      assert NoScroll(m, json);
      StreamEvents(m.bytes, json);
      ChangeByOrderly(EventOf(m.bytes, json), paneId, FootingAfter(f, before, json));
    }
  }

  /** A pane as it looks, stamps aside. */
  function PictureAt(a: App, paneId: u64): Screen {
    if paneId in a.panes then Some(Picture(a.panes[paneId])) else None
  }

  lemma {:induction false} RowsIgnoreStamps(a: Rows, b: Rows, d: seq<RowDelta>, cols: nat)
    requires |a.revisions| == |a.data| && |b.revisions| == |b.data| && a.data == b.data
    ensures ApplyRows(a, d, cols).data == ApplyRows(b, d, cols).data
  {
    hide PatchRow, PadRow;
    if d == [] {
    } else {
      RowsIgnoreStamps(a, b, d[..|d| - 1], cols);
    }
  }

  lemma DeltaIgnoresStamps(s: TerminalSnapshot, d: RemoteDelta)
    requires d.scrollRows == 0
    ensures Picture(ApplyDelta(s, d)) == Picture(ApplyDelta(Picture(s), d))
  {
    RowsIgnoreStamps(StartRows(s, d), StartRows(Picture(s), d), d.changedRows, s.cols);
  }

  lemma EventStep(d: App, e: Event, paneId: u64)
    requires FromStream(e) && (e.PaneDelta? || e.ScreenDelta? ==> e.delta.scrollRows == 0)
    ensures FootingOf(Handle(d, e)) == NextFooting(FootingOf(d), e)
    ensures PictureAt(Handle(d, e), paneId) == Make(PictureAt(d, paneId), ChangeBy(e, paneId, FootingOf(d)))
  {
    hide ApplyDelta, RenderChunks;
    match e
    case PaneDelta(q, _, delta) => if q in d.panes { DeltaIgnoresStamps(d.panes[q], delta); }
    case ScreenDelta(delta) => if d.focusedPaneId in d.panes { DeltaIgnoresStamps(d.panes[d.focusedPaneId], delta); }
    case _ =>
  }

  /** A drained client is on the footing the messages leave, and shows of each pane what they do to
      it, one after the other. */
  lemma {:induction false} DrainedPane(app: App, out: seq<OutboundMessage>, paneId: u64, json: Json)
    requires NoScrolls(out, json)
    ensures var d, f := Drain(app, out, json), FootingOf(app);
            && FootingOf(d) == FootingAfter(f, out, json)
            && PictureAt(d, paneId) == MakeAll(PictureAt(app, paneId), Trace(f, out, paneId, json))
  {
    hide Receive, Make, ChangeBy, EventOf, NextFooting, Handle, FromStream;
    if out == [] {
    } else {
      var before, m := out[..|out| - 1], out[|out| - 1];
      DrainedPane(app, before, paneId, json);
      assert NoScroll(m, json);
      StreamEvents(m.bytes, json);
      ReceiveEvent(Drain(app, before, json), m.bytes, json);
      EventStep(Drain(app, before, json), EventOf(m.bytes, json), paneId);
      assert Trace(FootingOf(app), out, paneId, json)[..|out| - 1] == Trace(FootingOf(app), before, paneId, json);
    }
  }

  // ---- any batch ----

  lemma EmittedScrollsNot(ms: seq<OutboundMessage>, coalesce: bool, json: Json)
    requires NoScrolls(ms, json)
    ensures NoScrolls(Emitted(ms, coalesce), json)
  {
    hide NoScroll, Everything, PushAll;
    EmittedContents(ms, coalesce);
    var o := Emitted(ms, coalesce);
    forall i | 0 <= i < |o| ensures NoScroll(o[i], json) {
      assert o[i] in multiset(o);
      assert o[i] in ms;
    }
  }

  /** After either queue has drained into a client on this footing, the pane looks the same. */
  ghost predicate DrainAlike(ms: seq<OutboundMessage>, coalesce: bool, paneId: u64, json: Json, f: Footing) {
    forall app: App :: FootingOf(app) == f && Proper(PictureAt(app, paneId)) ==>
      PictureAt(Drain(app, Emitted(ms, coalesce), json), paneId) == PictureAt(Drain(app, ms, json), paneId)
  }

  function ClientWith(s: Screen, paneId: u64, f: Footing): App {
    App(if s.Some? then map[paneId := s.value] else map[], f.runtimeRevision, f.viewRevision, f.focusedPaneId, f.theme,
        1, 2, 1)
  }

  lemma AlikeFromDrains(s: Screen, ms: seq<OutboundMessage>, coalesce: bool, paneId: u64, json: Json, f: Footing)
    requires NoScrolls(ms, json) && DrainAlike(ms, coalesce, paneId, json, f) && Proper(s) && Unstamped(s)
    ensures MakeAll(s, Trace(f, Emitted(ms, coalesce), paneId, json)) == MakeAll(s, Trace(f, ms, paneId, json))
  {
    hide Drain, Everything, PushAll, Trace, NoScrolls, MakeAll, Proper, FootingAfter;
    var app := ClientWith(s, paneId, f);
    assert PictureAt(app, paneId) == s && FootingOf(app) == f;
    EmittedScrollsNot(ms, coalesce, json);
    DrainedPane(app, Emitted(ms, coalesce), paneId, json);
    DrainedPane(app, ms, paneId, json);
  }

  /** For any batch whatever, panes and screens of any number, focus changes, runtime states and
      appearances, priorities and barriers, either setting: a pane of every client on a footing ends up
      looking the same, batched and unbatched, exactly when what is emitted does to it what came in
      does. */
  lemma BatchedDrainExactly(ms: seq<OutboundMessage>, coalesce: bool, paneId: u64, json: Json, f: Footing)
    requires NoScrolls(ms, json)
    ensures DrainAlike(ms, coalesce, paneId, json, f)
            <==> SameOutcome(Trace(f, Emitted(ms, coalesce), paneId, json), Trace(f, ms, paneId, json))
  {
    hide Drain, Everything, PushAll, Trace, NoScrolls, MakeAll, Proper, SameOutcome, AllOrderly, FootingAfter;
    var o := Emitted(ms, coalesce);
    var a, b := Trace(f, o, paneId, json), Trace(f, ms, paneId, json);
    EmittedScrollsNot(ms, coalesce, json);
    TraceOrderly(f, o, paneId, json);
    TraceOrderly(f, ms, paneId, json);
    if SameOutcome(a, b) {
      forall app: App | FootingOf(app) == f && Proper(PictureAt(app, paneId))
        ensures PictureAt(Drain(app, o, json), paneId) == PictureAt(Drain(app, ms, json), paneId)
      {
        DrainedPane(app, o, paneId, json);
        DrainedPane(app, ms, paneId, json);
        OutcomeSuffices(PictureAt(app, paneId), a, b);
      }
    } else if DrainAlike(ms, coalesce, paneId, json, f) {
      forall s: Screen | Proper(s) && Unstamped(s) ensures MakeAll(s, a) == MakeAll(s, b) {
        AlikeFromDrains(s, ms, coalesce, paneId, json, f);
      }
      OutcomeNecessary(a, b);
    }
  }

  // ---- a batch of pane updates ----

  /** A pane update carries an update of its own pane, or nothing; no other message reaches a
      snapshot. */
  predicate Plain(m: OutboundMessage, json: Json) {
    match EventOf(m.bytes, json)
    case PaneFull(q, _, _) => IsPane(m, q)
    case PaneDelta(q, _, delta) => IsPane(m, q) && delta.scrollRows == 0
    case Other => true
    case _ => false
  }

  predicate AllPlain(ms: seq<OutboundMessage>, json: Json) {
    forall i :: 0 <= i < |ms| ==> Plain(ms[i], json)
  }

  function UpdateOf(e: Event, paneId: u64, current: u64): Update {
    match e
    case PaneFull(q, revision, grid) =>
      if q == paneId && FullPasses(revision, current) && grid.WellFormed() then Full(grid) else NoUpdate
    case PaneDelta(q, revision, delta) =>
      if q == paneId && DeltaPasses(revision, current) && delta.scrollRows == 0 then Patch(delta) else NoUpdate
    case _ => NoUpdate
  }

  function DecoderOf(json: Json, paneId: u64, current: u64): Decoder {
    bytes => UpdateOf(EventOf(bytes, json), paneId, current)
  }

  lemma DecoderGood(json: Json, paneId: u64, current: u64)
    ensures forall b :: Good(DecoderOf(json, paneId, current)(b))
  {
    hide EventOf;
  }

  lemma PlainChange(f: Footing, m: OutboundMessage, paneId: u64, json: Json)
    requires Plain(m, json)
    ensures NoScroll(m, json) && NextFooting(f, EventOf(m.bytes, json)) == f
    ensures ChangeBy(EventOf(m.bytes, json), paneId, f)
            == ChangeOf(DecoderOf(json, paneId, f.runtimeRevision)(m.bytes), f.theme)
    ensures !IsPane(m, paneId) ==> ChangeBy(EventOf(m.bytes, json), paneId, f) == Keep
  {
    hide EventOf, Render;
    StreamEvents(m.bytes, json);
  }

  lemma {:induction false} PlainTrace(f: Footing, s: Screen, ms: seq<OutboundMessage>, paneId: u64, json: Json)
    requires AllPlain(ms, json)
    ensures NoScrolls(ms, json) && FootingAfter(f, ms, json) == f
    ensures MakeAll(s, Trace(f, ms, paneId, json))
            == ShowAll(s, OfPane(ms, paneId), DecoderOf(json, paneId, f.runtimeRevision), f.theme)
  {
    hide EventOf, Plain, ChangeBy, ChangeOf, DecoderOf, IsPane, NoScroll, NextFooting;
    if ms == [] {
    } else {
      var before, m := ms[..|ms| - 1], ms[|ms| - 1];
      var decode := DecoderOf(json, paneId, f.runtimeRevision);
      PlainTrace(f, s, before, paneId, json);
      PlainChange(f, m, paneId, json);
      assert Trace(f, ms, paneId, json)[..|ms| - 1] == Trace(f, before, paneId, json);
      assert OfPane(before, paneId) + [] == OfPane(before, paneId);
      if IsPane(m, paneId) {
        ShowOne(s, OfPane(before, paneId), m, decode, f.theme);
      }
    }
  }

  lemma EmittedPlain(ms: seq<OutboundMessage>, coalesce: bool, json: Json)
    requires AllPlain(ms, json)
    ensures AllPlain(Emitted(ms, coalesce), json)
  {
    hide Plain, Everything, PushAll;
    EmittedContents(ms, coalesce);
    var o := Emitted(ms, coalesce);
    forall i | 0 <= i < |o| ensures Plain(o[i], json) {
      assert o[i] in multiset(o);
      assert o[i] in ms;
    }
  }

  /** When nothing but pane updates reaches a snapshot, only the pane's own updates count: what is
      emitted of them has to have the effect of all of them. */
  lemma PaneUpdatesExactly(ms: seq<OutboundMessage>, coalesce: bool, paneId: u64, json: Json, f: Footing)
    requires AllPlain(ms, json)
    ensures DrainAlike(ms, coalesce, paneId, json, f)
            <==> SameEffect(OfPane(Emitted(ms, coalesce), paneId), OfPane(ms, paneId),
                            DecoderOf(json, paneId, f.runtimeRevision), f.theme)
  {
    hide DrainAlike, Everything, PushAll, Trace, MakeAll, Proper, SameOutcome, SameEffect, AllOrderly, AllPlain, OfPane,
         DecoderOf, ShowAll, FootingAfter, NoScrolls;
    var o, decode := Emitted(ms, coalesce), DecoderOf(json, paneId, f.runtimeRevision);
    EmittedPlain(ms, coalesce, json);
    DecoderGood(json, paneId, f.runtimeRevision);
    forall s: Screen
      ensures MakeAll(s, Trace(f, o, paneId, json)) == ShowAll(s, OfPane(o, paneId), decode, f.theme)
      ensures MakeAll(s, Trace(f, ms, paneId, json)) == ShowAll(s, OfPane(ms, paneId), decode, f.theme)
    {
      PlainTrace(f, s, o, paneId, json);
      PlainTrace(f, s, ms, paneId, json);
    }
    PlainTrace(f, None, ms, paneId, json);
    PlainTrace(f, None, o, paneId, json);
    BatchedDrainExactly(ms, coalesce, paneId, json, f);
    TraceOrderly(f, o, paneId, json);
    TraceOrderly(f, ms, paneId, json);
    OutcomeExactly(Trace(f, o, paneId, json), Trace(f, ms, paneId, json));
    EffectExactly(OfPane(o, paneId), OfPane(ms, paneId), decode, f.theme);
  }

  // ---- the states in a batch ----

  const STATES: Lane := ControlLane(RuntimeStateKind)
  const LOOKS: Lane := ControlLane(AppearanceKind)

  /** The frames of a control kind are those that decode to it. */
  predicate Decodes(m: OutboundMessage, json: Json) {
    && (EventOf(m.bytes, json).RuntimeState? <==> LaneOf(m) == STATES)
    && (EventOf(m.bytes, json).Appearance? <==> LaneOf(m) == LOOKS)
  }

  predicate AllDecode(ms: seq<OutboundMessage>, json: Json) {
    forall i :: 0 <= i < |ms| ==> Decodes(ms[i], json)
  }

  /** The footing that the last runtime state and the last appearance leave. */
  function Final(f: Footing, states: seq<OutboundMessage>, looks: seq<OutboundMessage>, json: Json): Footing {
    var g := if states == [] then f else NextFooting(f, EventOf(states[|states| - 1].bytes, json));
    g.(theme := if looks == [] then f.theme else NextFooting(f, EventOf(looks[|looks| - 1].bytes, json)).theme)
  }

  lemma {:induction false} FootingByLanes(f: Footing, ms: seq<OutboundMessage>, json: Json)
    requires AllDecode(ms, json)
    ensures FootingAfter(f, ms, json) == Final(f, InLane(ms, STATES), InLane(ms, LOOKS), json)
  {
    hide EventOf, LaneOf;
    if ms == [] {
    } else {
      var before, m := ms[..|ms| - 1], ms[|ms| - 1];
      FootingByLanes(f, before, json);
      assert Decodes(m, json);
      assert InLane(before, STATES) + [] == InLane(before, STATES);
      assert InLane(before, LOOKS) + [] == InLane(before, LOOKS);
    }
  }

  lemma SameLast(o: seq<OutboundMessage>, i: seq<OutboundMessage>)
    requires Thinned(o, i)
    ensures (o == [] <==> i == []) && (i != [] ==> o[|o| - 1] == i[|i| - 1])
  {
    if i == [] {
      NothingIn(o);
    }
  }

  lemma EmittedDecode(ms: seq<OutboundMessage>, coalesce: bool, json: Json)
    requires AllDecode(ms, json)
    ensures AllDecode(Emitted(ms, coalesce), json)
  {
    hide Decodes, Everything, PushAll;
    EmittedContents(ms, coalesce);
    var o := Emitted(ms, coalesce);
    forall i | 0 <= i < |o| ensures Decodes(o[i], json) {
      assert o[i] in multiset(o);
      assert o[i] in ms;
    }
  }

  /** Whatever a batch coalesces and reorders, the client ends on the footing it would have ended on:
      same revisions, same focus, same theme. */
  lemma FootingKept(f: Footing, ms: seq<OutboundMessage>, coalesce: bool, json: Json)
    requires AllDecode(ms, json)
    ensures FootingAfter(f, Emitted(ms, coalesce), json) == FootingAfter(f, ms, json)
  {
    hide Everything, PushAll, InLane, AllDecode, FootingAfter, Thinned;
    EmittedDecode(ms, coalesce, json);
    FootingByLanes(f, ms, json);
    FootingByLanes(f, Emitted(ms, coalesce), json);
    LanesAreThinned(ms, coalesce, STATES);
    LanesAreThinned(ms, coalesce, LOOKS);
    SameLast(InLane(Emitted(ms, coalesce), STATES), InLane(ms, STATES));
    SameLast(InLane(Emitted(ms, coalesce), LOOKS), InLane(ms, LOOKS));
  }

  /** Neither a barrier nor a priority frame: nothing is let out before the end. */
  predicate Unbroken(ms: seq<OutboundMessage>) {
    forall i :: 0 <= i < |ms| ==> !Barrier(ms[i]) && !Priority(ms[i])
  }

  lemma {:induction false} NothingOut(ms: seq<OutboundMessage>)
    requires Unbroken(ms)
    ensures PushAll(NOTHING, ms, true).out == []
  {
    hide LaneOf, Put, PriorityFrame, Everything;
    if ms == [] {
    } else {
      var m := ms[|ms| - 1];
      NothingOut(ms[..|ms| - 1]);
      assert !Barrier(m) && !Priority(m);
      if m.Frame? {
        FrameLane(m);
      }
    }
  }

  lemma FrameLane(m: OutboundMessage)
    requires m.Frame?
    ensures LaneOf(m).ControlLane? || LaneOf(m) == DirectLane
  {
  }

  /** In an unbroken stretch with any number of updates and states, the states all overtake the
      updates: control frames come out first, and every pane and screen update that comes out is judged
      by the footing the last states leave. */
  lemma StatesGoFirst(f: Footing, ms: seq<OutboundMessage>, json: Json)
    requires Unbroken(ms) && AllDecode(ms, json)
    ensures var p := PushAll(NOTHING, ms, true);
            && Emitted(ms, true) == p.control + Screens(p)
            && (forall i :: 0 <= i < |p.control| ==> LaneOf(p.control[i]).ControlLane?)
            && (forall i :: 0 <= i < |Screens(p)| ==> !LaneOf(Screens(p)[i]).ControlLane?)
            && FootingAfter(f, p.control, json) == FootingAfter(f, ms, json)
  {
    var p := PushAll(NOTHING, ms, true);
    NothingOut(ms);
    PushAllTidy(ms, true);
    assert Everything(p) == p.control + Screens(p);
    TidyLanes(p);
    hide Everything, PushAll, FootingAfter, AllDecode, LaneOf, Screens, Tidy;
    FootingKept(f, ms, true, json);
    EmittedDecode(ms, true, json);
    LaterUpdates(f, p.control, Screens(p), json);
  }

  lemma TidyLanes(p: Pending)
    requires Tidy(p)
    ensures forall i :: 0 <= i < |p.control| ==> LaneOf(p.control[i]).ControlLane?
    ensures forall i :: 0 <= i < |Screens(p)| ==> !LaneOf(Screens(p)[i]).ControlLane?
  {
    hide LaneOf;
  }

  /** Updates do not move the footing. */
  lemma {:induction false} LaterUpdates(f: Footing, a: seq<OutboundMessage>, b: seq<OutboundMessage>, json: Json)
    requires AllDecode(a + b, json) && forall i :: 0 <= i < |b| ==> !LaneOf(b[i]).ControlLane?
    ensures FootingAfter(f, a + b, json) == FootingAfter(f, a, json)
  {
    hide EventOf, LaneOf;
    if b == [] {
      assert a + b == a;
    } else {
      var before := b[..|b| - 1];
      assert (a + b)[..|a + b| - 1] == a + before;
      assert forall i :: 0 <= i < |a + before| ==> (a + before)[i] == (a + b)[i];
      LaterUpdates(f, a, before, json);
      assert Decodes((a + b)[|a + b| - 1], json);
    }
  }

  // ---- a runtime state that overtakes ----

  /** Nothing tells the order of the two apart, on a client with these revisions. */
  ghost predicate OrderHidden(u: OutboundMessage, m: OutboundMessage, json: Json, current: u64, viewRevision: u64,
                              t: Theme)
    requires u.PaneUpdate?
  {
    forall app: App ::
      app.runtimeRevision == current && app.viewRevision == viewRevision && app.theme == t
      && Proper(PictureAt(app, u.paneId)) ==>
        PictureAt(Drain(app, [m, u], json), u.paneId) == PictureAt(Drain(app, [u, m], json), u.paneId)
  }

  lemma OvertakesPair(u: OutboundMessage, m: OutboundMessage)
    requires u.PaneUpdate? && m.Frame? && LaneOf(m).ControlLane?
    ensures Emitted([u, m], true) == [m, u]
  {
    hide PriorityFrame, CoalescibleKind;
    assert [u, m][..1] == [u] && [u][..0] == [];
    assert PushAll(NOTHING, [u], true) == Push(NOTHING, u, true);
    assert PushAll(NOTHING, [u, m], true) == Push(Push(NOTHING, u, true), m, true);
  }

  lemma DrainTwo(app: App, x: OutboundMessage, y: OutboundMessage, json: Json)
    ensures Drain(app, [x, y], json) == Handle(Handle(app, EventOf(x.bytes, json)), EventOf(y.bytes, json))
  {
    hide Receive, Handle, EventOf;
    assert [x, y][..1] == [x] && [x][..0] == [];
    assert Drain(app, [x], json) == Receive(Drain(app, [], json), x.bytes, json);
    ReceiveEvent(app, x.bytes, json);
    ReceiveEvent(Drain(app, [x], json), y.bytes, json);
  }

  /** The revision filter treats the update the same at both runtime revisions; or, when the view
      revision changes, the update does not put a pane back that has just been dropped. */
  predicate Indifferent(e: Event, state: UiRuntimeState, current: u64, viewRevision: u64)
    requires e.PaneFull? || e.PaneDelta?
  {
    if viewRevision != 0 && state.viewRevision != viewRevision then
      e.PaneFull? ==> !FullPasses(e.runtimeRevision, state.runtimeRevision)
    else if e.PaneFull? then
      FullPasses(e.runtimeRevision, current) == FullPasses(e.runtimeRevision, state.runtimeRevision)
    else DeltaPasses(e.runtimeRevision, current) == DeltaPasses(e.runtimeRevision, state.runtimeRevision)
  }

  /** A runtime state leaves a batch ahead of the pane updates queued before it. For one update and
      one state that is harmless on every client with the given revisions exactly when the update is
      indifferent to the state. */
  lemma OvertakingExactly(u: OutboundMessage, m: OutboundMessage, json: Json, current: u64, viewRevision: u64, t: Theme)
    requires u.PaneUpdate? && m.Frame? && LaneOf(m) == ControlLane(RuntimeStateKind)
    requires Plain(u, json) && EventOf(u.bytes, json) != Other && EventOf(m.bytes, json).RuntimeState?
    ensures Emitted([u, m], true) == [m, u]
    ensures EventOf(u.bytes, json).PaneFull? || EventOf(u.bytes, json).PaneDelta?
    ensures OrderHidden(u, m, json, current, viewRevision, t)
            <==> Indifferent(EventOf(u.bytes, json), EventOf(m.bytes, json).state, current, viewRevision)
  {
    OvertakesPair(u, m);
    var e, state := EventOf(u.bytes, json), EventOf(m.bytes, json).state;
    assert e.PaneFull? || e.PaneDelta?;
    assert (e.PaneFull? || e.PaneDelta?) && e.paneId == u.paneId;
    hide EventOf, Drain, LaneOf, Everything, PushAll, Plain;
    forall app: App
      ensures Drain(app, [m, u], json) == Handle(Handle(app, RuntimeState(state)), e)
      ensures Drain(app, [u, m], json) == Handle(Handle(app, e), RuntimeState(state))
    {
      DrainTwo(app, m, u, json);
      DrainTwo(app, u, m, json);
    }
    if Indifferent(e, state, current, viewRevision) {
      forall app: App | app.runtimeRevision == current && app.viewRevision == viewRevision && app.theme == t
        ensures PictureAt(Drain(app, [m, u], json), u.paneId) == PictureAt(Drain(app, [u, m], json), u.paneId)
      {
        IndifferentCommutes(app, e, state);
      }
    } else {
      var app := TellTale(e, current, viewRevision, t);
      ProperTellTale(e, current, viewRevision, t);
      DifferentOrder(app, e, state);
    }
  }

  lemma IndifferentCommutes(app: App, e: Event, state: UiRuntimeState)
    requires (e.PaneFull? || e.PaneDelta?) && Indifferent(e, state, app.runtimeRevision, app.viewRevision)
    ensures PictureAt(Handle(Handle(app, RuntimeState(state)), e), e.paneId)
            == PictureAt(Handle(Handle(app, e), RuntimeState(state)), e.paneId)
  {
    hide ApplyDelta, RenderChunks;
  }

  /** A client that shows the difference: without the pane for a full state, and with a cursor that
      the delta changes otherwise. */
  function TellTale(e: Event, current: u64, viewRevision: u64, t: Theme): App
    requires e.PaneFull? || e.PaneDelta?
  {
    var panes := if e.PaneFull? then map[]
                 else
                   var cursor := DeltaCursor(e.delta);
                   map[e.paneId := Filled(1, 1, ODD_CELL, cursor.(visible := !cursor.visible))];
    App(panes, current, viewRevision, 0, t, 1, 2, 1)
  }

  lemma ProperTellTale(e: Event, current: u64, viewRevision: u64, t: Theme)
    requires e.PaneFull? || e.PaneDelta?
    ensures Proper(PictureAt(TellTale(e, current, viewRevision, t), e.paneId))
  {
  }

  lemma DifferentOrder(app: App, e: Event, state: UiRuntimeState)
    requires (e.PaneFull? || e.PaneDelta?) && !Indifferent(e, state, app.runtimeRevision, app.viewRevision)
    requires app == TellTale(e, app.runtimeRevision, app.viewRevision, app.theme)
    ensures PictureAt(Handle(Handle(app, RuntimeState(state)), e), e.paneId)
            != PictureAt(Handle(Handle(app, e), RuntimeState(state)), e.paneId)
  {
    hide ApplyRows, RenderChunks;
  }
}
