/** Server and mobile client together: the screen of a remote client over whole runs, and the panes, which
    the client filters by the revision of their terminal. */
module MobileReplication {
  import opened Bytes
  import opened Grid
  import opened Framing
  import opened WireEncode
  import opened WireDecode
  import opened RemoteState
  import opened ServerRun
  import opened Replication
  import opened FailingRuns
  import opened QueueLabels
  import opened MobileClient

  type Screen = m: Option<Mobile> | m.Some? ==> m.value.grid.WellFormed() witness None

  // ---- the screen ----

  lemma DecodedFits(s: seq<byte>, prefixed: bool)
    ensures var m := DecodeMobileFull(s, prefixed); m.Some? ==> m.value.grid.WellFormed()
  {
    hide U16At, MobileCells, DecodeTrailer;
  }

  lemma AppliedFits(s: seq<byte>, prefixed: bool, m: Mobile)
    requires m.grid.WellFormed()
    ensures var r := ApplyMobileDelta(s, prefixed, m); r.Some? ==> r.value.grid.WellFormed()
  {
    hide U16At, U32At, Overlays, DecodeTrailer, ParseRowsRest;
  }

  function DecodeScreen(s: seq<byte>, prefixed: bool): (r: Screen)
    ensures r == DecodeMobileFull(s, prefixed)
  {
    DecodedFits(s, prefixed);
    DecodeMobileFull(s, prefixed)
  }

  /** A delta that cannot be applied, or has nothing to be applied to, leaves the screen as it is. */
  function ApplyToScreen(s: seq<byte>, prefixed: bool, screen: Screen): (r: Screen)
    ensures screen.Some? && ApplyMobileDelta(s, prefixed, screen.value).Some? ==>
              r == ApplyMobileDelta(s, prefixed, screen.value)
    ensures screen.None? ==> r.None?
  {
    if screen.None? then screen
    else
      AppliedFits(s, prefixed, screen.value);
      var applied := ApplyMobileDelta(s, prefixed, screen.value);
      if applied.Some? then applied else screen
  }

  /** `ClientWireReducer.reduce`, as far as it concerns the screen. */
  function Reduce(screen: Screen, m: Message): Screen {
    if m.ty == FULL_STATE then DecodeScreen(m.payload, false)
    else if m.ty == DELTA then ApplyToScreen(m.payload, false, screen)
    else screen
  }

  function Received(screen: Screen, m: OutboundMessage): Screen {
    var r := ReadMessage(m.bytes);
    if r.Read? then Reduce(screen, r.message) else screen
  }

  /** A new client's screen after all that stands in the queue. */
  function Drained(out: seq<OutboundMessage>): Screen {
    if out == [] then None else Received(Drained(out[..|out| - 1]), out[|out| - 1])
  }

  predicate Empty(g: RemoteFullState) {
    g.rows == 0 || g.cols == 0
  }

  /** The screen is that grid; of an empty one there is none. */
  predicate Mirrors(screen: Screen, g: RemoteFullState) {
    if Empty(g) then screen.None? else screen.Some? && screen.value.grid == WithoutReplicaFields(g)
  }

  lemma ReadsBack(m: Message, screen: Screen)
    requires |m.payload| < U32_LIMIT
    ensures Received(screen, Frame(EncodeMessage(m))) == Reduce(screen, m)
  {
    hide EncodeMessage, ReadMessage, Reduce;
    FrameRoundTrip(m, []);
    assert EncodeMessage(m) + [] == EncodeMessage(m);
  }

  lemma SameBytes(screen: Screen, a: OutboundMessage, b: OutboundMessage)
    requires a.bytes == b.bytes
    ensures Received(screen, a) == Received(screen, b)
  {
  }

  /** A publish against what the client has gives it the next grid. */
  lemma PublishMirrors(screen: Screen, p: Publish)
    requires p.ScreenPublish? && !p.isLocal && Encodes(p) && FitsFrame(p)
    requires p.previous.Some? ==> Mirrors(screen, p.previous.value)
    ensures Mirrors(Received(screen, PublishOutbound(p)), p.next)
  {
    hide EncodeMessage, Received, FullPayload, DecodeMobileFull, ApplyMobileDelta, WithoutReplicaFields, Delta;
    var m := PublishMessage(p);
    ReadsBack(m, screen);
    SameBytes(screen, PublishOutbound(p), Frame(EncodeMessage(m)));
    if PublishDelta(p).Some? {
      DeltaSameSize(p.previous.value, p.next, p.latestInputSeq, false);
      if !Empty(p.next) {
        WithoutWhole(p.previous.value);
        MobileDeltaRefines(p.previous.value, p.next, screen.value.replica, p.latestInputSeq, false);
      }
    } else {
      MobileFullExactly(p.next, p.latestInputSeq, false);
    }
  }

  lemma DeltaSameSize(p: RemoteFullState, c: RemoteFullState, latestInputSeq: Option<u64>, local: bool)
    requires p.WellFormed() && c.WellFormed() && Delta(p, c, latestInputSeq, local).Some?
    ensures SameSize(p, c)
  {
  }

  lemma WithoutWhole(g: RemoteFullState)
    requires g.WellFormed()
    ensures WithoutReplicaFields(g).WellFormed()
  {
  }

  /** Nothing else touches the screen. */
  lemma PanesPass(screen: Screen, p: Publish)
    requires p.PanePublish? && Encodes(p) && FitsFrame(p)
    ensures Received(screen, PublishOutbound(p)) == screen
  {
    hide EncodeMessage, Received, FullPayload, Delta, PanePayload;
    ReadsBack(PublishMessage(p), screen);
    SameBytes(screen, PublishOutbound(p), Frame(EncodeMessage(PublishMessage(p))));
  }

  // ---- runs ----

  predicate ScreenInFlight(st: ServerState) {
    exists i :: 0 <= i < |st.inFlight| && st.inFlight[i].ScreenPublish?
  }

  /** One publisher thread: a screen publish begins when none is under way. Payloads fit their frames. */
  ghost predicate Serial(st: ServerState, op: Op) {
    FitsQueue(op) && (op.StartScreen? ==> !ScreenInFlight(st))
  }

  ghost predicate SerialRun(st: ServerState, ops: seq<Op>)
    requires Sound(st) && EnabledRun(st, ops)
    decreases |ops|
  {
    ops == [] || (Serial(st, ops[0]) && SerialRun(Step(st, ops[0]), ops[1..]))
  }

  /** What the client will show is what is cached, and what is under way is encoded against. */
  predicate Follows(screen: Screen, st: ServerState) {
    st.client.Some? ==>
      var s := st.client.value;
      && !s.isLocal && Drained(s.outbound) == screen
      && (s.view.lastState.Some? ==> Mirrors(screen, s.view.lastState.value))
      && (forall i :: 0 <= i < |st.inFlight| ==> FollowsPublish(screen, st.inFlight[i]))
      && (forall i, j :: 0 <= i < j < |st.inFlight| ==>
            !(st.inFlight[i].ScreenPublish? && st.inFlight[j].ScreenPublish?))
  }

  predicate FollowsPublish(screen: Screen, p: Publish) {
    && FitsFrame(p)
    && (p.ScreenPublish? ==> !p.isLocal && (p.previous.Some? ==> Mirrors(screen, p.previous.value)))
  }

  function ScreenOf(st: ServerState): Screen {
    if st.client.Some? then Drained(st.client.value.outbound) else None
  }

  lemma DrainedSnoc(out: seq<OutboundMessage>, m: OutboundMessage)
    ensures Drained(out + [m]) == Received(Drained(out), m)
  {
    hide Received;
    assert (out + [m])[..|out|] == out;
  }

  lemma FramePasses(s: Session, m: Message)
    requires |m.payload| < U32_LIMIT && m.ty != FULL_STATE && m.ty != DELTA
    ensures Drained(s.outbound + [Frame(EncodeMessage(m))]) == Drained(s.outbound)
  {
    hide EncodeMessage, Received, Drained;
    ReadsBack(m, Drained(s.outbound));
    DrainedSnoc(s.outbound, Frame(EncodeMessage(m)));
  }

  /** No operation but a publish changes the screen, and none caches one. */
  lemma SessionPasses(s: Session, op: Op)
    requires FitsQueue(op) && (op.SendOther? ==> !Reserved(op.message.ty))
    ensures var s' := SessionStep(s, op);
            && s'.isLocal == s.isLocal && Drained(s'.outbound) == Drained(s.outbound)
            && (s'.view.lastState == s.view.lastState || s'.view.lastState.None?)
  {
    hide EncodeMessage, Drained;
    if op.SendControl? {
      FramePasses(s, Message(ControlType(op.kind), op.payload));
    } else if op.ReplyTabs? {
      FramePasses(s, Message(TAB_LIST, op.payload));
    } else if op.SendOther? {
      FramePasses(s, op.message);
    }
  }

  lemma StepFollows(st: ServerState, op: Op)
    requires Sound(st) && Enabled(st, op) && Serial(st, op) && Follows(ScreenOf(st), st)
    ensures Follows(ScreenOf(Step(st, op)), Step(st, op))
  {
    hide Drained, FollowsPublish, SessionStep, FitsQueue, Mirrors, Encodes, SoundView, BeginScreen, BeginPane;
    if st.client.None? || op.Remove? {
    } else if op.FinishPublish? {
      FinishFollows(st, op);
    } else if op.StartScreen? || op.StartPane? {
      StartFollows(st, op);
    } else {
      var screen, s := ScreenOf(st), st.client.value;
      SessionPasses(s, op);
    }
  }

  lemma FinishFollows(st: ServerState, op: Op)
    requires Sound(st) && Enabled(st, op) && op.FinishPublish? && st.client.Some? && Follows(ScreenOf(st), st)
    ensures Follows(ScreenOf(Step(st, op)), Step(st, op))
  {
    hide Drained, Received, PublishOutbound, FitsFrame, Mirrors, Encodes, SoundView;
    var screen, s, p := ScreenOf(st), st.client.value, st.inFlight[op.index];
    var rest := Without(st.inFlight, op.index);
    assert FollowsPublish(screen, p);
    assert forall i :: 0 <= i < |rest| ==> rest[i] == st.inFlight[if i < op.index then i else i + 1];
    if s.view.subscribed {
      DrainedSnoc(s.outbound, PublishOutbound(p));
      if p.ScreenPublish? {
        PublishMirrors(screen, p);
      } else {
        PanesPass(screen, p);
      }
    }
  }

  lemma StartFollows(st: ServerState, op: Op)
    requires Sound(st) && Enabled(st, op) && (op.StartScreen? || op.StartPane?) && st.client.Some?
    requires Serial(st, op) && Follows(ScreenOf(st), st)
    ensures Follows(ScreenOf(Step(st, op)), Step(st, op))
  {
    hide Drained, FitsFrame, Mirrors;
    var screen, s := ScreenOf(st), st.client.value;
    var started := Start(s, op);
    assert Short(op.next);
    forall p | p in started ensures FollowsPublish(screen, p) {
    }
  }

  lemma {:induction false} RunFollows(st: ServerState, ops: seq<Op>)
    requires Sound(st) && EnabledRun(st, ops) && SerialRun(st, ops) && Follows(ScreenOf(st), st)
    ensures Follows(ScreenOf(Run(st, ops)), Run(st, ops))
    decreases |ops|
  {
    hide Step, Follows, Serial, ScreenOf;
    if ops == [] {
    } else {
      StepFollows(st, ops[0]);
      RunFollows(Step(st, ops[0]), ops[1..]);
    }
  }

  /** After any run of a remote client, with screen publishes one at a time and whatever else between their
      locks: a mobile client that has read the queue shows the screen that the server encodes against. */
  lemma MobileEndToEnd(ops: seq<Op>)
    requires EnabledRun(Connected(false), ops) && SerialRun(Connected(false), ops)
    ensures var c := Run(Connected(false), ops).client;
            c.Some? && c.value.view.lastState.Some? ==>
              Mirrors(Drained(c.value.outbound), c.value.view.lastState.value)
  {
    hide Run, EnabledRun, SerialRun, Mirrors;
    RunFollows(Connected(false), ops);
  }

  // ---- panes ----

  /** A pane of the client: its screen, and the revisions its last update carried. */
  datatype MobilePane = Unseen | Seen(screen: Mobile, paneRevision: u64, runtimeRevision: u64)

  function LastPaneRevision(pane: MobilePane): u64 {
    if pane.Seen? then pane.paneRevision else 0
  }

  function LastRuntimeRevision(pane: MobilePane): u64 {
    if pane.Seen? then pane.runtimeRevision else 0
  }

  predicate NotOlder(pane: MobilePane, h: PaneHeader) {
    || h.paneRevision > LastPaneRevision(pane)
    || (h.paneRevision == LastPaneRevision(pane) && h.runtimeRevision >= LastRuntimeRevision(pane))
  }

  predicate Newer(pane: MobilePane, h: PaneHeader) {
    || h.paneRevision > LastPaneRevision(pane)
    || (h.paneRevision == LastPaneRevision(pane) && h.runtimeRevision > LastRuntimeRevision(pane))
  }

  predicate Whole(pane: MobilePane) {
    pane.Seen? ==> pane.screen.grid.WellFormed()
  }

  /** With the input prefix, or else without. */
  function ApplyPaneBody(s: seq<byte>, m: Mobile): Option<Mobile>
    requires m.grid.WellFormed()
  {
    var prefixed := ApplyMobileDelta(s, true, m);
    if prefixed.Some? then prefixed else ApplyMobileDelta(s, false, m)
  }

  /** `applyPaneFullState` and `applyPaneDelta`; an update for another tab or a hidden pane is not for this
      view. */
  function HandlePane(pane: MobilePane, m: Message, inView: bool): MobilePane
    requires Whole(pane)
  {
    if !inView || |m.payload| < PANE_HEADER_LEN then pane
    else
      var h := DecodePaneHeader(m.payload);
      if m.ty == UI_PANE_FULL_STATE then
        var d := DecodeMobilePane(m.payload);
        if d.Some? && NotOlder(pane, h) then Seen(d.value.1, h.paneRevision, h.runtimeRevision) else pane
      else if m.ty == UI_PANE_DELTA && pane.Seen? && Newer(pane, h) then
        var d := ApplyPaneBody(m.payload[PANE_HEADER_LEN..], pane.screen);
        if d.Some? then Seen(d.value, h.paneRevision, h.runtimeRevision) else pane
      else pane
  }

  predicate PaneShows(pane: MobilePane, g: RemoteFullState) {
    pane.Seen? && pane.screen.grid == WithoutReplicaFields(g)
  }

  /** The moment of an update: its pane revision before its runtime revision. */
  function Moment(paneRevision: u64, runtimeRevision: u64): nat {
    paneRevision * 0x1_0000_0000_0000_0000 + runtimeRevision
  }

  function LastMoment(pane: MobilePane): nat {
    if pane.Seen? then Moment(pane.paneRevision, pane.runtimeRevision) else 0
  }

  /** Whether the client takes the update: a full state unless it is older, a delta only when it is newer
      and there is a screen to apply it to. */
  predicate Taken(pane: MobilePane, p: Publish, inView: bool)
    requires p.PanePublish? && Encodes(p)
  {
    var moment := Moment(p.paneRevision, p.runtimeRevision);
    inView && if PublishDelta(p).Some? then pane.Seen? && moment > LastMoment(pane) else moment >= LastMoment(pane)
  }

  lemma FilterExactly(pane: MobilePane, h: PaneHeader)
    ensures NotOlder(pane, h) <==> Moment(h.paneRevision, h.runtimeRevision) >= LastMoment(pane)
    ensures Newer(pane, h) <==> Moment(h.paneRevision, h.runtimeRevision) > LastMoment(pane)
  {
  }

  /** Of any bytes: a pane never goes back in time, and a delta that comes twice is applied once. */
  lemma NeverGoesBack(pane: MobilePane, m: Message, inView: bool)
    requires Whole(pane)
    ensures var after := HandlePane(pane, m, inView);
            && Whole(after) && LastMoment(after) >= LastMoment(pane)
            && (m.ty == UI_PANE_DELTA && after != pane ==>
                  LastMoment(after) > LastMoment(pane) && HandlePane(after, m, inView) == after)
  {
    hide ApplyMobileDelta, DecodeMobileFull, DecodePaneHeader, Moment;
    if |m.payload| >= PANE_HEADER_LEN {
      var body := m.payload[PANE_HEADER_LEN..];
      FilterExactly(pane, DecodePaneHeader(m.payload));
      DecodedFits(body, true);
      DecodedFits(body, false);
      if pane.Seen? {
        AppliedFits(body, true, pane.screen);
        AppliedFits(body, false, pane.screen);
      }
      FilterExactly(HandlePane(pane, m, inView), DecodePaneHeader(m.payload));
    }
  }

  /** A publish against what the pane shows leaves it showing the next grid, under the revisions of the
      publish, exactly when it is taken, or else when it showed it already. */
  lemma MobilePaneExactly(pane: MobilePane, p: Publish, inView: bool)
    requires p.PanePublish? && Encodes(p) && Whole(pane) && !Empty(p.next)
    requires p.previous.Some? ==> PaneShows(pane, p.previous.value)
    ensures var after := HandlePane(pane, PublishMessage(p), inView);
            && (PaneShows(after, p.next) <==> Taken(pane, p, inView) || PaneShows(pane, p.next))
            && (if Taken(pane, p, inView)
                then after.Seen? && after.paneRevision == p.paneRevision && after.runtimeRevision == p.runtimeRevision
                else after == pane)
            && Whole(after)
  {
    hide FullPayload, DecodeMobilePane, PanePayload, DecodePaneHeader, Delta, ApplyMobileDelta, WithoutReplicaFields;
    hide Moment, NotOlder, Newer;
    FilterExactly(pane, PaneHeader(p.tabId, p.paneId, p.paneRevision, p.runtimeRevision));
    var body := if PublishDelta(p).Some? then PublishDelta(p).value else FullPayload(p.next, None, true);
    PaneHeaderRoundTrip(p.tabId, p.paneId, p.paneRevision, p.runtimeRevision, body);
    WithoutWhole(p.next);
    if PublishDelta(p).Some? {
      DeltaSameSize(p.previous.value, p.next, None, true);
      MobileDeltaRefines(p.previous.value, p.next, pane.screen.replica, None, true);
    } else {
      MobilePaneRoundTrip(PaneHeader(p.tabId, p.paneId, p.paneRevision, p.runtimeRevision), p.next);
    }
  }

  // ---- pane revisions ----

  /** `pane_terminal_revision`: the grid last published to any client, and its revision. */
  type Stamp = Option<(u64, RemoteFullState)>

  function NextStamp(stamp: Stamp, next: RemoteFullState): (u64, RemoteFullState) {
    if stamp.None? then (1, next)
    else if stamp.value.1 == next then stamp.value
    else (NextViewRevision(stamp.value.0), next)
  }

  /** The revision stands still exactly while the grid does; the first one is not 0, and none after it. */
  lemma StampMovesExactly(stamp: Stamp, next: RemoteFullState)
    ensures NextStamp(stamp, next).1 == next
    ensures stamp.Some? ==> (NextStamp(stamp, next).0 == stamp.value.0 <==> next == stamp.value.1)
    ensures stamp.None? || stamp.value.0 > 0 ==> NextStamp(stamp, next).0 > 0
    ensures stamp.Some? && next != stamp.value.1 && stamp.value.0 < U64_LIMIT - 1 ==>
              NextStamp(stamp, next).0 > stamp.value.0
  {
  }

  /** What the server keeps of one pane, for all clients and for this one, and the client's side. */
  datatype PaneWorld = PaneWorld(stamp: Stamp, cached: Option<RemoteFullState>, pane: MobilePane)

  datatype PaneStep =
    | PublishElsewhere(next: RemoteFullState)
    | PublishHere(tabId: u32, paneId: u64, runtimeRevision: u64, focused: bool, next: RemoteFullState)
    | Renew
    | Hide

  predicate MayTake(w: PaneWorld, step: PaneStep) {
    match step
    case PublishElsewhere(next) => next.WellFormed() && !LastRevision(w)
    case PublishHere(_, _, _, _, next) => next.WellFormed() && !Empty(next) && !LastRevision(w)
    case _ => true
  }

  /** The revision from which the next one wraps. */
  predicate LastRevision(w: PaneWorld) {
    w.stamp.Some? && w.stamp.value.0 == U64_LIMIT - 1
  }

  /** The client's pane is behind the server's revision, or shows that grid; and it shows what the server
      encodes against. */
  predicate PaneAgrees(w: PaneWorld) {
    && Whole(w.pane)
    && (w.stamp.Some? ==> w.stamp.value.0 > 0)
    && (w.pane.Seen? ==>
          && w.stamp.Some? && w.pane.paneRevision <= w.stamp.value.0
          && (w.pane.paneRevision == w.stamp.value.0 ==> PaneShows(w.pane, w.stamp.value.1)))
    && (w.cached.Some? ==> w.cached.value.WellFormed() && PaneShows(w.pane, w.cached.value))
  }

  function PublishOf(w: PaneWorld, step: PaneStep): Publish
    requires step.PublishHere?
  {
    PanePublish(step.next, w.cached, step.tabId, step.paneId, NextStamp(w.stamp, step.next).0, step.runtimeRevision,
                step.focused)
  }

  /** Renewing drops the server's cached grid; hiding makes the client forget its pane as well. */
  function PaneStepped(w: PaneWorld, step: PaneStep): PaneWorld
    requires PaneAgrees(w) && MayTake(w, step)
  {
    match step
    case PublishElsewhere(next) => w.(stamp := Some(NextStamp(w.stamp, next)))
    case PublishHere(_, _, _, _, next) =>
      PaneWorld(Some(NextStamp(w.stamp, next)), Some(next),
                HandlePane(w.pane, PublishMessage(PublishOf(w, step)), true))
    case Renew => w.(cached := None)
    case Hide => w.(cached := None, pane := Unseen)
  }

  /** Whatever the runtime revisions: an update the client does not take is of a grid it shows already. */
  lemma PaneStepAgrees(w: PaneWorld, step: PaneStep)
    requires PaneAgrees(w) && MayTake(w, step)
    ensures PaneAgrees(PaneStepped(w, step))
  {
    hide PublishMessage, PublishDelta, WithoutReplicaFields, HandlePane, RemoteFullState.WellFormed;
    if step.PublishHere? {
      var p := PublishOf(w, step);
      MobilePaneExactly(w.pane, p, true);
      assert w.pane.Unseen? ==> Taken(w.pane, p, true) by { NoDeltaOfNothing(p); }
    }
  }

  lemma NoDeltaOfNothing(p: Publish)
    requires Encodes(p)
    ensures p.previous.None? ==> PublishDelta(p).None?
  {
  }

  predicate PaneRunnable(w: PaneWorld, steps: seq<PaneStep>)
    requires PaneAgrees(w)
    decreases |steps|
  {
    steps == [] ||
    (MayTake(w, steps[0]) && (PaneStepAgrees(w, steps[0]); PaneRunnable(PaneStepped(w, steps[0]), steps[1..])))
  }

  function PaneRun(w: PaneWorld, steps: seq<PaneStep>): PaneWorld
    requires PaneAgrees(w) && PaneRunnable(w, steps)
    decreases |steps|
  {
    if steps == [] then w
    else
      PaneStepAgrees(w, steps[0]);
      PaneRun(PaneStepped(w, steps[0]), steps[1..])
  }

  lemma {:induction false} PaneRunAgrees(w: PaneWorld, steps: seq<PaneStep>)
    requires PaneAgrees(w) && PaneRunnable(w, steps)
    ensures PaneAgrees(PaneRun(w, steps))
    decreases |steps|
  {
    hide PaneStepped, MayTake, PaneAgrees;
    if steps == [] {
    } else {
      PaneStepAgrees(w, steps[0]);
      PaneRunAgrees(PaneStepped(w, steps[0]), steps[1..]);
    }
  }

  /** After any run of publishes to this and to other clients, renewals and hidings, under any runtime
      revisions whatever: the pane shows what the server encodes against. */
  lemma MobilePanesAgree(steps: seq<PaneStep>)
    requires PaneRunnable(PaneWorld(None, None, Unseen), steps)
    ensures var w := PaneRun(PaneWorld(None, None, Unseen), steps);
            w.cached.Some? ==> PaneShows(w.pane, w.cached.value)
  {
    hide PaneStepped, MayTake, PaneRunnable, PaneRun;
    PaneRunAgrees(PaneWorld(None, None, Unseen), steps);
  }

  /** Once the revision has wrapped, a pane that was up to date takes nothing any more. */
  lemma WrappedIsStale(w: PaneWorld, step: PaneStep)
    requires PaneAgrees(w) && LastRevision(w) && step.PublishHere? && step.next.WellFormed() && !Empty(step.next)
    requires w.pane.Seen? && w.pane.paneRevision == U64_LIMIT - 1 && w.stamp.value.1 != step.next
    ensures HandlePane(w.pane, PublishMessage(PublishOf(w, step)), true) == w.pane
  {
    hide PublishMessage, PublishDelta, WithoutReplicaFields, HandlePane, RemoteFullState.WellFormed;
    MobilePaneExactly(w.pane, PublishOf(w, step), true);
  }
}
