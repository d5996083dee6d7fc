/** Runs the server makes in which client and server part, step for step as the server takes them. */
module FailingRuns {
  import opened Bytes
  import opened Grid
  import opened Framing
  import opened WireEncode
  import opened WireDecode
  import opened Snapshot
  import opened DeltaRefinement
  import opened ClientGui
  import opened RemoteState
  import opened ServerRun
  import opened Replication
  import opened PublisherRuns

  // ---- runs seen through the view ----

  /** A local client's record at rest, with this view. */
  predicate Seen(st: ServerState, v: View) {
    st.client.Some? && st.inFlight == [] && st.client.value.isLocal && st.client.value.view == v
  }

  /** From any record with view `v`, the operations are disciplined and end in view `w`. */
  ghost predicate Leads(v: View, ops: seq<Op>, w: View, json: Json) {
    forall st: ServerState :: Sound(st) && Seen(st, v) ==>
      DisciplinedRun(st, ops, json, ANY_THEME) && EnabledRun(st, ops) && Seen(Run(st, ops), w)
  }

  lemma {:induction false} DisciplinedAppend(st: ServerState, a: seq<Op>, b: seq<Op>, json: Json)
    requires Sound(st) && DisciplinedRun(st, a, json, ANY_THEME) && EnabledRun(st, a)
    requires DisciplinedRun(Run(st, a), b, json, ANY_THEME) && EnabledRun(Run(st, a), b)
    ensures DisciplinedRun(st, a + b, json, ANY_THEME) && EnabledRun(st, a + b)
    ensures Run(st, a + b) == Run(Run(st, a), b)
    decreases |a|
  {
    hide Step, Disciplined;
    if a == [] {
      assert a + b == b;
    } else {
      assert (a + b)[1..] == a[1..] + b;
      DisciplinedAppend(Step(st, a[0]), a[1..], b, json);
    }
  }

  lemma LeadsOn(u: View, a: seq<Op>, v: View, b: seq<Op>, w: View, json: Json)
    requires Leads(u, a, v, json) && Leads(v, b, w, json)
    ensures Leads(u, a + b, w, json)
  {
    hide Run, EnabledRun, DisciplinedRun, Seen;
    forall st: ServerState | Sound(st) && Seen(st, u)
      ensures DisciplinedRun(st, a + b, json, ANY_THEME) && EnabledRun(st, a + b) && Seen(Run(st, a + b), w)
    {
      DisciplinedAppend(st, a, b, json);
    }
  }

  lemma OneOp(st: ServerState, op: Op, json: Json)
    requires Sound(st) && Enabled(st, op) && Disciplined(st, op, json, ANY_THEME)
    ensures DisciplinedRun(st, [op], json, ANY_THEME) && EnabledRun(st, [op]) && Run(st, [op]) == Step(st, op)
  {
    hide Step, Disciplined;
    assert [op][1..] == [];
    assert Run(Step(st, op), []) == Step(st, op);
  }

  lemma ControlLeads(v: View, kind: ControlKind, payload: seq<byte>, json: Json)
    requires MaySendControl(v, kind, payload, json, ANY_THEME)
    ensures Leads(v, [SendControl(kind, payload)], SetCacheSlot(v, kind, payload), json)
  {
    hide EncodeMessage, MaySendControl;
    var op := SendControl(kind, payload);
    forall st: ServerState | Sound(st) && Seen(st, v)
      ensures DisciplinedRun(st, [op], json, ANY_THEME) && EnabledRun(st, [op])
      ensures Seen(Run(st, [op]), SetCacheSlot(v, kind, payload))
    {
      OneOp(st, op, json);
      SlotAlreadySet(v, kind, payload);
    }
  }

  lemma SlotAlreadySet(v: View, kind: ControlKind, payload: seq<byte>)
    ensures CacheSlot(v, kind) == Some(payload) ==> SetCacheSlot(v, kind, payload) == v
  {
  }

  lemma ViewLeads(v: View, op: Op, json: Json)
    requires op.Initialize? || op.UpdateScope? || op.SubscribeRuntime? || op.RecordInput?
    ensures Leads(v, [op], ViewStep(v, op), json)
  {
    hide ViewStep;
    forall st: ServerState | Sound(st) && Seen(st, v)
      ensures DisciplinedRun(st, [op], json, ANY_THEME) && EnabledRun(st, [op]) && Seen(Run(st, [op]), ViewStep(v, op))
    {
      OneOp(st, op, json);
    }
  }

  lemma PublishStarts(st: ServerState, v: View, op: Op, p: Publish, json: Json)
    requires Sound(st) && Seen(st, v) && (op.StartScreen? || op.StartPane?) && op.next.WellFormed()
    requires Start(st.client.value, op) == [p] && MayPublish(v, p, json)
    ensures Enabled(st, op) && Disciplined(st, op, json, ANY_THEME) && Step(st, op) == st.(inFlight := [p])
  {
    hide MayPublish, Encodes;
    assert [] + [p] == [p];
  }

  lemma PublishEnds(st: ServerState, v: View, p: Publish, json: Json)
    requires Sound(st) && Seen(st, v) && Encodes(p) && v.subscribed
    ensures var st1 := st.(inFlight := [p]);
            && Sound(st1) && Enabled(st1, FinishPublish(0)) && Disciplined(st1, FinishPublish(0), json, ANY_THEME)
            && Seen(Step(st1, FinishPublish(0)), CacheNext(v, p))
  {
    hide PublishOutbound, Encodes, CacheNext;
    assert Without([p], 0) == [];
  }

  /** Both locks of a publish, one after the other. */
  lemma PublishLeads(v: View, op: Op, p: Publish, json: Json)
    requires op.StartScreen? || op.StartPane?
    requires op.next.WellFormed() && v.subscribed && SoundView(v)
    requires forall s: Session :: s.view == v && s.isLocal ==> Start(s, op) == [p]
    requires Encodes(p) && MayPublish(v, p, json)
    ensures Leads(v, [op, FinishPublish(0)], CacheNext(v, p), json)
  {
    hide Step, Disciplined, DisciplinedRun, EnabledRun, Run, MayPublish, Encodes, CacheNext, Start;
    forall st: ServerState | Sound(st) && Seen(st, v)
      ensures DisciplinedRun(st, [op, FinishPublish(0)], json, ANY_THEME) && EnabledRun(st, [op, FinishPublish(0)])
      ensures Seen(Run(st, [op, FinishPublish(0)]), CacheNext(v, p))
    {
      assert Start(st.client.value, op) == [p];
      PublishStarts(st, v, op, p, json);
      PublishEnds(st, v, p, json);
      OneOp(st, op, json);
      OneOp(Step(st, op), FinishPublish(0), json);
      DisciplinedAppend(st, [op], [FinishPublish(0)], json);
      assert [op] + [FinishPublish(0)] == [op, FinishPublish(0)];
    }
  }

  // ---- what the server does ----

  /** A tab with the client's focused pane `q` and a passive pane `p`, and what the server says of it. */
  datatype Scene = Scene(
    clientId: u64, tab: u32, q: u64, p: u64, tabs: seq<byte>, state: seq<byte>, look: seq<byte>, revision: u64)

  /** One publish of the tab: the grids of both panes, and the revisions the passive one carries. */
  datatype Round = Round(screen: RemoteFullState, pane: RemoteFullState, paneRevision: u64, runtimeRevision: u64)

  /** A grid whose frames all fit their 32-bit length. */
  ghost predicate Short(g: RemoteFullState) {
    && g.WellFormed()
    && (forall p: Publish :: p.next == g ==> FitsFrame(p))
  }

  /** Every grid of a usual size is short. */
  lemma UsualGridsAreShort(g: RemoteFullState)
    requires g.WellFormed() && SizeBound(g) + PANE_HEADER_LEN < U32_LIMIT
    ensures Short(g)
  {
    forall p: Publish | p.next == g && Encodes(p) ensures |PublishMessage(p).payload| < U32_LIMIT {
      PublishLength(p);
    }
  }

  lemma PublishLength(p: Publish)
    requires Encodes(p)
    ensures |PublishMessage(p).payload| <= SizeBound(p.next) + PANE_HEADER_LEN
  {
    hide FullPayload, DeltaPayload, Changes, SizeBound, AllFullWidth;
    var previous := if p.previous.Some? && SameSize(p.previous.value, p.next) then p.previous else None;
    match p
    case ScreenPublish(next, _, inputSeq, isLocal) => PayloadLength(previous, next, inputSeq, isLocal);
    case PanePublish(next, _, _, _, _, _, _) => PayloadLength(previous, next, None, true);
  }

  predicate SceneFits(c: Scene, json: Json) {
    && c.q != 0 && c.p != c.q
    && |c.tabs| < U32_LIMIT && |c.state| < U32_LIMIT && |c.look| < U32_LIMIT
    && json.runtimeState(c.state) == Some(UiRuntimeState(c.revision, 2, c.q))
  }

  /** The focused pane goes out on the screen lane, then the passive one on the pane lane. */
  function PublishTab(c: Scene, r: Round): seq<Op> {
    [StartScreen(r.screen), FinishPublish(0)]
    + [StartPane(c.tab, c.p, r.paneRevision, r.runtimeRevision, r.pane), FinishPublish(0)]
  }

  /** A client is given its view: scope, tab list, runtime state, appearance, subscription, grids. */
  function AttachOps(c: Scene, r: Round): seq<Op> {
    [Initialize(c.clientId, Some(c.tab), Some(c.q), [c.q, c.p])]
    + ([SendControl(TabListKind, c.tabs)]
       + ([SendControl(RuntimeStateKind, c.state)]
          + ([SendControl(AppearanceKind, c.look)] + ([SubscribeRuntime] + PublishTab(c, r)))))
  }

  /** The client types: the sequence is recorded, the view is scoped and touched, the tab published. */
  function TypeOps(c: Scene, inputSeq: u64, r: Round): seq<Op> {
    [RecordInput(inputSeq)] + ([UpdateScope(Some(c.tab), Some(c.q), [c.q, c.p])] + PublishTab(c, r))
  }

  function Published(v: View, c: Scene, r: Round): View {
    v.(lastState := Some(r.screen), paneStates := v.paneStates[c.p := r.pane])
  }

  /** The view's last runtime state, as the client was told it. */
  predicate Told(v: View, u: UiRuntimeState, json: Json) {
    LastQueued(v, json) == Some(u)
  }

  lemma PublishTabLeads(v: View, c: Scene, r: Round, u: UiRuntimeState, json: Json)
    requires v.subscribed && SoundView(v) && Short(r.screen) && Short(r.pane) && Told(v, u, json)
    requires u.focusedPane == c.q != 0 && c.p != c.q && c.q !in v.paneStates
    requires r.runtimeRevision == 0 || r.runtimeRevision == u.runtimeRevision
    ensures Leads(v, PublishTab(c, r), Published(v, c, r), json)
  {
    hide FitsFrame, PublishMessage, Leads;
    var screen := ScreenPublish(r.screen, v.lastState, v.latestInputSeq, true);
    var mid := v.(lastState := Some(r.screen));
    PublishLeads(v, StartScreen(r.screen), screen, json);
    var op := StartPane(c.tab, c.p, r.paneRevision, r.runtimeRevision, r.pane);
    var pane := PanePublish(r.pane, if c.p in mid.paneStates then Some(mid.paneStates[c.p]) else None,
                            c.tab, c.p, r.paneRevision, r.runtimeRevision, mid.focusedPaneId == Some(c.p));
    PublishLeads(mid, op, pane, json);
    LeadsOn(v, [StartScreen(r.screen), FinishPublish(0)], mid, [op, FinishPublish(0)], Published(v, c, r), json);
  }

  /** The view once the client is attached, before any grid is sent. */
  function AttachedView(c: Scene): View {
    var v := InitializeView(IDLE_VIEW, c.clientId, Some(c.tab), Some(c.q), [c.q, c.p]);
    Subscribe(v.(tabListPayload := Some(c.tabs), runtimePayload := Some(c.state), appearancePayload := Some(c.look)))
  }

  lemma AttachedFacts(c: Scene)
    ensures var v := AttachedView(c);
            && v.subscribed && v.NothingCached() && SoundView(v) && v.viewRevision == 2
            && v.runtimePayload == Some(c.state)
  {
  }

  /** Attaching a client is a disciplined run. */
  lemma AttachLeads(c: Scene, r: Round, json: Json)
    requires SceneFits(c, json) && Short(r.screen) && Short(r.pane)
    requires r.runtimeRevision == 0 || r.runtimeRevision == c.revision
    ensures Leads(IDLE_VIEW, AttachOps(c, r), Published(AttachedView(c), c, r), json)
  {
    hide Leads, InitializeView, Short, Published;
    var op0 := Initialize(c.clientId, Some(c.tab), Some(c.q), [c.q, c.p]);
    var v0 := InitializeView(IDLE_VIEW, c.clientId, Some(c.tab), Some(c.q), [c.q, c.p]);
    var v1 := v0.(tabListPayload := Some(c.tabs));
    var v2 := v1.(runtimePayload := Some(c.state));
    var v3 := v2.(appearancePayload := Some(c.look));
    var v4 := AttachedView(c);
    var last := Published(v4, c, r);
    assert v0.NothingCached() by { InitializeClears(c); }
    ViewLeads(IDLE_VIEW, op0, json);
    ControlLeads(v0, TabListKind, c.tabs, json);
    ControlLeads(v1, RuntimeStateKind, c.state, json);
    ControlLeads(v2, AppearanceKind, c.look, json);
    ViewLeads(v3, SubscribeRuntime, json);
    AttachedFacts(c);
    PublishTabLeads(v4, c, r, UiRuntimeState(c.revision, 2, c.q), json);
    var ops4 := [SubscribeRuntime] + PublishTab(c, r);
    LeadsOn(v3, [SubscribeRuntime], v4, PublishTab(c, r), last, json);
    LeadsOn(v2, [SendControl(AppearanceKind, c.look)], v3, ops4, last, json);
    var ops3 := [SendControl(AppearanceKind, c.look)] + ops4;
    LeadsOn(v1, [SendControl(RuntimeStateKind, c.state)], v2, ops3, last, json);
    var ops2 := [SendControl(RuntimeStateKind, c.state)] + ops3;
    LeadsOn(v0, [SendControl(TabListKind, c.tabs)], v1, ops2, last, json);
    LeadsOn(IDLE_VIEW, [op0], v0, [SendControl(TabListKind, c.tabs)] + ops2, last, json);
  }

  lemma InitializeClears(c: Scene)
    ensures InitializeView(IDLE_VIEW, c.clientId, Some(c.tab), Some(c.q), [c.q, c.p]).NothingCached()
  {
  }

  /** Typing touches the view: a new revision, empty caches, and the recorded input forgotten. */
  function TypedView(v: View, c: Scene, inputSeq: u64): View {
    ViewStep(ViewStep(v, RecordInput(inputSeq)), UpdateScope(Some(c.tab), Some(c.q), [c.q, c.p]))
  }

  lemma TypedFacts(v: View, c: Scene, inputSeq: u64)
    ensures var w := TypedView(v, c, inputSeq);
            && w.NothingCached() && w.latestInputSeq.None? && w.viewRevision == NextViewRevision(v.viewRevision)
            && w.subscribed == v.subscribed && w.runtimePayload == v.runtimePayload
  {
  }

  /** Typing, too, is disciplined: nothing needs to be announced before the publish that follows. */
  lemma TypeLeads(v: View, c: Scene, inputSeq: u64, r: Round, u: UiRuntimeState, json: Json)
    requires v.subscribed && Told(v, u, json) && u.focusedPane == c.q != 0 && c.p != c.q
    requires Short(r.screen) && Short(r.pane) && (r.runtimeRevision == 0 || r.runtimeRevision == u.runtimeRevision)
    ensures Leads(v, TypeOps(c, inputSeq, r), Published(TypedView(v, c, inputSeq), c, r), json)
  {
    TypedFacts(v, c, inputSeq);
    hide Leads, Short, Published, PublishTab, TouchView;
    var w := TypedView(v, c, inputSeq);
    var mid := ViewStep(v, RecordInput(inputSeq));
    var scope := UpdateScope(Some(c.tab), Some(c.q), [c.q, c.p]);
    ViewLeads(v, RecordInput(inputSeq), json);
    ViewLeads(mid, scope, json);
    PublishTabLeads(w, c, r, u, json);
    LeadsOn(mid, [scope], w, PublishTab(c, r), Published(w, c, r), json);
    LeadsOn(v, [RecordInput(inputSeq)], mid, [scope] + PublishTab(c, r), Published(w, c, r), json);
  }

  /** The input a client is waiting to see acknowledged: typing records it and at once forgets it,
      so the grid sent for it decodes to no acknowledgement. */
  lemma InputGoesUnacknowledged(v: View, c: Scene, inputSeq: u64, g: RemoteFullState)
    requires g.WellFormed()
    ensures var w := TypedView(v, c, inputSeq);
            var publish := ScreenPublish(g, w.lastState, w.latestInputSeq, true);
            && PublishMessage(publish) == Message(FULL_STATE, FullPayload(g, None, true))
            && DecodeFull(PublishMessage(publish).payload) == Some((None, WithoutReplicaFields(g)))
  {
    hide FullPayload, DecodeFull, TypedView;
    TypedFacts(v, c, inputSeq);
    FullRoundTrip(g, None);
  }

  // ---- the client that is emptied ----

  /** The drained client shows no pane at all. */
  ghost predicate Emptied(st: ServerState, v: View, app: App, json: Json) {
    && Sound(st) && Seen(st, v)
    && Drain(app, st.client.value.outbound, json).panes == map[]
  }

  /** A runtime state of a view revision other than the one the client was told. */
  lemma OtherRevisionEmpties(st: ServerState, v: View, payload: seq<byte>, told: UiRuntimeState, app: App, json: Json)
    requires Sound(st) && Seen(st, v) && Replicates(st, app, json, ANY_THEME) && Told(v, told, json)
    requires |payload| < U32_LIMIT && json.runtimeState(payload).Some? && told.viewRevision != 0
    requires json.runtimeState(payload).value.viewRevision != told.viewRevision
    ensures Emptied(Step(st, SendControl(RuntimeStateKind, payload)), SetCacheSlot(v, RuntimeStateKind, payload),
                    app, json)
  {
    hide EncodeMessage, Receive, Drain, PaneAgree, ScreenAgree, CacheCurrent, Framed, MayPublish;
    var s, m := st.client.value, Message(UI_RUNTIME_STATE, payload);
    DrainAppend(app, s.outbound, Frame(EncodeMessage(m)), json);
    ReceiveEncoded(Drain(app, s.outbound, json), m, json);
  }

  lemma {:induction false} EnabledAppend(st: ServerState, a: seq<Op>, b: seq<Op>)
    requires Sound(st) && EnabledRun(st, a) && EnabledRun(Run(st, a), b)
    ensures EnabledRun(st, a + b) && Run(st, a + b) == Run(Run(st, a), b)
    decreases |a|
  {
    hide Step;
    if a == [] {
      assert a + b == b;
    } else {
      assert (a + b)[1..] == a[1..] + b;
      EnabledAppend(Step(st, a[0]), a[1..], b);
    }
  }

  lemma EnabledOne(st: ServerState, op: Op)
    requires Sound(st) && Enabled(st, op)
    ensures EnabledRun(st, [op]) && Run(st, [op]) == Step(st, op)
  {
    hide Step;
    assert [op][1..] == [];
    assert Run(Step(st, op), []) == Step(st, op);
  }

  /** Both locks of any publish, and what reaches the client. */
  lemma PublishDone(st: ServerState, v: View, op: Op, p: Publish, app: App, json: Json)
    requires Sound(st) && Seen(st, v) && v.subscribed && Enabled(st, op)
    requires op.StartScreen? || op.StartPane?
    requires Start(st.client.value, op) == [p] && Encodes(p) && FitsFrame(p) && (p.ScreenPublish? ==> p.isLocal)
    ensures EnabledRun(st, [op, FinishPublish(0)])
    ensures var st' := Run(st, [op, FinishPublish(0)]);
            && Sound(st') && Seen(st', CacheNext(v, p))
            && Drain(app, st'.client.value.outbound, json)
               == Handle(Drain(app, st.client.value.outbound, json), PublishEvent(p))
  {
    hide PublishOutbound, PublishMessage, Encodes, CacheNext, Drain, Receive, Handle, PublishEvent, FitsFrame;
    assert [] + [p] == [p] && Without([p], 0) == [];
    EnabledOne(st, op);
    EnabledOne(Step(st, op), FinishPublish(0));
    EnabledAppend(st, [op], [FinishPublish(0)]);
    assert [op] + [FinishPublish(0)] == [op, FinishPublish(0)];
    DrainAppend(app, st.client.value.outbound, PublishOutbound(p), json);
    PublishArrives(p, Drain(app, st.client.value.outbound, json), json);
  }

  function ScreenOf(v: View, r: Round): Publish {
    ScreenPublish(r.screen, v.lastState, v.latestInputSeq, true)
  }

  function PaneOf(v: View, c: Scene, r: Round): Publish {
    PanePublish(r.pane, if c.p in v.paneStates then Some(v.paneStates[c.p]) else None,
                c.tab, c.p, r.paneRevision, r.runtimeRevision, v.focusedPaneId == Some(c.p))
  }

  /** A whole publish of the tab, and what reaches the client. */
  lemma TabDone(st: ServerState, v: View, c: Scene, r: Round, app: App, json: Json)
    requires Sound(st) && Seen(st, v) && v.subscribed && Short(r.screen) && Short(r.pane)
    ensures Encodes(ScreenOf(v, r)) && Encodes(PaneOf(v, c, r))
    ensures EnabledRun(st, PublishTab(c, r))
    ensures var st' := Run(st, PublishTab(c, r));
            && Sound(st') && Seen(st', Published(v, c, r))
            && Drain(app, st'.client.value.outbound, json)
               == Handle(Handle(Drain(app, st.client.value.outbound, json), PublishEvent(ScreenOf(v, r))),
                         PublishEvent(PaneOf(v, c, r)))
  {
    hide FitsFrame, Drain, Handle, PublishEvent, Run, EnabledRun;
    var op0, op1 := StartScreen(r.screen), StartPane(c.tab, c.p, r.paneRevision, r.runtimeRevision, r.pane);
    PublishDone(st, v, op0, ScreenOf(v, r), app, json);
    var mid := Run(st, [op0, FinishPublish(0)]);
    PublishDone(mid, CacheNext(v, ScreenOf(v, r)), op1, PaneOf(v, c, r), app, json);
    EnabledAppend(st, [op0, FinishPublish(0)], [op1, FinishPublish(0)]);
  }

  /** Grids of which each can be sent as a delta against the one before, on both lanes. */
  ghost predicate DeltaRounds(screen: RemoteFullState, pane: RemoteFullState, rounds: seq<Round>)
    decreases |rounds|
  {
    rounds == [] ||
      (var r := rounds[0];
       && Short(r.screen) && Short(r.pane) && screen.WellFormed() && pane.WellFormed()
       && Delta(screen, r.screen, None, true).Some? && Delta(pane, r.pane, None, true).Some?
       && DeltaRounds(r.screen, r.pane, rounds[1..]))
  }

  function RoundOps(c: Scene, rounds: seq<Round>): seq<Op> {
    if rounds == [] then [] else PublishTab(c, rounds[0]) + RoundOps(c, rounds[1..])
  }

  function AfterRounds(v: View, c: Scene, rounds: seq<Round>): View
    decreases |rounds|
  {
    if rounds == [] then v else AfterRounds(Published(v, c, rounds[0]), c, rounds[1..])
  }

  lemma AfterRoundsFacts(v: View, c: Scene, rounds: seq<Round>)
    ensures rounds != [] ==>
      var r, w := rounds[|rounds| - 1], AfterRounds(v, c, rounds);
      w.lastState == Some(r.screen) && c.p in w.paneStates && w.paneStates[c.p] == r.pane
    decreases |rounds|
  {
    if |rounds| > 1 {
      AfterRoundsFacts(Published(v, c, rounds[0]), c, rounds[1..]);
    }
  }

  lemma DeltaOfEmpty(d: App, p: Publish)
    requires Encodes(p) && PublishDelta(p).Some? && d.panes == map[]
    ensures Handle(d, PublishEvent(p)).panes == map[]
  {
    hide ApplyDelta, Delta, DeltaBetween;
  }

  lemma DeltaAnyInput(p: RemoteFullState, c: RemoteFullState, a: Option<u64>, b: Option<u64>)
    requires p.WellFormed() && c.WellFormed()
    ensures Delta(p, c, a, true).Some? <==> Delta(p, c, b, true).Some?
  {
    hide FallsBack, DeltaPayload;
  }

  /** However many rounds of deltas follow, the client never gets a pane back. */
  lemma {:induction false} RoundsStayEmpty(st: ServerState, v: View, c: Scene, screen: RemoteFullState,
                                           pane: RemoteFullState, rounds: seq<Round>, app: App, json: Json)
    requires Emptied(st, v, app, json) && v.subscribed && DeltaRounds(screen, pane, rounds)
    requires v.lastState == Some(screen) && c.p in v.paneStates && v.paneStates[c.p] == pane
    ensures EnabledRun(st, RoundOps(c, rounds))
    ensures Emptied(Run(st, RoundOps(c, rounds)), AfterRounds(v, c, rounds), app, json)
    decreases |rounds|
  {
    hide Drain, Handle, PublishEvent, Delta, PublishTab, Short;
    if rounds == [] {
    } else {
      var r := rounds[0];
      assert Short(r.screen) && Short(r.pane);
      TabDone(st, v, c, r, app, json);
      DeltaAnyInput(screen, r.screen, None, v.latestInputSeq);
      DeltaAnyInput(pane, r.pane, None, None);
      var d := Drain(app, st.client.value.outbound, json);
      DeltaOfEmpty(d, ScreenOf(v, r));
      DeltaOfEmpty(Handle(d, PublishEvent(ScreenOf(v, r))), PaneOf(v, c, r));
      RoundsStayEmpty(Run(st, PublishTab(c, r)), Published(v, c, r), c, r.screen, r.pane, rounds[1..], app, json);
      EnabledAppend(st, PublishTab(c, r), RoundOps(c, rounds[1..]));
    }
  }

  /** From a disciplined start, one runtime state of another view revision and then rounds of deltas. */
  lemma EmptiedRun(start: seq<Op>, v: View, told: UiRuntimeState, c: Scene, r: Round, payload: seq<byte>,
                   rounds: seq<Round>, app: App, json: Json)
    requires Leads(IDLE_VIEW, start, v, json) && Told(v, told, json) && v.subscribed
    requires v.lastState == Some(r.screen) && c.p in v.paneStates && v.paneStates[c.p] == r.pane
    requires |payload| < U32_LIMIT && json.runtimeState(payload).Some? && told.viewRevision != 0
    requires json.runtimeState(payload).value.viewRevision != told.viewRevision
    requires DeltaRounds(r.screen, r.pane, rounds)
    ensures var ops := start + ([SendControl(RuntimeStateKind, payload)] + RoundOps(c, rounds));
            && DisciplinedRun(Connected(true), start, json, ANY_THEME) && EnabledRun(Connected(true), ops)
            && Emptied(Run(Connected(true), ops),
                       AfterRounds(SetCacheSlot(v, RuntimeStateKind, payload), c, rounds), app, json)
  {
    hide Step, DisciplinedRun, EnabledRun, Run, Emptied, Told, DeltaRounds, Replicates;
    var op := SendControl(RuntimeStateKind, payload);
    assert Seen(Connected(true), IDLE_VIEW);
    ConnectedReplicates(app, json, ANY_THEME);
    RunReplicates(Connected(true), start, app, json, ANY_THEME);
    var st := Run(Connected(true), start);
    OtherRevisionEmpties(st, v, payload, told, app, json);
    EnabledOne(st, op);
    RoundsStayEmpty(Step(st, op), SetCacheSlot(v, RuntimeStateKind, payload), c, r.screen, r.pane, rounds, app, json);
    EnabledAppend(st, [op], RoundOps(c, rounds));
    EnabledAppend(Connected(true), start, [op] + RoundOps(c, rounds));
  }

  /** The server has the last grids of both panes cached. */
  predicate CachesLast(v: View, c: Scene, r: Round, rounds: seq<Round>) {
    var last := if rounds == [] then r else rounds[|rounds| - 1];
    v.lastState == Some(last.screen) && c.p in v.paneStates && v.paneStates[c.p] == last.pane
  }

  lemma RoundsCached(v: View, c: Scene, r: Round, rounds: seq<Round>)
    requires v.lastState == Some(r.screen) && c.p in v.paneStates && v.paneStates[c.p] == r.pane
    ensures CachesLast(AfterRounds(v, c, rounds), c, r, rounds)
  {
    AfterRoundsFacts(v, c, rounds);
  }

  /** A client attaches and is sent its grids; then comes the broadcast to all local viewers, whose
      view revision is always 1, and any number of rounds of deltas. Whatever the client held at first,
      it shows nothing from then on, while the server's caches move on. */
  lemma SharedBroadcastRun(c: Scene, r: Round, broadcast: seq<byte>, focus: u64, rounds: seq<Round>,
                           app: App, json: Json)
    requires SceneFits(c, json) && Short(r.screen) && Short(r.pane) && r.runtimeRevision == c.revision
    requires |broadcast| < U32_LIMIT && json.runtimeState(broadcast) == Some(UiRuntimeState(1, 1, focus))
    requires DeltaRounds(r.screen, r.pane, rounds)
    ensures var ops := AttachOps(c, r) + ([SendControl(RuntimeStateKind, broadcast)] + RoundOps(c, rounds));
            && DisciplinedRun(Connected(true), AttachOps(c, r), json, ANY_THEME)
            && EnabledRun(Connected(true), ops)
            && var s := Run(Connected(true), ops).client;
               s.Some? && CachesLast(s.value.view, c, r, rounds) && Drain(app, s.value.outbound, json).panes == map[]
  {
    hide Leads, DisciplinedRun, EnabledRun, Run, Drain, DeltaRounds, Short, AttachOps, RoundOps;
    var v := Published(AttachedView(c), c, r);
    AttachedFacts(c);
    AttachLeads(c, r, json);
    EmptiedRun(AttachOps(c, r), v, UiRuntimeState(c.revision, 2, c.q), c, r, broadcast, rounds, app, json);
    RoundsCached(SetCacheSlot(v, RuntimeStateKind, broadcast), c, r, rounds);
  }

  /** The same without any odd payload: a client attaches and types, so that its view is touched and
      the tab is published afresh; then comes a runtime state of the view as it now is, sent because
      something else changed, and any number of rounds of deltas. */
  lemma TypingRun(c: Scene, r: Round, inputSeq: u64, typed: Round, later: seq<byte>, revision: u64, rounds: seq<Round>,
                  app: App, json: Json)
    requires SceneFits(c, json) && Short(r.screen) && Short(r.pane) && r.runtimeRevision == c.revision
    requires Short(typed.screen) && Short(typed.pane) && typed.runtimeRevision == c.revision
    requires |later| < U32_LIMIT && json.runtimeState(later) == Some(UiRuntimeState(revision, 3, c.q))
    requires DeltaRounds(typed.screen, typed.pane, rounds)
    ensures var start := AttachOps(c, r) + TypeOps(c, inputSeq, typed);
            var ops := start + ([SendControl(RuntimeStateKind, later)] + RoundOps(c, rounds));
            && DisciplinedRun(Connected(true), start, json, ANY_THEME)
            && EnabledRun(Connected(true), ops)
            && var s := Run(Connected(true), ops).client;
               && s.Some? && s.value.view.viewRevision == 3 && CachesLast(s.value.view, c, typed, rounds)
               && Drain(app, s.value.outbound, json).panes == map[]
  {
    hide Leads, DisciplinedRun, EnabledRun, Run, Drain, DeltaRounds, Short, AttachOps, TypeOps, RoundOps, TypedView;
    var told := UiRuntimeState(c.revision, 2, c.q);
    var v := Published(AttachedView(c), c, r);
    var w := Published(TypedView(v, c, inputSeq), c, typed);
    AttachedFacts(c);
    AttachLeads(c, r, json);
    TypedFacts(v, c, inputSeq);
    TypeLeads(v, c, inputSeq, typed, told, json);
    LeadsOn(IDLE_VIEW, AttachOps(c, r), v, TypeOps(c, inputSeq, typed), w, json);
    EmptiedRun(AttachOps(c, r) + TypeOps(c, inputSeq, typed), w, told, c, typed, later, rounds, app, json);
    RoundsCached(SetCacheSlot(w, RuntimeStateKind, later), c, typed, rounds);
    RoundsKeepRevision(SetCacheSlot(w, RuntimeStateKind, later), c, rounds);
  }

  lemma {:induction false} RoundsKeepRevision(v: View, c: Scene, rounds: seq<Round>)
    ensures AfterRounds(v, c, rounds).viewRevision == v.viewRevision
    decreases |rounds|
  {
    if rounds == [] {
    } else {
      RoundsKeepRevision(Published(v, c, rounds[0]), c, rounds[1..]);
    }
  }

  // ---- the pane that is filtered ----

  /** The drained client, at the revision it was told, holds this snapshot of the passive pane. */
  ghost predicate Stuck(st: ServerState, v: View, c: Scene, pane: TerminalSnapshot, app: App, json: Json) {
    && Sound(st) && Seen(st, v)
    && var d := Drain(app, st.client.value.outbound, json);
       && d.runtimeRevision == c.revision && d.focusedPaneId == c.q
       && c.p in d.panes && d.panes[c.p] == pane
  }

  /** Rounds of deltas for the passive pane, under runtime revisions the client was not told. */
  ghost predicate FilteredRounds(pane: RemoteFullState, revision: u64, rounds: seq<Round>)
    decreases |rounds|
  {
    rounds == [] ||
      (var r := rounds[0];
       && Short(r.screen) && Short(r.pane) && pane.WellFormed() && Delta(pane, r.pane, None, true).Some?
       && r.runtimeRevision != 0 && r.runtimeRevision != revision
       && FilteredRounds(r.pane, revision, rounds[1..]))
  }

  lemma ScreenLeavesOthers(d: App, p: Publish, q: u64)
    requires Encodes(p) && p.ScreenPublish? && d.focusedPaneId != q && q in d.panes
    ensures var d' := Handle(d, PublishEvent(p));
            && q in d'.panes && d'.panes[q] == d.panes[q]
            && d'.runtimeRevision == d.runtimeRevision && d'.focusedPaneId == d.focusedPaneId
  {
    hide ApplyDelta, Delta, DeltaBetween, RenderChunks;
  }

  lemma DeltaIsFiltered(d: App, p: Publish)
    requires Encodes(p) && p.PanePublish? && PublishDelta(p).Some?
    requires p.runtimeRevision != 0 && p.runtimeRevision != d.runtimeRevision
    ensures Handle(d, PublishEvent(p)) == d
  {
    hide ApplyDelta, Delta, DeltaBetween;
  }

  lemma {:induction false} RoundsStayStuck(st: ServerState, v: View, c: Scene, pane: RemoteFullState,
                                           held: TerminalSnapshot, rounds: seq<Round>, app: App, json: Json)
    requires Stuck(st, v, c, held, app, json) && v.subscribed && FilteredRounds(pane, c.revision, rounds) && c.p != c.q
    requires c.p in v.paneStates && v.paneStates[c.p] == pane
    ensures EnabledRun(st, RoundOps(c, rounds))
    ensures Stuck(Run(st, RoundOps(c, rounds)), AfterRounds(v, c, rounds), c, held, app, json)
    decreases |rounds|
  {
    hide Drain, Handle, PublishEvent, Delta, PublishTab, Short;
    if rounds == [] {
    } else {
      var r := rounds[0];
      assert Short(r.screen) && Short(r.pane);
      TabDone(st, v, c, r, app, json);
      var d := Drain(app, st.client.value.outbound, json);
      ScreenLeavesOthers(d, ScreenOf(v, r), c.p);
      DeltaIsFiltered(Handle(d, PublishEvent(ScreenOf(v, r))), PaneOf(v, c, r));
      RoundsStayStuck(Run(st, PublishTab(c, r)), Published(v, c, r), c, r.pane, held, rounds[1..], app, json);
      EnabledAppend(st, PublishTab(c, r), RoundOps(c, rounds[1..]));
    }
  }

  /** Some cell of the two grids has another text. */
  ghost predicate ReadsDifferently(a: RemoteFullState, b: RemoteFullState) {
    && SameSize(a, b)
    && exists r: nat, j: nat :: r < a.rows && j < a.cols
                                && CellText(a.Row(r)[j].codepoint) != CellText(b.Row(r)[j].codepoint)
  }

  /** A snapshot cannot show two grids that read differently. */
  lemma ShowsOne(s: TerminalSnapshot, a: RemoteFullState, b: RemoteFullState)
    requires ReadsDifferently(a, b) && Shows(s, a, ANY_THEME)
    ensures !Shows(s, b, ANY_THEME)
  {
    var r: nat, j: nat :| r < a.rows && j < a.cols
                          && CellText(a.Row(r)[j].codepoint) != CellText(b.Row(r)[j].codepoint);
    ShownText(s, a, r, j);
    if Shows(s, b, ANY_THEME) {
      ShownText(s, b, r, j);
    }
  }

  lemma ShownText(s: TerminalSnapshot, g: RemoteFullState, r: nat, j: nat)
    requires g.WellFormed() && Shows(s, g, ANY_THEME) && r < g.rows && j < g.cols
    ensures r < |s.rowsData| && j < |s.rowsData[r]| && s.rowsData[r][j].text == CellText(g.Row(r)[j].codepoint)
  {
    assert ShowsRow(s.rowsData[r], g.Row(r), ANY_THEME);
    assert ShowsCell(s.rowsData[r][j], g.Row(r)[j], ANY_THEME);
  }

  /** A client attaches and is sent its grids; then another client's action moves the runtime revision
      on, which only that client is told, and the tab is published any number of times. The passive
      pane stays on the client as it was at first, while the server's cache moves on; once the two
      read differently, the client shows what the server no longer has. */
  lemma FilteredRun(c: Scene, r: Round, rounds: seq<Round>, app: App, json: Json)
    requires SceneFits(c, json) && Short(r.screen) && Short(r.pane) && r.runtimeRevision == c.revision
    requires FilteredRounds(r.pane, c.revision, rounds)
    ensures var ops := AttachOps(c, r) + RoundOps(c, rounds);
            && DisciplinedRun(Connected(true), AttachOps(c, r), json, ANY_THEME)
            && EnabledRun(Connected(true), ops)
            && var s := Run(Connected(true), ops).client;
               && s.Some? && CachesLast(s.value.view, c, r, rounds)
               && var d := Drain(app, s.value.outbound, json);
                  && c.p in d.panes && Shows(d.panes[c.p], r.pane, ANY_THEME)
                  && (rounds != [] && ReadsDifferently(r.pane, rounds[|rounds| - 1].pane) ==>
                        !Shows(d.panes[c.p], rounds[|rounds| - 1].pane, ANY_THEME))
  {
    hide DisciplinedRun, EnabledRun, Run, Drain, FilteredRounds, Short, AttachOps, RoundOps, Shows, ReadsDifferently;
    var v, told := Published(AttachedView(c), c, r), UiRuntimeState(c.revision, 2, c.q);
    AttachedFacts(c);
    AttachLeads(c, r, json);
    assert Seen(Connected(true), IDLE_VIEW);
    ConnectedReplicates(app, json, ANY_THEME);
    RunReplicates(Connected(true), AttachOps(c, r), app, json, ANY_THEME);
    var st := Run(Connected(true), AttachOps(c, r));
    var d := Drain(app, st.client.value.outbound, json);
    assert Tracked(v, d, json) && PaneAgree(v, d, ANY_THEME);
    assert c.p in v.paneStates;
    RoundsStayStuck(st, v, c, r.pane, d.panes[c.p], rounds, app, json);
    EnabledAppend(Connected(true), AttachOps(c, r), RoundOps(c, rounds));
    RoundsCached(v, c, r, rounds);
    if rounds != [] && ReadsDifferently(r.pane, rounds[|rounds| - 1].pane) {
      ShowsOne(d.panes[c.p], r.pane, rounds[|rounds| - 1].pane);
    }
  }
}
