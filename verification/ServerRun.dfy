/** Runs of one client's record: every operation the server performs on it, interleaved freely. */
module ServerRun {
  import opened Bytes
  import opened Grid
  import opened Framing
  import opened RemoteState

  datatype Op =
    | Initialize(clientId: u64, viewedTab: Option<u32>, focusedPane: Option<u64>, visible: seq<u64>)
    | UpdateScope(viewedTab: Option<u32>, focusedPane: Option<u64>, visible: seq<u64>)
    | Attach
    | Detach(now: nat)
    | SubscribeRuntime
    | UnsubscribeRuntime
    | SweepIdle(now: nat, timeout: nat)
    | RetainPanes(kept: set<u64>)
    | RecordInput(inputSeq: u64)
    | SendControl(kind: ControlKind, payload: seq<byte>)
    | ReplyTabs(payload: seq<byte>)
    | SendOther(message: Message)
    | StartScreen(next: RemoteFullState)
    | StartPane(tabId: u32, paneId: u64, paneRevision: u64, runtimeRevision: u64, next: RemoteFullState)
    | FinishPublish(index: nat)
    | Remove

  /** The record, while it exists, and the publishes between their two locks. */
  datatype ServerState = ServerState(client: Option<Session>, inFlight: seq<Publish>)

  /** Grids kept for encoding are well formed. */
  predicate Sound(st: ServerState) {
    && (forall i :: 0 <= i < |st.inFlight| ==> Encodes(st.inFlight[i]))
    && (st.client.Some? ==> SoundView(st.client.value.view))
  }

  predicate SoundView(v: View) {
    && (v.lastState.Some? ==> v.lastState.value.WellFormed())
    && (forall p :: p in v.paneStates ==> v.paneStates[p].WellFormed())
  }

  /** Frame types with a meaning of their own elsewhere in the run. */
  predicate Reserved(ty: MessageType) {
    ty in {TAB_LIST, UI_RUNTIME_STATE, UI_APPEARANCE, FULL_STATE, DELTA, UI_PANE_FULL_STATE, UI_PANE_DELTA}
  }

  predicate Enabled(st: ServerState, op: Op) {
    match op
    case SendOther(m) => !Reserved(m.ty)
    case StartScreen(next) => next.WellFormed()
    case StartPane(_, _, _, _, next) => next.WellFormed()
    case FinishPublish(i) => i < |st.inFlight|
    case _ => true
  }

  /** Operations that touch nothing but the view. */
  function ViewStep(v: View, op: Op): View {
    match op
    case Initialize(clientId, tabId, paneId, visible) => InitializeView(v, clientId, tabId, paneId, visible)
    case UpdateScope(tabId, paneId, visible) =>
      TouchView(v.(viewedTabId := tabId, focusedPaneId := paneId, visiblePaneIds := visible))
    case Attach => AttachUi(v).(subscribed := true)
    case Detach(now) => DetachUi(v, now).(subscribed := false)
    case SubscribeRuntime => Subscribe(v)
    case UnsubscribeRuntime => Unsubscribe(v)
    case SweepIdle(now, timeout) => Sweep(v, now, timeout)
    case RecordInput(inputSeq) => v.(latestInputSeq := Some(inputSeq))
    case _ => v
  }

  function SessionStep(s: Session, op: Op): (s': Session)
    ensures SoundView(s.view) ==> SoundView(s'.view)
  {
    match op
    case RetainPanes(kept) => Retain(s, kept)
    case SendControl(kind, payload) => SendCached(s, kind, payload)
    case ReplyTabs(payload) => ReplyTabList(s, payload)
    case SendOther(m) => SendMessage(s, m)
    case _ => s.(view := ViewStep(s.view, op))
  }

  /** First lock of a publish: an unsubscribed client starts none. */
  function Start(s: Session, op: Op): (p: seq<Publish>)
    requires SoundView(s.view)
    requires op.StartScreen? || op.StartPane?
    requires op.next.WellFormed()
    ensures forall i :: 0 <= i < |p| ==> Encodes(p[i])
  {
    if !s.view.subscribed then []
    else if op.StartScreen? then [BeginScreen(s, op.next)]
    else [BeginPane(s, op.tabId, op.paneId, op.paneRevision, op.runtimeRevision, op.next)]
  }

  function Without(ps: seq<Publish>, i: nat): (r: seq<Publish>)
    requires i < |ps|
    ensures forall p :: p in r ==> p in ps
  {
    ps[..i] + ps[i + 1..]
  }

  lemma CommitSound(s: Session, p: Publish)
    requires SoundView(s.view) && Encodes(p)
    ensures SoundView(Commit(s, p).view)
  {
  }

  function Step(st: ServerState, op: Op): (st': ServerState)
    requires Sound(st) && Enabled(st, op)
    ensures Sound(st')
  {
    if op.FinishPublish? then
      var p, rest := st.inFlight[op.index], Without(st.inFlight, op.index);
      if st.client.None? then ServerState(None, rest)
      else
        CommitSound(st.client.value, p);
        ServerState(Some(Commit(st.client.value, p)), rest)
    else if op.Remove? then st.(client := None)
    else if st.client.None? then st
    else if op.StartScreen? || op.StartPane? then
      st.(inFlight := st.inFlight + Start(st.client.value, op))
    else st.(client := Some(SessionStep(st.client.value, op)))
  }

  predicate EnabledRun(st: ServerState, ops: seq<Op>)
    requires Sound(st)
    decreases |ops|
  {
    ops == [] || (Enabled(st, ops[0]) && EnabledRun(Step(st, ops[0]), ops[1..]))
  }

  function Run(st: ServerState, ops: seq<Op>): (st': ServerState)
    requires Sound(st) && EnabledRun(st, ops)
    ensures Sound(st')
    decreases |ops|
  {
    if ops == [] then st else Run(Step(st, ops[0]), ops[1..])
  }

  /** A record as the listener inserts it. */
  function Connected(isLocal: bool): (st: ServerState)
    ensures Sound(st)
  {
    ServerState(Some(Session(isLocal, IDLE_VIEW, [])), [])
  }

  // ---- view lifecycle ----

  predicate Invariant(st: ServerState) {
    st.client.Some? ==> ViewInvariant(st.client.value.view)
  }

  /** Each touch moves to a new, non-zero revision and empties the stream cache. */
  lemma TouchRenews(v: View)
    ensures TouchView(v).viewRevision != 0
    ensures v.viewRevision != 0 ==> TouchView(v).viewRevision != v.viewRevision
    ensures TouchView(v).NothingCached() && TouchView(v).latestInputSeq.None?
  {
  }

  /** No operation breaks the view invariant, whatever publishes are half done meanwhile. */
  lemma StepKeepsInvariant(st: ServerState, op: Op)
    requires Sound(st) && Enabled(st, op) && Invariant(st)
    ensures Invariant(Step(st, op))
  {
    hide PublishOutbound, EncodeMessage;
  }

  lemma {:induction false} RunKeepsInvariant(st: ServerState, ops: seq<Op>)
    requires Sound(st) && EnabledRun(st, ops) && Invariant(st)
    ensures Invariant(Run(st, ops))
    decreases |ops|
  {
    hide Step, Invariant;
    if ops == [] {
    } else {
      StepKeepsInvariant(st, ops[0]);
      RunKeepsInvariant(Step(st, ops[0]), ops[1..]);
    }
  }

  /** From connection on: the revision is never 0, an attached view has no detach time, and an
      unsubscribed client holds no cached grid. */
  lemma LifecycleHolds(isLocal: bool, ops: seq<Op>)
    requires EnabledRun(Connected(isLocal), ops)
    ensures Invariant(Run(Connected(isLocal), ops))
  {
    RunKeepsInvariant(Connected(isLocal), ops);
  }

  // ---- scope, identity, subscription, pruning ----

  /** A view gets its id from the first client id it is initialized for, and keeps it. */
  lemma StepKeepsId(st: ServerState, op: Op)
    requires Sound(st) && Enabled(st, op) && st.client.Some?
    ensures var st' := Step(st, op);
            st'.client.Some? ==>
              st'.client.value.view.viewId
              == if st.client.value.view.viewId == 0 && op.Initialize? then op.clientId else st.client.value.view.viewId
  {
    hide PublishOutbound, EncodeMessage;
  }

  lemma {:induction false} IdStays(st: ServerState, ops: seq<Op>)
    requires Sound(st) && EnabledRun(st, ops) && st.client.Some? && st.client.value.view.viewId != 0
    ensures Run(st, ops).client.Some? ==> Run(st, ops).client.value.view.viewId == st.client.value.view.viewId
    decreases |ops|
  {
    hide Step;
    if ops == [] {
    } else {
      StepKeepsId(st, ops[0]);
      if Step(st, ops[0]).client.Some? {
        IdStays(Step(st, ops[0]), ops[1..]);
      } else {
        NeverBack(Step(st, ops[0]), ops[1..]);
      }
    }
  }

  lemma {:induction false} NeverBack(st: ServerState, ops: seq<Op>)
    requires Sound(st) && EnabledRun(st, ops) && st.client.None?
    ensures Run(st, ops).client.None?
    decreases |ops|
  {
    if ops == [] {
    } else {
      NeverBack(Step(st, ops[0]), ops[1..]);
    }
  }

  /** What a client looks at. */
  predicate Scoped(st: ServerState, tab: Option<u32>, pane: Option<u64>, visible: seq<u64>) {
    st.client.Some? ==>
      var v := st.client.value.view;
      v.viewedTabId == tab && v.focusedPaneId == pane && v.visiblePaneIds == visible
  }

  lemma StepScopes(st: ServerState, op: Op, tab: Option<u32>, pane: Option<u64>, visible: seq<u64>)
    requires Sound(st) && Enabled(st, op)
    ensures op == UpdateScope(tab, pane, visible)
            || (op.Initialize? && op == Initialize(op.clientId, tab, pane, visible))
            ==> Scoped(Step(st, op), tab, pane, visible)
    ensures Scoped(st, tab, pane, visible) && !op.Initialize? && !op.UpdateScope? && ExpiresNow(st, op) == 0
            ==> Scoped(Step(st, op), tab, pane, visible)
  {
    hide PublishOutbound, EncodeMessage;
  }

  predicate NoNewScope(ops: seq<Op>) {
    forall i :: 0 <= i < |ops| ==> !ops[i].Initialize? && !ops[i].UpdateScope?
  }

  lemma {:induction false} ScopeStays(st: ServerState, ops: seq<Op>, tab: Option<u32>, pane: Option<u64>,
                                      visible: seq<u64>)
    requires Sound(st) && EnabledRun(st, ops) && Scoped(st, tab, pane, visible)
    requires NoNewScope(ops) && Expirations(st, ops) == 0
    ensures Scoped(Run(st, ops), tab, pane, visible)
    decreases |ops|
  {
    hide Step, Scoped, ExpiresNow;
    if ops == [] {
    } else {
      StepScopes(st, ops[0], tab, pane, visible);
      ScopeStays(Step(st, ops[0]), ops[1..], tab, pane, visible);
    }
  }

  /** Over every run: a view looks at what it was last given, until it is given something else or
      expires. */
  lemma LatestScopeHolds(st: ServerState, op: Op, ops: seq<Op>)
    requires Sound(st) && Enabled(st, op) && (op.Initialize? || op.UpdateScope?) && EnabledRun(Step(st, op), ops)
    requires NoNewScope(ops) && Expirations(Step(st, op), ops) == 0
    ensures op.Initialize? ==> Scoped(Run(Step(st, op), ops), op.viewedTab, op.focusedPane, op.visible)
    ensures op.UpdateScope? ==> Scoped(Run(Step(st, op), ops), op.viewedTab, op.focusedPane, op.visible)
  {
    hide Step, Scoped, Run;
    StepScopes(st, op, op.viewedTab, op.focusedPane, op.visible);
    ScopeStays(Step(st, op), ops, op.viewedTab, op.focusedPane, op.visible);
  }

  /** Subscribing again changes nothing; subscribing anew, and unsubscribing, leaves nothing to encode
      against. */
  lemma SubscriptionExactly(v: View)
    ensures v.subscribed ==> Subscribe(v) == v
    ensures Subscribe(v).subscribed
    ensures !v.subscribed ==> Subscribe(v).NothingCached() && Subscribe(v).latestInputSeq.None?
    ensures !Unsubscribe(v).subscribed && Unsubscribe(v).NothingCached() && Unsubscribe(v).latestInputSeq.None?
    ensures Subscribe(v).viewRevision == v.viewRevision == Unsubscribe(v).viewRevision
  {
  }

  /** Pruning to the visible panes: for a local subscribed client the next publish of a hidden pane
      starts over from a full state, and that of a visible one is the very one it would have been; for
      any other client all are. */
  lemma PrunedExactly(s: Session, kept: set<u64>, tabId: u32, p: u64, paneRevision: u64, runtimeRevision: u64,
                      next: RemoteFullState)
    requires next.WellFormed() && SoundView(s.view)
    ensures var after := BeginPane(Retain(s, kept), tabId, p, paneRevision, runtimeRevision, next);
            && Encodes(after)
            && (s.isLocal && s.view.subscribed && p !in kept ==>
                  after.previous.None? && PublishMessage(after).ty == UI_PANE_FULL_STATE)
            && (!(s.isLocal && s.view.subscribed) || p in kept ==>
                  after == BeginPane(s, tabId, p, paneRevision, runtimeRevision, next))
    ensures BeginScreen(Retain(s, kept), next) == BeginScreen(s, next) && Retain(s, kept).outbound == s.outbound
  {
  }

  /** Neither renews the view, nor moves its subscription, nor records other input. */
  predicate KeepsInput(ops: seq<Op>) {
    forall i :: 0 <= i < |ops| ==>
      && !ops[i].Initialize? && !ops[i].UpdateScope? && !ops[i].Attach? && !ops[i].Detach?
      && !ops[i].SubscribeRuntime? && !ops[i].UnsubscribeRuntime? && !ops[i].RecordInput?
  }

  lemma StepKeepsInput(st: ServerState, op: Op)
    requires Sound(st) && Enabled(st, op) && st.client.Some? && KeepsInput([op]) && ExpiresNow(st, op) == 0
    ensures Step(st, op).client.Some? ==>
              Step(st, op).client.value.view.latestInputSeq == st.client.value.view.latestInputSeq
  {
    hide PublishOutbound, EncodeMessage, Encodes, SoundView;
    assert [op][0] == op;
  }

  lemma {:induction false} InputStays(st: ServerState, ops: seq<Op>)
    requires Sound(st) && EnabledRun(st, ops) && st.client.Some? && KeepsInput(ops) && Expirations(st, ops) == 0
    ensures Run(st, ops).client.Some? ==>
              Run(st, ops).client.value.view.latestInputSeq == st.client.value.view.latestInputSeq
    decreases |ops|
  {
    hide Step, ExpiresNow;
    if ops == [] {
    } else {
      assert KeepsInput([ops[0]]);
      StepKeepsInput(st, ops[0]);
      if Step(st, ops[0]).client.Some? {
        InputStays(Step(st, ops[0]), ops[1..]);
      } else {
        NeverBack(Step(st, ops[0]), ops[1..]);
      }
    }
  }

  /** Recorded input waits to be acknowledged until the view is renewed, its subscription moves, or other
      input comes: the next screen publish captures it. */
  lemma InputAwaits(st: ServerState, inputSeq: u64, ops: seq<Op>, next: RemoteFullState)
    requires Sound(st) && st.client.Some? && EnabledRun(Step(st, RecordInput(inputSeq)), ops) && KeepsInput(ops)
    requires Expirations(Step(st, RecordInput(inputSeq)), ops) == 0
    ensures var c := Run(Step(st, RecordInput(inputSeq)), ops).client;
            c.Some? ==> BeginScreen(c.value, next).latestInputSeq == Some(inputSeq)
  {
    hide Run, EnabledRun, Expirations;
    InputStays(Step(st, RecordInput(inputSeq)), ops);
  }

  /** A client that was removed stays away: publishes that were under way end without it. */
  lemma RemovedForGood(st: ServerState, ops: seq<Op>)
    requires Sound(st) && EnabledRun(Step(st, Remove), ops)
    ensures Run(Step(st, Remove), ops).client.None?
  {
    NeverBack(Step(st, Remove), ops);
  }

  // ---- clients that are not subscribed ----

  /** The grids in a queue, whole or as deltas. */
  function Grids(out: seq<OutboundMessage>): seq<OutboundMessage> {
    if out == [] then [] else Grids(out[..|out| - 1]) + if out[|out| - 1].Frame? then [] else [out[|out| - 1]]
  }

  predicate Deaf(st: ServerState, grids: seq<OutboundMessage>) {
    st.client.Some? ==> !st.client.value.view.subscribed && Grids(st.client.value.outbound) == grids
  }

  lemma ViewStaysDeaf(v: View, op: Op)
    requires !v.subscribed && !op.SubscribeRuntime? && !op.Attach?
    ensures !ViewStep(v, op).subscribed
  {
  }

  lemma FramesAreNoGrids(out: seq<OutboundMessage>, m: OutboundMessage)
    requires m.Frame?
    ensures Grids(out + [m]) == Grids(out)
  {
    assert (out + [m])[..|out|] == out;
  }

  lemma SessionStaysDeaf(s: Session, op: Op)
    requires SoundView(s.view) && !s.view.subscribed && !op.SubscribeRuntime? && !op.Attach?
    ensures !SessionStep(s, op).view.subscribed && Grids(SessionStep(s, op).outbound) == Grids(s.outbound)
  {
    hide ViewStep, Grids, EncodeMessage, SoundView;
    forall m: OutboundMessage | m.Frame? ensures Grids(s.outbound + [m]) == Grids(s.outbound) {
      FramesAreNoGrids(s.outbound, m);
    }
    ViewStaysDeaf(s.view, op);
  }

  lemma StepStaysDeaf(st: ServerState, op: Op, grids: seq<OutboundMessage>)
    requires Sound(st) && Enabled(st, op) && Deaf(st, grids) && !op.SubscribeRuntime? && !op.Attach?
    ensures Deaf(Step(st, op), grids)
  {
    hide PublishOutbound, SessionStep, Grids, CacheNext, BeginScreen, BeginPane;
    if st.client.Some? {
      SessionStaysDeaf(st.client.value, op);
    }
  }

  lemma {:induction false} RunStaysDeaf(st: ServerState, ops: seq<Op>, grids: seq<OutboundMessage>)
    requires Sound(st) && EnabledRun(st, ops) && Deaf(st, grids)
    requires forall i :: 0 <= i < |ops| ==> !ops[i].SubscribeRuntime? && !ops[i].Attach?
    ensures Deaf(Run(st, ops), grids)
    decreases |ops|
  {
    hide Step, Deaf;
    if ops == [] {
    } else {
      StepStaysDeaf(st, ops[0], grids);
      RunStaysDeaf(Step(st, ops[0]), ops[1..], grids);
    }
  }

  /** From the moment a client unsubscribes or detaches, and until it subscribes or attaches again, no
      grid is queued for it, not even by publishes that were half done. */
  lemma NoGridsUnsubscribed(st: ServerState, op: Op, ops: seq<Op>)
    requires Sound(st) && st.client.Some? && (op.UnsubscribeRuntime? || op.Detach?) && EnabledRun(Step(st, op), ops)
    requires forall i :: 0 <= i < |ops| ==> !ops[i].SubscribeRuntime? && !ops[i].Attach?
    ensures var st' := Run(Step(st, op), ops);
            st'.client.Some? ==> Grids(st'.client.value.outbound) == Grids(st.client.value.outbound)
  {
    RunStaysDeaf(Step(st, op), ops, Grids(st.client.value.outbound));
  }

  /** The operations that renew a view. */
  predicate Renews(st: ServerState, op: Op) {
    op.Initialize? || op.UpdateScope? || op.Attach? || op.Detach? || ExpiresNow(st, op) == 1
  }

  /** The revision moves with a new scope, a new attachment, a detachment and an expiry, and with nothing
      else; and whenever it moves, nothing sent under the old one is left to encode against. */
  lemma RevisionMovesExactly(st: ServerState, op: Op)
    requires Sound(st) && Enabled(st, op) && st.client.Some? && !op.Remove?
    ensures var v, s' := st.client.value.view, Step(st, op).client;
            && s'.Some?
            && (s'.value.view.viewRevision != v.viewRevision <==> Renews(st, op))
            && (Renews(st, op) ==> s'.value.view.NothingCached() && s'.value.view.latestInputSeq.None?)
  {
    hide PublishOutbound, EncodeMessage;
  }

  /** A client that is given a view counts as attached, subscribed or not, as it was. */
  lemma InitializeAttaches(st: ServerState, op: Op)
    requires Sound(st) && st.client.Some? && op.Initialize?
    ensures var v, w := st.client.value.view, Step(st, op).client.value.view;
            && w.uiAttached && w.detachedAt.None? && w.subscribed == v.subscribed
            && w.viewportCols == v.viewportCols && w.viewportRows == v.viewportRows
  {
  }

  /** Attaching starts over: subscribed, under a new revision, with nothing to encode against; and an
      attached client does not expire until it detaches. */
  lemma AttachStartsOver(st: ServerState)
    requires Sound(st) && st.client.Some?
    ensures var v, w := st.client.value.view, Step(st, Attach).client.value.view;
            && w.subscribed && w.uiAttached && w.detachedAt.None? && w.NothingCached()
            && w.viewRevision != 0 && (v.viewRevision != 0 ==> w.viewRevision != v.viewRevision)
            && w.viewedTabId == v.viewedTabId && w.focusedPaneId == v.focusedPaneId
            && w.visiblePaneIds == v.visiblePaneIds
  {
  }

  lemma {:induction false} AttachedNeverExpires(st: ServerState, ops: seq<Op>)
    requires Sound(st) && EnabledRun(st, ops) && (st.client.Some? ==> st.client.value.view.detachedAt.None?)
    requires forall i :: 0 <= i < |ops| ==> !ops[i].Detach?
    ensures Expirations(st, ops) == 0
    decreases |ops|
  {
    hide PublishOutbound, EncodeMessage, Step, ExpiresNow;
    if ops == [] {
    } else {
      StepExpires(st, ops[0]);
      NoneToExpire(st, ops[0]);
      AttachedNeverExpires(Step(st, ops[0]), ops[1..]);
    }
  }

  lemma NoneToExpire(st: ServerState, op: Op)
    requires Sound(st) && Enabled(st, op) && !op.Detach? && (st.client.Some? ==> st.client.value.view.detachedAt.None?)
    ensures ExpiresNow(st, op) == 0
    ensures Step(st, op).client.Some? ==> Step(st, op).client.value.view.detachedAt.None?
  {
    hide PublishOutbound, EncodeMessage;
  }

  // ---- when a detached view expires ----

  /** A clock whose differences saturate: a timeout of nothing has always passed. */
  predicate Overdue(detached: nat, now: nat, timeout: nat) {
    timeout == 0 || now >= detached + timeout
  }

  /** Neither the client comes back or detaches again, nor is any sweep late enough. */
  predicate KeepsWaiting(op: Op, detached: nat) {
    && !op.Attach? && !op.Initialize? && !op.Detach? && !op.Remove?
    && (op.SweepIdle? ==> !Overdue(detached, op.now, op.timeout))
  }

  predicate AllKeepWaiting(ops: seq<Op>, detached: nat) {
    forall i :: 0 <= i < |ops| ==> KeepsWaiting(ops[i], detached)
  }

  /** Detached at that time, and not since expired. */
  predicate Waiting(st: ServerState, detached: nat) {
    st.client.Some? && !st.client.value.view.uiAttached && st.client.value.view.detachedAt == Some(detached)
  }

  lemma StepWaits(st: ServerState, op: Op, detached: nat)
    requires Sound(st) && Enabled(st, op) && Waiting(st, detached) && KeepsWaiting(op, detached)
    ensures Waiting(Step(st, op), detached) && ExpiresNow(st, op) == 0
  {
    hide PublishOutbound, EncodeMessage;
  }

  lemma {:induction false} RunWaits(st: ServerState, ops: seq<Op>, detached: nat)
    requires Sound(st) && EnabledRun(st, ops) && Waiting(st, detached) && AllKeepWaiting(ops, detached)
    ensures Waiting(Run(st, ops), detached) && Expirations(st, ops) == 0
    decreases |ops|
  {
    hide Step, ExpiresNow, Waiting, KeepsWaiting;
    if ops == [] {
    } else {
      StepWaits(st, ops[0], detached);
      assert AllKeepWaiting(ops[1..], detached);
      RunWaits(Step(st, ops[0]), ops[1..], detached);
    }
  }

  /** Out of the way: unsubscribed, without a scope, with nothing cached, and not to expire again. */
  predicate PutAway(v: View) {
    && !v.subscribed && v.viewedTabId == None && v.focusedPaneId == None && v.visiblePaneIds == []
    && v.viewportCols == None && v.viewportRows == None && v.NothingCached() && v.detachedAt == None
  }

  lemma DetachWaits(st: ServerState, detached: nat)
    requires Sound(st) && st.client.Some?
    ensures Waiting(Step(st, Detach(detached)), detached)
  {
  }

  /** From any state: a client that detaches and does not come back is left alone by every sweep that
      is not overdue, whatever else happens; the first sweep after that expires its view, counted
      once and put away, exactly when it is overdue, and otherwise leaves it waiting. */
  lemma ExpiresExactly(st: ServerState, detached: nat, ops: seq<Op>, now: nat, timeout: nat)
    requires Sound(st) && st.client.Some?
    requires EnabledRun(Step(st, Detach(detached)), ops) && AllKeepWaiting(ops, detached)
    ensures var st0 := Step(st, Detach(detached));
            var st1, sweep := Run(st0, ops), SweepIdle(now, timeout);
            var st2 := Step(st1, sweep);
            && Waiting(st1, detached) && Expirations(st0, ops) == 0
            && (Overdue(detached, now, timeout) ==>
                  ExpiresNow(st1, sweep) == 1 && st2.client.Some? && PutAway(st2.client.value.view))
            && (!Overdue(detached, now, timeout) ==> ExpiresNow(st1, sweep) == 0 && Waiting(st2, detached))
  {
    var st0 := Step(st, Detach(detached));
    DetachWaits(st, detached);
    RunWaits(st0, ops, detached);
    hide Run, PublishOutbound, EncodeMessage;
    var st1 := Run(st0, ops);
    assert Waiting(st1, detached);
  }

  // ---- each detach expires at most once ----

  function ExpiresNow(st: ServerState, op: Op): nat {
    if op.SweepIdle? && st.client.Some? && Expires(st.client.value.view, op.now, op.timeout) then 1 else 0
  }

  function Expirations(st: ServerState, ops: seq<Op>): nat
    requires Sound(st) && EnabledRun(st, ops)
    decreases |ops|
  {
    if ops == [] then 0 else ExpiresNow(st, ops[0]) + Expirations(Step(st, ops[0]), ops[1..])
  }

  function Detaches(ops: seq<Op>): nat {
    if ops == [] then 0 else (if ops[0].Detach? then 1 else 0) + Detaches(ops[1..])
  }

  function Pending(st: ServerState): nat {
    if st.client.Some? && st.client.value.view.detachedAt.Some? then 1 else 0
  }

  lemma StepExpires(st: ServerState, op: Op)
    requires Sound(st) && Enabled(st, op)
    ensures ExpiresNow(st, op) + Pending(Step(st, op)) <= Pending(st) + (if op.Detach? then 1 else 0)
  {
    hide PublishOutbound, EncodeMessage;
  }

  lemma {:induction false} ExpiresOncePerDetach(st: ServerState, ops: seq<Op>)
    requires Sound(st) && EnabledRun(st, ops)
    ensures Expirations(st, ops) + Pending(Run(st, ops)) <= Pending(st) + Detaches(ops)
    decreases |ops|
  {
    hide Step, ExpiresNow, Pending;
    if ops == [] {
    } else {
      StepExpires(st, ops[0]);
      ExpiresOncePerDetach(Step(st, ops[0]), ops[1..]);
    }
  }
}
