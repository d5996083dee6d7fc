/** The server's per-client runtime view: subscription, cached payloads and cached grids. */
module RemoteState {
  import opened Bytes
  import opened Grid
  import opened Framing
  import opened WireEncode

  datatype OutboundMessage =
    | Frame(bytes: seq<byte>)
    | ScreenUpdate(bytes: seq<byte>)
    | PaneUpdate(paneId: u64, focused: bool, bytes: seq<byte>)

  datatype View = View(
    viewId: u64, subscribed: bool, viewRevision: u64,
    viewedTabId: Option<u32>, focusedPaneId: Option<u64>,
    viewportCols: Option<u16>, viewportRows: Option<u16>, visiblePaneIds: seq<u64>,
    uiAttached: bool, detachedAt: Option<nat>,
    tabListPayload: Option<seq<byte>>, runtimePayload: Option<seq<byte>>, appearancePayload: Option<seq<byte>>,
    lastState: Option<RemoteFullState>, paneStates: map<u64, RemoteFullState>, latestInputSeq: Option<u64>)
  {
    predicate NothingCached() {
      lastState.None? && paneStates == map[]
    }
  }

  const IDLE_VIEW: View :=
    View(0, false, 1, None, None, None, None, [], true, None, None, None, None, None, map[], None)

  /** One client: its view, its transport flag and everything queued for it so far. */
  datatype Session = Session(isLocal: bool, view: View, outbound: seq<OutboundMessage>)

  // ---- view transitions ----

  function ClearStreamState(v: View): View {
    v.(lastState := None, paneStates := map[], latestInputSeq := None)
  }

  function NextViewRevision(r: u64): u64 {
    if WrappingAdd(r, 1) == 0 then 1 else WrappingAdd(r, 1)
  }

  function TouchView(v: View): View {
    ClearStreamState(v.(viewRevision := NextViewRevision(v.viewRevision)))
  }

  function AttachUi(v: View): View {
    TouchView(v.(uiAttached := true, detachedAt := None))
  }

  function DetachUi(v: View, now: nat): View {
    TouchView(v.(uiAttached := false, detachedAt := Some(now)))
  }

  function InitializeView(v: View, clientId: u64, tabId: Option<u32>, paneId: Option<u64>, visible: seq<u64>): View {
    TouchView(v.(viewId := if v.viewId == 0 then clientId else v.viewId,
                 viewedTabId := tabId, focusedPaneId := paneId, visiblePaneIds := visible,
                 uiAttached := true, detachedAt := None))
  }

  function Subscribe(v: View): View {
    if v.subscribed then v else ClearStreamState(v.(subscribed := true))
  }

  function Unsubscribe(v: View): View {
    ClearStreamState(v.(subscribed := false))
  }

  /** Detached for at least `timeout`, by a clock whose differences saturate at zero. */
  predicate Expires(v: View, now: nat, timeout: nat) {
    v.detachedAt.Some? && !v.uiAttached
    && (if now < v.detachedAt.value then 0 else now - v.detachedAt.value) >= timeout
  }

  function Sweep(v: View, now: nat, timeout: nat): View {
    if !Expires(v, now, timeout) then v
    else TouchView(v.(subscribed := false, viewedTabId := None, focusedPaneId := None, visiblePaneIds := [],
                      viewportCols := None, viewportRows := None, detachedAt := None))
  }

  function Retain(s: Session, visible: set<u64>): Session {
    if s.isLocal && s.view.subscribed
    then s.(view := s.view.(paneStates := map p | p in s.view.paneStates && p in visible :: s.view.paneStates[p]))
    else s
  }

  // ---- what every view keeps ----

  /** The revision is never 0, an attached view has no detach time, and an unsubscribed one holds no
      cached grid. */
  predicate ViewInvariant(v: View) {
    && v.viewRevision != 0
    && (v.uiAttached ==> v.detachedAt.None?)
    && (!v.subscribed ==> v.NothingCached())
  }

  lemma IdleKeeps()
    ensures ViewInvariant(IDLE_VIEW)
  {
  }

  lemma ScopeKeeps(v: View, clientId: u64, tabId: Option<u32>, paneId: Option<u64>, visible: seq<u64>)
    requires ViewInvariant(v)
    ensures ViewInvariant(InitializeView(v, clientId, tabId, paneId, visible))
    ensures ViewInvariant(Subscribe(v)) && ViewInvariant(Unsubscribe(v))
  {
  }

  lemma SweepKeeps(v: View, now: nat, timeout: nat)
    requires ViewInvariant(v)
    ensures ViewInvariant(Sweep(v, now, timeout))
  {
  }

  lemma RetainKeeps(s: Session, visible: set<u64>)
    requires ViewInvariant(s.view)
    ensures ViewInvariant(Retain(s, visible).view)
  {
  }

  lemma SendKeepsView(s: Session, k: ControlKind, payload: seq<byte>)
    requires ViewInvariant(s.view)
    ensures ViewInvariant(SendCached(s, k, payload).view) && ViewInvariant(ReplyTabList(s, payload).view)
  {
  }

  lemma CommitKeepsView(s: Session, p: Publish)
    requires ViewInvariant(s.view) && Encodes(p)
    ensures ViewInvariant(Commit(s, p).view)
  {
    hide PublishOutbound;
  }

  // ---- cached control payloads ----

  datatype ControlKind = TabListKind | RuntimeStateKind | AppearanceKind

  function ControlType(k: ControlKind): MessageType {
    match k
    case TabListKind => TAB_LIST
    case RuntimeStateKind => UI_RUNTIME_STATE
    case AppearanceKind => UI_APPEARANCE
  }

  function CacheSlot(v: View, k: ControlKind): Option<seq<byte>> {
    match k
    case TabListKind => v.tabListPayload
    case RuntimeStateKind => v.runtimePayload
    case AppearanceKind => v.appearancePayload
  }

  function SetCacheSlot(v: View, k: ControlKind, payload: seq<byte>): View {
    match k
    case TabListKind => v.(tabListPayload := Some(payload))
    case RuntimeStateKind => v.(runtimePayload := Some(payload))
    case AppearanceKind => v.(appearancePayload := Some(payload))
  }

  function SendMessage(s: Session, m: Message): Session {
    s.(outbound := s.outbound + [Frame(EncodeMessage(m))])
  }

  /** `send_cached_control_payload_bytes`: a payload equal to the cached one is not sent again. */
  function SendCached(s: Session, k: ControlKind, payload: seq<byte>): Session {
    if CacheSlot(s.view, k) == Some(payload) then s
    else SendMessage(s.(view := SetCacheSlot(s.view, k, payload)), Message(ControlType(k), payload))
  }

  /** `reply_tab_list`: past the cache. */
  function ReplyTabList(s: Session, payload: seq<byte>): Session {
    SendMessage(s, Message(TAB_LIST, payload))
  }

  // ---- two-phase publish ----

  /** What a publish carries from its first lock to its second. */
  datatype Publish =
    | ScreenPublish(next: RemoteFullState, previous: Option<RemoteFullState>, latestInputSeq: Option<u64>,
                    isLocal: bool)
    | PanePublish(next: RemoteFullState, previous: Option<RemoteFullState>, tabId: u32, paneId: u64,
                  paneRevision: u64, runtimeRevision: u64, focused: bool)

  predicate Encodes(p: Publish) {
    p.next.WellFormed() && (p.previous.Some? ==> p.previous.value.WellFormed())
  }

  function BeginScreen(s: Session, next: RemoteFullState): Publish {
    ScreenPublish(next, s.view.lastState, s.view.latestInputSeq, s.isLocal)
  }

  function BeginPane(s: Session, tabId: u32, paneId: u64, paneRevision: u64, runtimeRevision: u64,
                     next: RemoteFullState): Publish {
    PanePublish(next, if paneId in s.view.paneStates then Some(s.view.paneStates[paneId]) else None,
                tabId, paneId, paneRevision, runtimeRevision, s.view.focusedPaneId == Some(paneId))
  }

  function PublishDelta(p: Publish): Option<seq<byte>>
    requires Encodes(p)
  {
    if p.previous.None? then None
    else match p
         case ScreenPublish(next, previous, inputSeq, isLocal) => Delta(previous.value, next, inputSeq, isLocal)
         case PanePublish(next, previous, _, _, _, _, _) => Delta(previous.value, next, None, true)
  }

  function PublishMessage(p: Publish): Message
    requires Encodes(p)
  {
    var delta := PublishDelta(p);
    match p
    case ScreenPublish(next, _, inputSeq, isLocal) =>
      if delta.Some? then Message(DELTA, delta.value)
      else Message(FULL_STATE, FullPayload(next, inputSeq, isLocal))
    case PanePublish(next, _, tabId, paneId, paneRevision, runtimeRevision, _) =>
      if delta.Some? then Message(UI_PANE_DELTA, PanePayload(tabId, paneId, paneRevision, runtimeRevision, delta.value))
      else Message(UI_PANE_FULL_STATE,
                   PanePayload(tabId, paneId, paneRevision, runtimeRevision, FullPayload(next, None, true)))
  }

  function PublishOutbound(p: Publish): OutboundMessage
    requires Encodes(p)
  {
    var frame := EncodeMessage(PublishMessage(p));
    if p.ScreenPublish? then ScreenUpdate(frame) else PaneUpdate(p.paneId, p.focused, frame)
  }

  function CacheNext(v: View, p: Publish): View {
    if p.ScreenPublish? then v.(lastState := Some(p.next))
    else v.(paneStates := v.paneStates[p.paneId := p.next])
  }

  /** The second lock: a client unsubscribed in the meantime gets nothing and caches nothing. */
  function Commit(s: Session, p: Publish): Session
    requires Encodes(p)
  {
    if !s.view.subscribed then s
    else s.(view := CacheNext(s.view, p), outbound := s.outbound + [PublishOutbound(p)])
  }
}
