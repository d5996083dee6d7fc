/** The server object: client records in a map, updated in place. */
module RemoteServer {
  import opened Bytes
  import opened Grid
  import opened Framing
  import opened RemoteState

  /** A client record together with its runtime view. */
  class ClientState {
    const isLocal: bool
    var outbound: seq<OutboundMessage>
    var viewId: u64
    var subscribedToRuntime: bool
    var viewRevision: u64
    var viewedTabId: Option<u32>
    var focusedPaneId: Option<u64>
    var viewportCols: Option<u16>
    var viewportRows: Option<u16>
    var visiblePaneIds: seq<u64>
    var uiAttached: bool
    var detachedAt: Option<nat>
    var lastTabListPayload: Option<seq<byte>>
    var lastUiRuntimeStatePayload: Option<seq<byte>>
    var lastUiAppearancePayload: Option<seq<byte>>
    var lastState: Option<RemoteFullState>
    var paneStates: map<u64, RemoteFullState>
    var latestInputSeq: Option<u64>

    function Model(): Session
      reads this
    {
      Session(isLocal,
        View(viewId, subscribedToRuntime, viewRevision, viewedTabId, focusedPaneId, viewportCols, viewportRows,
             visiblePaneIds, uiAttached, detachedAt, lastTabListPayload, lastUiRuntimeStatePayload,
             lastUiAppearancePayload, lastState, paneStates, latestInputSeq),
        outbound)
    }

    constructor (isLocal: bool)
      ensures Model() == Session(isLocal, IDLE_VIEW, [])
    {
      this.isLocal := isLocal;
      outbound := [];
      viewId, subscribedToRuntime, viewRevision := 0, false, 1;
      viewedTabId, focusedPaneId, viewportCols, viewportRows := None, None, None, None;
      visiblePaneIds, uiAttached, detachedAt := [], true, None;
      lastTabListPayload, lastUiRuntimeStatePayload, lastUiAppearancePayload := None, None, None;
      lastState, paneStates, latestInputSeq := None, map[], None;
    }

    method ClearStreamState()
      modifies this
      ensures Model() == old(Model()).(view := RemoteState.ClearStreamState(old(Model()).view))
    {
      lastState := None;
      paneStates := map[];
      latestInputSeq := None;
    }

    method TouchView()
      modifies this
      ensures Model() == old(Model()).(view := RemoteState.TouchView(old(Model()).view))
    {
      var next := WrappingAdd(viewRevision, 1);
      viewRevision := if next < 1 then 1 else next;
      ClearStreamState();
    }

    method AttachUi()
      modifies this
      ensures Model() == old(Model()).(view := RemoteState.AttachUi(old(Model()).view))
    {
      uiAttached := true;
      detachedAt := None;
      TouchView();
    }

    method DetachUi(now: nat)
      modifies this
      ensures Model() == old(Model()).(view := RemoteState.DetachUi(old(Model()).view, now))
    {
      uiAttached := false;
      detachedAt := Some(now);
      TouchView();
    }

    method Initialize(clientId: u64, tabId: Option<u32>, paneId: Option<u64>, visible: seq<u64>)
      modifies this
      ensures Model() == old(Model()).(view := InitializeView(old(Model()).view, clientId, tabId, paneId, visible))
    {
      hide RemoteState.TouchView;
      ghost var v := Model().view;
      SetScope(clientId, tabId, paneId, visible);
      assert Model().view == v.(viewId := if v.viewId == 0 then clientId else v.viewId, viewedTabId := tabId,
        focusedPaneId := paneId, visiblePaneIds := visible, uiAttached := true, detachedAt := None);
      TouchView();
    }

    method SetScope(clientId: u64, tabId: Option<u32>, paneId: Option<u64>, visible: seq<u64>)
      modifies this`viewId, this`viewedTabId, this`focusedPaneId, this`visiblePaneIds, this`uiAttached, this`detachedAt
      ensures viewId == if old(viewId) == 0 then clientId else old(viewId)
      ensures viewedTabId == tabId && focusedPaneId == paneId && visiblePaneIds == visible
      ensures uiAttached && detachedAt == None
    {
      if viewId == 0 {
        viewId := clientId;
      }
      viewedTabId := tabId;
      focusedPaneId := paneId;
      visiblePaneIds := visible;
      uiAttached := true;
      detachedAt := None;
    }

    method SubscribeToRuntime()
      modifies this
      ensures Model() == old(Model()).(view := Subscribe(old(Model()).view))
    {
      if !subscribedToRuntime {
        subscribedToRuntime := true;
        ClearStreamState();
      }
    }

    method UnsubscribeFromRuntime()
      modifies this
      ensures Model() == old(Model()).(view := Unsubscribe(old(Model()).view))
    {
      subscribedToRuntime := false;
      ClearStreamState();
    }

    method SweepIdle(now: nat, timeout: nat) returns (expired: bool)
      modifies this
      ensures expired == Expires(old(Model()).view, now, timeout)
      ensures Model() == old(Model()).(view := Sweep(old(Model()).view, now, timeout))
    {
      if detachedAt.None? || uiAttached
         || (if now < detachedAt.value then 0 else now - detachedAt.value) < timeout {
        return false;
      }
      ResetScope();
      ClearStreamState();
      TouchView();
      return true;
    }

    method ResetScope()
      modifies this`subscribedToRuntime, this`viewedTabId, this`focusedPaneId, this`visiblePaneIds,
               this`viewportCols, this`viewportRows, this`detachedAt
      ensures !subscribedToRuntime && viewedTabId == None && focusedPaneId == None && visiblePaneIds == []
      ensures viewportCols == None && viewportRows == None && detachedAt == None
    {
      subscribedToRuntime := false;
      viewedTabId := None;
      focusedPaneId := None;
      visiblePaneIds := [];
      viewportCols := None;
      viewportRows := None;
      detachedAt := None;
    }

    method RetainPaneStates(visible: set<u64>)
      modifies this
      ensures Model() == Retain(old(Model()), visible)
    {
      if isLocal && subscribedToRuntime {
        paneStates := map p | p in paneStates && p in visible :: paneStates[p];
      }
    }

    method SendCachedPayload(kind: ControlKind, payload: seq<byte>)
      modifies this
      ensures Model() == SendCached(old(Model()), kind, payload)
    {
      var cached := match kind
        case TabListKind => lastTabListPayload
        case RuntimeStateKind => lastUiRuntimeStatePayload
        case AppearanceKind => lastUiAppearancePayload;
      if cached == Some(payload) {
        return;
      }
      match kind {
        case TabListKind => lastTabListPayload := Some(payload);
        case RuntimeStateKind => lastUiRuntimeStatePayload := Some(payload);
        case AppearanceKind => lastUiAppearancePayload := Some(payload);
      }
      outbound := outbound + [Frame(EncodeMessage(Message(ControlType(kind), payload)))];
    }

    method SendPastCache(payload: seq<byte>)
      modifies this
      ensures Model() == ReplyTabList(old(Model()), payload)
    {
      outbound := outbound + [Frame(EncodeMessage(Message(TAB_LIST, payload)))];
    }

    method CommitPublish(p: Publish)
      requires Encodes(p)
      modifies this
      ensures Model() == Commit(old(Model()), p)
    {
      hide PublishOutbound, Encodes;
      if !subscribedToRuntime {
        return;
      }
      if p.ScreenPublish? {
        lastState := Some(p.next);
      } else {
        paneStates := paneStates[p.paneId := p.next];
      }
      outbound := outbound + [PublishOutbound(p)];
    }
  }

  class Server {
    var clients: map<u64, ClientState>

    /** Records are not shared, and the lifecycle invariant holds of every view. */
    ghost predicate Valid()
      reads this, clients.Values
    {
      && (forall i, j :: i in clients && j in clients && clients[i] == clients[j] ==> i == j)
      && (forall id :: id in clients ==> ViewInvariant(clients[id].Model().view))
    }

    ghost function Models(): map<u64, Session>
      reads this, clients.Values
    {
      map id | id in clients :: clients[id].Model()
    }

    constructor ()
      ensures Valid() && Models() == map[]
    {
      clients := map[];
    }

    /** A new connection's record, under the next client id. */
    method Connect(clientId: u64, isLocal: bool)
      requires Valid()
      modifies this
      ensures Valid() && Models() == old(Models())[clientId := Session(isLocal, IDLE_VIEW, [])]
    {
      hide ClientState.Model, ViewInvariant;
      IdleKeeps();
      var client := new ClientState(isLocal);
      clients := clients[clientId := client];
    }

    method InitializeClientView(clientId: u64, viewedTabId: Option<u32>, focusedPaneId: Option<u64>,
                                visiblePaneIds: seq<u64>)
      requires Valid()
      modifies clients.Values
      ensures Valid()
      ensures clientId !in old(Models()) ==> Models() == old(Models())
      ensures clientId in old(Models()) ==>
        var s := old(Models())[clientId];
        Models() == old(Models())[clientId := s.(view :=
          InitializeView(s.view, clientId, viewedTabId, focusedPaneId, visiblePaneIds))]
    {
      hide InitializeView, ClientState.Model, ViewInvariant;
      if clientId in clients {
        ScopeKeeps(clients[clientId].Model().view, clientId, viewedTabId, focusedPaneId, visiblePaneIds);
        clients[clientId].Initialize(clientId, viewedTabId, focusedPaneId, visiblePaneIds);
      }
    }

    method SubscribeClientToRuntime(clientId: u64)
      requires Valid()
      modifies clients.Values
      ensures Valid()
      ensures clientId !in old(Models()) ==> Models() == old(Models())
      ensures clientId in old(Models()) ==>
        var s := old(Models())[clientId];
        Models() == old(Models())[clientId := s.(view := Subscribe(s.view))]
    {
      hide Subscribe, ClientState.Model, ViewInvariant;
      if clientId in clients {
        ScopeKeeps(clients[clientId].Model().view, 0, None, None, []);
        clients[clientId].SubscribeToRuntime();
      }
    }

    method UnsubscribeClientFromRuntime(clientId: u64)
      requires Valid()
      modifies clients.Values
      ensures Valid()
      ensures clientId !in old(Models()) ==> Models() == old(Models())
      ensures clientId in old(Models()) ==>
        var s := old(Models())[clientId];
        Models() == old(Models())[clientId := s.(view := Unsubscribe(s.view))]
    {
      hide Unsubscribe, ClientState.Model, ViewInvariant;
      if clientId in clients {
        ScopeKeeps(clients[clientId].Model().view, 0, None, None, []);
        clients[clientId].UnsubscribeFromRuntime();
      }
    }

    /** `sweep_idle_views`: every client is looked at once, in whatever order the map yields. */
    method SweepIdleViews(now: nat, timeout: nat) returns (expired: set<u64>)
      requires Valid()
      modifies clients.Values
      ensures Valid()
      ensures expired == set id | id in old(Models()) && Expires(old(Models())[id].view, now, timeout)
      ensures Models() == map id | id in old(Models()) ::
        old(Models())[id].(view := Sweep(old(Models())[id].view, now, timeout))
    {
      hide Sweep, Expires, ClientState.Model, ViewInvariant;
      expired := {};
      var todo := clients.Keys;
      while todo != {}
        invariant todo <= clients.Keys && clients == old(clients)
        invariant expired == set id | id in clients && id !in todo && Expires(old(Models())[id].view, now, timeout)
        invariant forall id :: id in clients ==> ViewInvariant(clients[id].Model().view)
        invariant forall id :: id in todo ==> clients[id].Model() == old(Models())[id]
        invariant forall id :: id in clients && id !in todo ==>
          clients[id].Model() == old(Models())[id].(view := Sweep(old(Models())[id].view, now, timeout))
        decreases todo
      {
        var id :| id in todo;
        SweepKeeps(clients[id].Model().view, now, timeout);
        var done := clients[id].SweepIdle(now, timeout);
        if done {
          expired := expired + {id};
        }
        todo := todo - {id};
      }
    }

    /** `retain_local_viewer_pane_states`. */
    method RetainLocalViewerPaneStates(visiblePaneIds: seq<u64>)
      requires Valid()
      modifies clients.Values
      ensures Valid()
      ensures Models() == map id | id in old(Models()) ::
        Retain(old(Models())[id], set p | p in visiblePaneIds)
    {
      hide Retain, ClientState.Model, ViewInvariant;
      var visible := set p | p in visiblePaneIds;
      var todo := clients.Keys;
      while todo != {}
        invariant todo <= clients.Keys && clients == old(clients)
        invariant forall id :: id in clients ==> ViewInvariant(clients[id].Model().view)
        invariant forall id :: id in todo ==> clients[id].Model() == old(Models())[id]
        invariant forall id :: id in clients && id !in todo ==>
          clients[id].Model() == Retain(old(Models())[id], visible)
        decreases todo
      {
        var id :| id in todo;
        RetainKeeps(clients[id].Model(), visible);
        clients[id].RetainPaneStates(visible);
        todo := todo - {id};
      }
    }

    /** `send_cached_control_payload_bytes`. */
    method SendCachedControlPayload(clientId: u64, kind: ControlKind, payload: seq<byte>)
      requires Valid()
      modifies clients.Values
      ensures Valid()
      ensures clientId !in old(Models()) ==> Models() == old(Models())
      ensures clientId in old(Models()) ==>
        Models() == old(Models())[clientId := SendCached(old(Models())[clientId], kind, payload)]
    {
      hide SendCached, ClientState.Model, ViewInvariant;
      if clientId in clients {
        SendKeepsView(clients[clientId].Model(), kind, payload);
        clients[clientId].SendCachedPayload(kind, payload);
      }
    }

    method SendTabListReply(clientId: u64, payload: seq<byte>)
      requires Valid()
      modifies clients.Values
      ensures Valid()
      ensures clientId !in old(Models()) ==> Models() == old(Models())
      ensures clientId in old(Models()) ==>
        Models() == old(Models())[clientId := ReplyTabList(old(Models())[clientId], payload)]
    {
      hide ReplyTabList, ClientState.Model, ViewInvariant;
      if clientId in clients {
        SendKeepsView(clients[clientId].Model(), TabListKind, payload);
        clients[clientId].SendPastCache(payload);
      }
    }

    /** First lock of `send_pane_state_to_client`. */
    method BeginPanePublish(clientId: u64, tabId: u32, paneId: u64, paneRevision: u64, runtimeRevision: u64,
                            next: RemoteFullState) returns (p: Option<Publish>)
      requires Valid()
      ensures p == if clientId in Models() && Models()[clientId].view.subscribed
                   then Some(BeginPane(Models()[clientId], tabId, paneId, paneRevision, runtimeRevision, next))
                   else None
    {
      if clientId !in clients || !clients[clientId].subscribedToRuntime {
        return None;
      }
      var client := clients[clientId];
      var previous := if paneId in client.paneStates then Some(client.paneStates[paneId]) else None;
      return Some(PanePublish(next, previous, tabId, paneId, paneRevision, runtimeRevision,
                              client.focusedPaneId == Some(paneId)));
    }

    /** First lock of `send_state_to_client`. */
    method BeginScreenPublish(clientId: u64, next: RemoteFullState) returns (p: Option<Publish>)
      requires Valid()
      ensures p == if clientId in Models() && Models()[clientId].view.subscribed
                   then Some(BeginScreen(Models()[clientId], next)) else None
    {
      if clientId !in clients || !clients[clientId].subscribedToRuntime {
        return None;
      }
      var client := clients[clientId];
      return Some(ScreenPublish(next, client.lastState, client.latestInputSeq, client.isLocal));
    }

    /** Second lock of either publish, and the send that follows it. */
    method FinishPublish(clientId: u64, p: Publish)
      requires Valid() && Encodes(p)
      modifies clients.Values
      ensures Valid()
      ensures clientId !in old(Models()) ==> Models() == old(Models())
      ensures clientId in old(Models()) ==>
        Models() == old(Models())[clientId := Commit(old(Models())[clientId], p)]
    {
      hide Commit, ClientState.Model, ViewInvariant;
      if clientId in clients {
        CommitKeepsView(clients[clientId].Model(), p);
        clients[clientId].CommitPublish(p);
      }
    }
  }
}
