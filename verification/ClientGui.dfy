/** The desktop client's reaction to stream frames, as far as its pane snapshots are concerned. */
module ClientGui {
  import opened Bytes
  import opened Grid
  import opened Framing
  import opened WireDecode
  import opened Snapshot

  /** The fields of the JSON runtime state that reach the snapshots. */
  datatype UiRuntimeState = UiRuntimeState(runtimeRevision: u64, viewRevision: u64, focusedPane: u64)

  /** The two JSON readers: a foreign library, so any pair of partial parsers. */
  datatype Json = Json(runtimeState: seq<byte> -> Option<UiRuntimeState>, appearance: seq<byte> -> Option<Theme>)

  type Panes = map<u64, TerminalSnapshot>

  /** What reaches the snapshots: stream frames, and the UI snapshots that the client asks for over
      the control socket when the stream is not there. */
  datatype Event =
    | RuntimeState(state: UiRuntimeState)
    | Appearance(theme: Theme)
    | PaneFull(paneId: u64, runtimeRevision: u64, grid: RemoteFullState)
    | PaneDelta(paneId: u64, runtimeRevision: u64, delta: RemoteDelta)
    | FullScreen(grid: RemoteFullState)
    | ScreenDelta(delta: RemoteDelta)
    | UiSnapshot(terminals: Panes, theme: Theme, focusedPane: u64)
    | Other

  /** The event a frame becomes; payloads that do not decode are dropped. */
  function DecodeEvent(m: Message, json: Json): Event {
    if m.ty == UI_RUNTIME_STATE then
      var s := json.runtimeState(m.payload); if s.Some? then RuntimeState(s.value) else Other
    else if m.ty == UI_APPEARANCE then
      var t := json.appearance(m.payload); if t.Some? then Appearance(t.value) else Other
    else if m.ty == UI_PANE_FULL_STATE then
      var f := DecodePaneFull(m.payload); if f.Some? then PaneFull(f.value.0, f.value.1, f.value.2) else Other
    else if m.ty == UI_PANE_DELTA then
      var d := DecodePaneDelta(m.payload); if d.Some? then PaneDelta(d.value.0, d.value.1, d.value.2) else Other
    else if m.ty == FULL_STATE then
      var f := DecodeFull(m.payload); if f.Some? then FullScreen(f.value.1) else Other
    else if m.ty == DELTA then
      var d := DecodeDelta(m.payload); if d.Some? then ScreenDelta(d.value.1) else Other
    else Other
  }

  datatype App = App(
    panes: Panes, runtimeRevision: u64, viewRevision: u64, focusedPaneId: u64, theme: Theme,
    generation: u64, nextGeneration: u64, nextRevisionSeed: u64)

  /** `allocate_full_snapshot_revision_seed` followed by `allocate_snapshot_generation`. */
  function Allocated(a: App, rows: u16): App {
    a.(nextRevisionSeed := WrappingAdd(a.nextRevisionSeed, if rows == 0 then 1 else rows),
       generation := a.nextGeneration,
       nextGeneration := WrappingAdd(a.nextGeneration, 1))
  }

  /** The terminals of a UI snapshot start from the same stamps each time. */
  function Restamped(terminals: Panes): Panes {
    map p | p in terminals :: terminals[p].(rowRevisions := seq(|terminals[p].rowsData|, i => 1))
  }

  function PatchedPanes(panes: Panes, paneId: u64, delta: RemoteDelta): Panes {
    if paneId in panes then panes[paneId := ApplyDelta(panes[paneId], delta)] else panes
  }

  /** `apply_ui_runtime_state`: a different view revision drops every snapshot. */
  function ApplyRuntimeState(a: App, s: UiRuntimeState): App {
    a.(panes := if a.viewRevision != 0 && s.viewRevision != a.viewRevision then map[] else a.panes,
       runtimeRevision := s.runtimeRevision, viewRevision := s.viewRevision, focusedPaneId := s.focusedPane)
  }

  /** `apply_ui_snapshot`: all panes are replaced, under a generation of their own. */
  function ApplySnapshot(a: App, terminals: Panes, t: Theme, focusedPane: u64): App {
    a.(panes := Restamped(terminals), theme := t, focusedPaneId := focusedPane,
       generation := a.nextGeneration, nextGeneration := WrappingAdd(a.nextGeneration, 1))
  }

  /** `handle_stream_event`, and `apply_ui_snapshot` beside it. */
  function Handle(a: App, e: Event): App {
    match e
    case RuntimeState(s) => ApplyRuntimeState(a, s)
    case Appearance(t) => a.(theme := t)
    case PaneFull(paneId, revision, grid) =>
      if revision != 0 && revision < a.runtimeRevision then a
      else Allocated(a, grid.rows).(panes := a.panes[paneId := Render(grid, a.nextRevisionSeed, a.theme)])
    case PaneDelta(paneId, revision, delta) =>
      if revision != 0 && revision != a.runtimeRevision then a
      else a.(panes := PatchedPanes(a.panes, paneId, delta))
    case FullScreen(grid) =>
      Allocated(a, grid.rows).(panes :=
        if a.focusedPaneId != 0 then a.panes[a.focusedPaneId := Render(grid, a.nextRevisionSeed, a.theme)]
        else a.panes)
    case ScreenDelta(delta) => a.(panes := PatchedPanes(a.panes, a.focusedPaneId, delta))
    case UiSnapshot(terminals, t, focusedPane) => ApplySnapshot(a, terminals, t, focusedPane)
    case Other => a
  }

  /** The application object, updated in place. */
  class ClientApp {
    var paneSnapshots: Panes
    var runtimeRevision: u64
    var viewRevision: u64
    var focusedPaneId: u64
    var theme: Theme
    var terminalSnapshotGeneration: u64
    var nextSnapshotGeneration: u64
    var nextFullSnapshotRevision: u64

    ghost function Model(): App
      reads this
    {
      App(paneSnapshots, runtimeRevision, viewRevision, focusedPaneId, theme,
          terminalSnapshotGeneration, nextSnapshotGeneration, nextFullSnapshotRevision)
    }

    constructor ()
      ensures Model() == App(map[], 0, 0, 0, DEFAULT_THEME, 1, 2, 1)
    {
      paneSnapshots := map[];
      runtimeRevision, viewRevision, focusedPaneId := 0, 0, 0;
      theme := DEFAULT_THEME;
      terminalSnapshotGeneration, nextSnapshotGeneration, nextFullSnapshotRevision := 1, 2, 1;
    }

    method AllocateFullSnapshotRevisionSeed(rowCount: u16) returns (seed: u64)
      modifies this`nextFullSnapshotRevision
      ensures seed == old(nextFullSnapshotRevision)
      ensures nextFullSnapshotRevision == WrappingAdd(seed, if rowCount == 0 then 1 else rowCount)
    {
      seed := nextFullSnapshotRevision;
      nextFullSnapshotRevision := WrappingAdd(nextFullSnapshotRevision, if rowCount == 0 then 1 else rowCount);
    }

    method AllocateSnapshotGeneration() returns (generation: u64)
      modifies this`nextSnapshotGeneration
      ensures generation == old(nextSnapshotGeneration)
      ensures nextSnapshotGeneration == WrappingAdd(generation, 1)
    {
      generation := nextSnapshotGeneration;
      nextSnapshotGeneration := WrappingAdd(nextSnapshotGeneration, 1);
    }

    method ApplyUiRuntimeState(state: UiRuntimeState)
      modifies this
      ensures Model() == ApplyRuntimeState(old(Model()), state)
    {
      if viewRevision != 0 && state.viewRevision != viewRevision {
        paneSnapshots := map[];
      }
      runtimeRevision := state.runtimeRevision;
      viewRevision := state.viewRevision;
      focusedPaneId := state.focusedPane;
    }

    method ApplyUiSnapshot(terminals: Panes, t: Theme, focusedPane: u64)
      modifies this
      ensures Model() == ApplySnapshot(old(Model()), terminals, t, focusedPane)
    {
      theme := t;
      focusedPaneId := focusedPane;
      paneSnapshots := Restamped(terminals);
      terminalSnapshotGeneration := AllocateSnapshotGeneration();
    }

    method InsertFullSnapshot(paneId: Option<u64>, grid: RemoteFullState)
      modifies this
      ensures Model() == Allocated(old(Model()), grid.rows).(panes :=
        if paneId.Some? then old(paneSnapshots)[paneId.value := Render(grid, old(nextFullSnapshotRevision), theme)]
        else old(paneSnapshots))
    {
      var seed := AllocateFullSnapshotRevisionSeed(grid.rows);
      terminalSnapshotGeneration := AllocateSnapshotGeneration();
      if paneId.Some? {
        paneSnapshots := paneSnapshots[paneId.value := Render(grid, seed, theme)];
      }
    }

    method PatchPane(paneId: u64, delta: RemoteDelta)
      modifies this`paneSnapshots
      ensures paneSnapshots == PatchedPanes(old(paneSnapshots), paneId, delta)
    {
      if paneId in paneSnapshots {
        var patched := ApplyRemoteDeltaSnapshot(paneSnapshots[paneId], delta);
        paneSnapshots := paneSnapshots[paneId := patched];
      }
    }

    method HandleStreamEvent(e: Event)
      modifies this
      ensures Model() == Handle(old(Model()), e)
    {
      match e
      case RuntimeState(s) => ApplyUiRuntimeState(s);
      case Appearance(t) => theme := t;
      case PaneFull(paneId, revision, grid) =>
        if revision != 0 && revision < runtimeRevision {
          return;
        }
        InsertFullSnapshot(Some(paneId), grid);
      case PaneDelta(paneId, revision, delta) =>
        if revision != 0 && revision != runtimeRevision {
          return;
        }
        PatchPane(paneId, delta);
      case FullScreen(grid) =>
        InsertFullSnapshot(if focusedPaneId != 0 then Some(focusedPaneId) else None, grid);
      case ScreenDelta(delta) => PatchPane(focusedPaneId, delta);
      case UiSnapshot(terminals, t, focusedPane) => ApplyUiSnapshot(terminals, t, focusedPane);
      case Other =>
    }
  }
}
