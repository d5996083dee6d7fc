/** End-to-end screen replication: server caches, byte stream and client snapshots over whole runs. */
module Replication {
  import opened Bytes
  import opened Grid
  import opened Framing
  import opened WireEncode
  import opened WireDecode
  import opened Snapshot
  import opened DeltaRefinement
  import opened ClientGui
  import opened RemoteState
  import opened ServerRun

  // ---- draining what is queued ----

  function Receive(app: App, bytes: seq<byte>, json: Json): App {
    var r := ReadMessage(bytes);
    if r.Read? then Handle(app, DecodeEvent(r.message, json)) else app
  }

  /** The client once everything ever queued for it has arrived, in order. */
  function Drain(app: App, out: seq<OutboundMessage>, json: Json): App {
    if out == [] then app else Receive(Drain(app, out[..|out| - 1], json), out[|out| - 1].bytes, json)
  }

  lemma DrainAppend(app: App, out: seq<OutboundMessage>, m: OutboundMessage, json: Json)
    ensures Drain(app, out + [m], json) == Receive(Drain(app, out, json), m.bytes, json)
  {
    assert (out + [m])[..|out|] == out;
  }

  lemma ReceiveEncoded(app: App, m: Message, json: Json)
    requires |m.payload| < U32_LIMIT
    ensures Receive(app, EncodeMessage(m), json) == Handle(app, DecodeEvent(m, json))
  {
    hide EncodeMessage, ReadMessage, Handle, DecodeEvent;
    FrameRoundTrip(m, []);
    assert EncodeMessage(m) + [] == EncodeMessage(m);
  }

  // ---- agreement ----

  ghost predicate PaneAgree(v: View, d: App, themes: iset<Theme>) {
    && SoundView(v)
    && forall p :: p in v.paneStates ==> p in d.panes && Shows(d.panes[p], v.paneStates[p], themes)
  }

  ghost predicate ScreenAgree(v: View, d: App, themes: iset<Theme>)
    requires SoundView(v)
  {
    v.lastState.Some? ==>
      d.focusedPaneId != 0 && d.focusedPaneId in d.panes
      && Shows(d.panes[d.focusedPaneId], v.lastState.value, themes)
  }

  /** The last runtime state queued, as the server's own cache remembers it. */
  function LastQueued(v: View, json: Json): Option<UiRuntimeState> {
    if v.runtimePayload.Some? then json.runtimeState(v.runtimePayload.value) else None
  }

  predicate Tracked(v: View, d: App, json: Json) {
    v.runtimePayload.Some? ==>
      var w := LastQueued(v, json);
      w.Some? && w.value == UiRuntimeState(d.runtimeRevision, d.viewRevision, d.focusedPaneId)
  }

  /** Nothing is cached before a runtime state has been sent, and the screen lane and the pane lane
      write different panes. */
  predicate CacheCurrent(v: View, json: Json) {
    var w := LastQueued(v, json);
    && (!v.NothingCached() ==> w.Some?)
    && (v.lastState.Some? && w.Some? ==> w.value.focusedPane != 0 && w.value.focusedPane !in v.paneStates)
  }

  /** Server view and drained client agree. */
  ghost predicate Agree(v: View, d: App, json: Json, themes: iset<Theme>) {
    && SoundView(v)
    && PaneAgree(v, d, themes) && ScreenAgree(v, d, themes)
    && Tracked(v, d, json) && CacheCurrent(v, json)
    && d.theme in themes
  }

  // ---- the publisher's discipline ----

  predicate FitsFrame(p: Publish) {
    Encodes(p) ==> |PublishMessage(p).payload| < U32_LIMIT
  }

  /** A publish follows some runtime state, carries the runtime revision of the last one, and leaves
      the pane focused in it to the screen lane once that lane is in use. */
  predicate MayPublish(v: View, p: Publish, json: Json) {
    var w := LastQueued(v, json);
    && FitsFrame(p) && w.Some?
    && match p
       case ScreenPublish(_, previous, _, isLocal) =>
         isLocal && previous == v.lastState && w.value.focusedPane != 0 && w.value.focusedPane !in v.paneStates
       case PanePublish(_, previous, _, paneId, _, runtimeRevision, _) =>
         && previous == (if paneId in v.paneStates then Some(v.paneStates[paneId]) else None)
         && (runtimeRevision == 0 || runtimeRevision == w.value.runtimeRevision)
         && (v.lastState.Some? ==> paneId != w.value.focusedPane)
  }

  /** A runtime state keeps the view revision the client was last told, unless nothing is cached, and
      the focused pane while the screen lane is in use. */
  predicate MaySendControl(v: View, kind: ControlKind, payload: seq<byte>, json: Json, themes: iset<Theme>) {
    && |payload| < U32_LIMIT
    && match kind
       case TabListKind => true
       case AppearanceKind => json.appearance(payload).Some? ==> json.appearance(payload).value in themes
       case RuntimeStateKind =>
         var u, w := json.runtimeState(payload), LastQueued(v, json);
         && u.Some?
         && (v.NothingCached() || (w.Some? && u.value.viewRevision == w.value.viewRevision))
         && (v.lastState.Some? ==> w.Some? && u.value.focusedPane == w.value.focusedPane)
  }

  /** One publisher thread: between the two locks of a publish only the reader thread acts. */
  predicate Disciplined(st: ServerState, op: Op, json: Json, themes: iset<Theme>)
    requires Sound(st) && Enabled(st, op)
  {
    && (st.inFlight != [] ==> op == FinishPublish(0) || op.SendOther? || op.Remove?)
    && (st.client.Some? ==>
          var s := st.client.value;
          match op
          case SendControl(kind, payload) => MaySendControl(s.view, kind, payload, json, themes)
          case ReplyTabs(payload) => |payload| < U32_LIMIT
          case SendOther(m) => |m.payload| < U32_LIMIT
          case StartScreen(next) => forall p :: p in Start(s, op) ==> MayPublish(s.view, p, json)
          case StartPane(_, _, _, _, next) => forall p :: p in Start(s, op) ==> MayPublish(s.view, p, json)
          case _ => true)
  }

  // ---- one publish ----

  /** What the client decodes a published frame as. */
  function PublishEvent(p: Publish): Event
    requires Encodes(p)
  {
    var delta := PublishDelta(p);
    match p
    case ScreenPublish(next, previous, _, _) =>
      if delta.Some? then ScreenDelta(DeltaBetween(previous.value, next)) else FullScreen(WithoutReplicaFields(next))
    case PanePublish(next, previous, _, paneId, _, runtimeRevision, _) =>
      if delta.Some? then PaneDelta(paneId, runtimeRevision, DeltaBetween(previous.value, next))
      else PaneFull(paneId, runtimeRevision, WithoutReplicaFields(next))
  }

  lemma DeltaDecodes(p: RemoteFullState, c: RemoteFullState, latestInputSeq: Option<u64>)
    requires p.WellFormed() && c.WellFormed() && Delta(p, c, latestInputSeq, true).Some?
    ensures DecodeDelta(Delta(p, c, latestInputSeq, true).value)
            == Some((AckOf(latestInputSeq), DeltaBetween(p, c)))
  {
    ChangedRowsEncodable(RowsOf(p), RowsOf(c), c.cols, c.rows);
    DeltaRoundTrip(c, Changes(p, c), latestInputSeq);
  }

  lemma PublishDecodes(p: Publish, json: Json)
    requires Encodes(p) && (p.ScreenPublish? ==> p.isLocal)
    ensures DecodeEvent(PublishMessage(p), json) == PublishEvent(p)
  {
    hide DecodeDelta, DecodeFull, Delta, FullPayload, PanePayload, DeltaBetween;
    var delta := PublishDelta(p);
    match p
    case ScreenPublish(next, previous, inputSeq, _) =>
      if delta.Some? {
        DeltaDecodes(previous.value, next, inputSeq);
      } else {
        FullRoundTrip(next, inputSeq);
      }
    case PanePublish(next, previous, tabId, paneId, paneRevision, runtimeRevision, _) =>
      if delta.Some? {
        DeltaDecodes(previous.value, next, None);
        PanePrefixFields(tabId, paneId, paneRevision, runtimeRevision, delta.value);
      } else {
        FullRoundTrip(next, None);
        PanePrefixFields(tabId, paneId, paneRevision, runtimeRevision, FullPayload(next, None, true));
      }
  }

  lemma PublishArrives(p: Publish, d: App, json: Json)
    requires Encodes(p) && FitsFrame(p) && (p.ScreenPublish? ==> p.isLocal)
    ensures Receive(d, PublishOutbound(p).bytes, json) == Handle(d, PublishEvent(p))
  {
    hide Handle, EncodeMessage, PublishMessage, PublishEvent, Receive;
    PublishDecodes(p, json);
    ReceiveEncoded(d, PublishMessage(p), json);
  }

  /** Where the frame lands on the client. */
  function Target(p: Publish, d: App): u64 {
    if p.ScreenPublish? then d.focusedPaneId else p.paneId
  }

  /** The client's revision filter lets the frame through. */
  predicate Accepted(p: Publish, d: App)
    requires Encodes(p)
  {
    p.ScreenPublish? || p.runtimeRevision == 0
    || (if PublishDelta(p).Some? then p.runtimeRevision == d.runtimeRevision
        else p.runtimeRevision >= d.runtimeRevision)
  }

  /** Applied to a snapshot of the grid it was encoded against, an accepted frame shows the new
      grid, and no other pane changes. */
  lemma AcceptedShows(p: Publish, d: App, themes: iset<Theme>)
    requires Encodes(p) && Accepted(p, d) && (p.ScreenPublish? ==> p.isLocal && d.focusedPaneId != 0)
    requires d.theme in themes && DEFAULT_THEME in themes
    requires PublishDelta(p).Some? ==>
      Target(p, d) in d.panes && Shows(d.panes[Target(p, d)], p.previous.value, themes)
    ensures var d' := Handle(d, PublishEvent(p));
            && d' == d.(panes := d'.panes, generation := d'.generation, nextGeneration := d'.nextGeneration,
                        nextRevisionSeed := d'.nextRevisionSeed)
            && Target(p, d) in d'.panes && Shows(d'.panes[Target(p, d)], p.next, themes)
            && d'.panes == d.panes[Target(p, d) := d'.panes[Target(p, d)]]
  {
    hide Shows, DeltaBetween, Delta, Render, ApplyDelta;
    if PublishDelta(p).Some? {
      DeltaRefinesFull(d.panes[Target(p, d)], p.previous.value, p.next,
                       if p.ScreenPublish? then p.latestInputSeq else None, themes);
    } else {
      FullStateShows(p.next, d.nextRevisionSeed, d.theme, themes);
    }
  }

  lemma DisciplinedAccepted(v: View, p: Publish, d: App, json: Json, themes: iset<Theme>)
    requires Encodes(p) && MayPublish(v, p, json) && Agree(v, d, json, themes)
    ensures Accepted(p, d) && (p.ScreenPublish? ==> p.isLocal && d.focusedPaneId != 0)
    ensures PublishDelta(p).Some? ==>
      Target(p, d) in d.panes && Shows(d.panes[Target(p, d)], p.previous.value, themes)
  {
    hide Shows, PublishMessage, Delta;
  }

  /** A disciplined publish keeps server and drained client in agreement. */
  lemma CommitKeepsAgreement(v: View, p: Publish, d: App, json: Json, themes: iset<Theme>)
    requires Encodes(p) && MayPublish(v, p, json) && Agree(v, d, json, themes) && DEFAULT_THEME in themes
    ensures Agree(CacheNext(v, p), Receive(d, PublishOutbound(p).bytes, json), json, themes)
  {
    hide Shows, PublishMessage, PublishOutbound, PublishDelta, Receive, Handle, Accepted, PublishEvent;
    PublishArrives(p, d, json);
    DisciplinedAccepted(v, p, d, json, themes);
    AcceptedShows(p, d, themes);
  }

  // ---- the other operations ----

  /** Emptying or pruning caches, and renewing the revision once they are empty, is always safe. */
  lemma ShrinkKeepsAgreement(v: View, v': View, d: App, json: Json, themes: iset<Theme>)
    requires Agree(v, d, json, themes)
    requires v'.runtimePayload == v.runtimePayload
    requires v'.lastState.None? || v'.lastState == v.lastState
    requires forall p :: p in v'.paneStates ==> p in v.paneStates && v'.paneStates[p] == v.paneStates[p]
    requires v'.NothingCached() || v'.viewRevision == v.viewRevision
    ensures Agree(v', d, json, themes)
  {
    hide Shows;
  }

  lemma RuntimeStateKeepsAgreement(s: Session, payload: seq<byte>, d: App, json: Json, themes: iset<Theme>)
    requires Agree(s.view, d, json, themes) && MaySendControl(s.view, RuntimeStateKind, payload, json, themes)
    requires s.view.runtimePayload != Some(payload)
    ensures Agree(s.view.(runtimePayload := Some(payload)),
                  Handle(d, RuntimeState(json.runtimeState(payload).value)), json, themes)
  {
    hide Shows;
  }

  lemma ControlKeepsAgreement(s: Session, kind: ControlKind, payload: seq<byte>, d: App, json: Json,
                              themes: iset<Theme>)
    requires Agree(s.view, d, json, themes) && MaySendControl(s.view, kind, payload, json, themes)
    requires CacheSlot(s.view, kind) != Some(payload)
    ensures Agree(SetCacheSlot(s.view, kind, payload),
                  Receive(d, EncodeMessage(Message(ControlType(kind), payload)), json), json, themes)
  {
    hide Shows, Receive, EncodeMessage, ApplyRuntimeState, DecodePaneFull, DecodePaneDelta, DecodeFull, DecodeDelta;
    var m := Message(ControlType(kind), payload);
    ReceiveEncoded(d, m, json);
    if kind == RuntimeStateKind {
      RuntimeStateKeepsAgreement(s, payload, d, json, themes);
    }
  }

  lemma UnreservedIgnored(d: App, m: Message, json: Json)
    requires (!Reserved(m.ty) || m.ty == TAB_LIST) && |m.payload| < U32_LIMIT
    ensures Receive(d, EncodeMessage(m), json) == d
  {
    ReceiveEncoded(d, m, json);
  }

  // ---- runs ----

  /** Every queued frame is one the reader can delimit. */
  ghost predicate Framed(out: seq<OutboundMessage>) {
    forall i :: 0 <= i < |out| ==>
      exists m: Message :: |m.payload| < U32_LIMIT && out[i].bytes == EncodeMessage(m)
  }

  ghost predicate Replicates(st: ServerState, app: App, json: Json, themes: iset<Theme>)
    requires Sound(st)
  {
    && |st.inFlight| <= 1
    && (st.client.Some? ==>
          var s := st.client.value;
          && Agree(s.view, Drain(app, s.outbound, json), json, themes)
          && Framed(s.outbound)
          && forall p :: p in st.inFlight ==> MayPublish(s.view, p, json))
  }

  lemma FramedAppend(out: seq<OutboundMessage>, b: OutboundMessage, m: Message)
    requires Framed(out) && |m.payload| < U32_LIMIT && b.bytes == EncodeMessage(m)
    ensures Framed(out + [b])
  {
  }

  /** A view operation clears the stream caches, or leaves them and the view revision alone. */
  lemma ViewStepShrinks(v: View, op: Op)
    ensures var v' := ViewStep(v, op);
            && v'.runtimePayload == v.runtimePayload
            && (v'.NothingCached()
                || (v'.lastState == v.lastState && v'.paneStates == v.paneStates && v'.viewRevision == v.viewRevision))
  {
  }

  lemma SendKeeps(s: Session, s': Session, b: OutboundMessage, m: Message, app: App, json: Json, themes: iset<Theme>)
    requires Framed(s.outbound) && s'.outbound == s.outbound + [b]
    requires |m.payload| < U32_LIMIT && b.bytes == EncodeMessage(m)
    requires Agree(s'.view, Receive(Drain(app, s.outbound, json), b.bytes, json), json, themes)
    ensures Framed(s'.outbound) && Agree(s'.view, Drain(app, s'.outbound, json), json, themes)
  {
    hide Agree, EncodeMessage, Receive;
    FramedAppend(s.outbound, b, m);
    DrainAppend(app, s.outbound, b, json);
  }

  lemma SessionStepReplicates(s: Session, op: Op, app: App, json: Json, themes: iset<Theme>)
    requires Sound(ServerState(Some(s), [])) && Enabled(ServerState(Some(s), []), op)
    requires Disciplined(ServerState(Some(s), []), op, json, themes)
    requires !op.FinishPublish? && !op.Remove? && !op.StartScreen? && !op.StartPane?
    requires Framed(s.outbound) && Agree(s.view, Drain(app, s.outbound, json), json, themes)
    ensures var s' := SessionStep(s, op);
            Framed(s'.outbound) && Agree(s'.view, Drain(app, s'.outbound, json), json, themes)
  {
    hide Agree, Framed, EncodeMessage, Receive, Drain, MaySendControl;
    var d, s' := Drain(app, s.outbound, json), SessionStep(s, op);
    if op.SendControl? {
      var m := Message(ControlType(op.kind), op.payload);
      if CacheSlot(s.view, op.kind) != Some(op.payload) {
        ControlKeepsAgreement(s, op.kind, op.payload, d, json, themes);
        assert |op.payload| < U32_LIMIT by { MaySendFits(s.view, op.kind, op.payload, json, themes); }
        SendKeeps(s, s', Frame(EncodeMessage(m)), m, app, json, themes);
      }
    } else if op.SendOther? || op.ReplyTabs? {
      var m := if op.SendOther? then op.message else Message(TAB_LIST, op.payload);
      UnreservedIgnored(d, m, json);
      SendKeeps(s, s', Frame(EncodeMessage(m)), m, app, json, themes);
    } else {
      ViewStepShrinks(s.view, op);
      ShrinkKeepsAgreement(s.view, s'.view, d, json, themes);
    }
  }

  lemma MaySendFits(v: View, kind: ControlKind, payload: seq<byte>, json: Json, themes: iset<Theme>)
    requires MaySendControl(v, kind, payload, json, themes)
    ensures |payload| < U32_LIMIT
  {
  }

  lemma FinishReplicates(st: ServerState, app: App, json: Json, themes: iset<Theme>)
    requires Sound(st) && |st.inFlight| == 1 && Replicates(st, app, json, themes) && DEFAULT_THEME in themes
    ensures Replicates(Step(st, FinishPublish(0)), app, json, themes)
  {
    hide Agree, Framed, EncodeMessage, Receive, Drain, MayPublish, PublishMessage, CacheNext;
    var p := st.inFlight[0];
    if st.client.Some? && st.client.value.view.subscribed {
      var s := st.client.value;
      assert p in st.inFlight;
      assert FitsFrame(p) by { MayPublishFits(s.view, p, json); }
      CommitKeepsAgreement(s.view, p, Drain(app, s.outbound, json), json, themes);
      SendKeeps(s, Commit(s, p), PublishOutbound(p), PublishMessage(p), app, json, themes);
    }
    assert Without(st.inFlight, 0) == [];
  }

  lemma MayPublishFits(v: View, p: Publish, json: Json)
    requires MayPublish(v, p, json)
    ensures FitsFrame(p)
  {
  }

  lemma StepReplicates(st: ServerState, op: Op, app: App, json: Json, themes: iset<Theme>)
    requires Sound(st) && Enabled(st, op) && Disciplined(st, op, json, themes)
    requires Replicates(st, app, json, themes) && DEFAULT_THEME in themes
    ensures Replicates(Step(st, op), app, json, themes)
  {
    hide Agree, Framed, EncodeMessage, Receive, Drain, MayPublish, MaySendControl;
    if op.FinishPublish? {
      FinishReplicates(st, app, json, themes);
    } else if op.Remove? || st.client.None? {
    } else if op.StartScreen? || op.StartPane? {
    } else {
      SessionStepReplicates(st.client.value, op, app, json, themes);
      if st.inFlight != [] {
        assert SessionStep(st.client.value, op).view == st.client.value.view;
      }
    }
  }

  predicate DisciplinedRun(st: ServerState, ops: seq<Op>, json: Json, themes: iset<Theme>)
    requires Sound(st)
    decreases |ops|
  {
    ops == [] ||
    (Enabled(st, ops[0]) && Disciplined(st, ops[0], json, themes)
     && DisciplinedRun(Step(st, ops[0]), ops[1..], json, themes))
  }

  lemma {:induction false} RunReplicates(st: ServerState, ops: seq<Op>, app: App, json: Json, themes: iset<Theme>)
    requires Sound(st) && DisciplinedRun(st, ops, json, themes)
    requires Replicates(st, app, json, themes) && DEFAULT_THEME in themes
    ensures EnabledRun(st, ops) && Replicates(Run(st, ops), app, json, themes)
    decreases |ops|
  {
    hide Step, Replicates, Disciplined;
    if ops == [] {
    } else {
      StepReplicates(st, ops[0], app, json, themes);
      RunReplicates(Step(st, ops[0]), ops[1..], app, json, themes);
    }
  }

  lemma ConnectedReplicates(app: App, json: Json, themes: iset<Theme>)
    requires app.theme in themes
    ensures Replicates(Connected(true), app, json, themes)
  {
  }

  /** End-to-end replication. From a new connection, whatever the client held before, after any
      disciplined run: once the queue has drained, every pane grid the server has cached is shown
      on the client, and so is the cached screen on the focused pane. */
  lemma EndToEnd(ops: seq<Op>, app: App, json: Json, themes: iset<Theme>)
    requires DisciplinedRun(Connected(true), ops, json, themes)
    requires app.theme in themes && DEFAULT_THEME in themes
    ensures EnabledRun(Connected(true), ops)
    ensures var st := Run(Connected(true), ops);
            st.client.Some? ==>
              var v, d := st.client.value.view, Drain(app, st.client.value.outbound, json);
              && (forall p :: p in v.paneStates ==> p in d.panes && Shows(d.panes[p], v.paneStates[p], themes))
              && (v.lastState.Some? ==>
                    d.focusedPaneId in d.panes && Shows(d.panes[d.focusedPaneId], v.lastState.value, themes))
  {
    hide Shows, Step;
    RunReplicates(Connected(true), ops, app, json, themes);
  }

  /** With the compiled-in colours throughout, the drained client holds the very cells a full
      state would have drawn. */
  lemma EndToEndExact(ops: seq<Op>, app: App, json: Json, p: u64)
    requires DisciplinedRun(Connected(true), ops, json, iset{DEFAULT_THEME}) && app.theme == DEFAULT_THEME
    ensures EnabledRun(Connected(true), ops)
    ensures var st := Run(Connected(true), ops);
            st.client.Some? && p in st.client.value.view.paneStates ==>
              var g, d := st.client.value.view.paneStates[p], Drain(app, st.client.value.outbound, json);
              p in d.panes
              && d.panes[p] == Render(g, 0, DEFAULT_THEME).(rowRevisions := d.panes[p].rowRevisions)
  {
    hide Step, Drain, Shows;
    EndToEnd(ops, app, json, iset{DEFAULT_THEME});
    var st := Run(Connected(true), ops);
    if st.client.Some? && p in st.client.value.view.paneStates {
      var g, d := st.client.value.view.paneStates[p], Drain(app, st.client.value.outbound, json);
      OneThemeIsWhole(d.panes[p], g);
    }
  }

  lemma OneThemeIsWhole(s: TerminalSnapshot, g: RemoteFullState)
    requires g.WellFormed() && Shows(s, g, iset{DEFAULT_THEME})
    ensures s == Render(g, 0, DEFAULT_THEME).(rowRevisions := s.rowRevisions)
  {
    OneThemeIsExact(s, g, 0, DEFAULT_THEME);
  }

  // ---- the queue as bytes ----

  function StreamBytes(out: seq<OutboundMessage>): seq<byte> {
    if out == [] then [] else StreamBytes(out[..|out| - 1]) + out[|out| - 1].bytes
  }

  /** The client's read loop over the raw stream. */
  function DrainBytes(app: App, s: seq<byte>, json: Json): App {
    HandleAll(app, ReadAll(s).0, json)
  }

  function HandleAll(app: App, ms: seq<Message>, json: Json): App {
    if ms == [] then app else Handle(HandleAll(app, ms[..|ms| - 1], json), DecodeEvent(ms[|ms| - 1], json))
  }

  lemma {:induction false} FramesAsMessages(app: App, out: seq<OutboundMessage>, json: Json) returns (ms: seq<Message>)
    requires Framed(out)
    ensures FitsLength(ms) && StreamBytes(out) == EncodeAll(ms) && Drain(app, out, json) == HandleAll(app, ms, json)
  {
    hide EncodeMessage, Handle, DecodeEvent, Receive;
    if out == [] {
      ms := [];
    } else {
      var before, last := out[..|out| - 1], out[|out| - 1];
      var ms' := FramesAsMessages(app, before, json);
      var m: Message :| |m.payload| < U32_LIMIT && last.bytes == EncodeMessage(m);
      ms := ms' + [m];
      ReceiveEncoded(Drain(app, before, json), m, json);
      EncodeAllAppend(ms', m);
      assert ms[..|ms| - 1] == ms';
    }
  }

  lemma {:induction false} EncodeAllAppend(ms: seq<Message>, m: Message)
    ensures EncodeAll(ms + [m]) == EncodeAll(ms) + EncodeMessage(m)
  {
    hide EncodeMessage;
    if ms == [] {
      assert ms + [m] == [m];
      assert EncodeAll([m]) == EncodeMessage(m) + EncodeAll([]);
    } else {
      assert (ms + [m])[1..] == ms[1..] + [m];
      EncodeAllAppend(ms[1..], m);
    }
  }

  /** Reading the concatenated bytes is draining the queue frame by frame. */
  lemma BytesDrainTheQueue(app: App, out: seq<OutboundMessage>, json: Json)
    requires Framed(out)
    ensures DrainBytes(app, StreamBytes(out), json) == Drain(app, out, json)
  {
    hide EncodeAll, StreamBytes, Drain, HandleAll, Framed;
    var ms := FramesAsMessages(app, out, json);
    StreamRoundTrip(ms, []);
    assert EncodeAll(ms) + [] == EncodeAll(ms);
    assert ReadAll([]).0 == [] && ms + [] == ms;
  }

  /** End to end over the byte stream: what the desktop client shows after reading every byte the
      server wrote. */
  lemma EndToEndBytes(ops: seq<Op>, app: App, json: Json, themes: iset<Theme>)
    requires DisciplinedRun(Connected(true), ops, json, themes)
    requires app.theme in themes && DEFAULT_THEME in themes
    ensures EnabledRun(Connected(true), ops)
    ensures var st := Run(Connected(true), ops);
            st.client.Some? ==>
              var v, d := st.client.value.view, DrainBytes(app, StreamBytes(st.client.value.outbound), json);
              forall p :: p in v.paneStates ==> p in d.panes && Shows(d.panes[p], v.paneStates[p], themes)
  {
    hide Shows, Step, Drain, StreamBytes, DrainBytes, Framed;
    ConnectedReplicates(app, json, themes);
    RunReplicates(Connected(true), ops, app, json, themes);
    var st := Run(Connected(true), ops);
    if st.client.Some? {
      BytesDrainTheQueue(app, st.client.value.outbound, json);
    }
  }

  // ---- exactly when an undisciplined step breaks agreement ----

  /** A runtime state that is really sent keeps the cached panes on the client exactly when nothing
      is cached, or the client has no view revision yet, or the revision is the one it has. */
  lemma RuntimeStateExactly(s: Session, payload: seq<byte>, d: App, json: Json, themes: iset<Theme>)
    requires PaneAgree(s.view, d, themes)
    requires |payload| < U32_LIMIT && json.runtimeState(payload).Some?
    requires s.view.runtimePayload != Some(payload)
    ensures var u := json.runtimeState(payload).value;
            PaneAgree(s.view.(runtimePayload := Some(payload)),
                      Receive(d, EncodeMessage(Message(UI_RUNTIME_STATE, payload)), json), themes)
            <==> s.view.paneStates == map[] || d.viewRevision == 0 || u.viewRevision == d.viewRevision
  {
    hide Shows, Receive, EncodeMessage;
    var u := json.runtimeState(payload).value;
    ReceiveEncoded(d, Message(UI_RUNTIME_STATE, payload), json);
    if s.view.paneStates != map[] {
      var p :| p in s.view.paneStates;
    }
  }

  /** The shared broadcast to all local viewers always says view revision 1: it drops the panes of a
      client that has moved on, while the server goes on sending deltas against them. */
  lemma SharedBroadcastBreaks(s: Session, payload: seq<byte>, d: App, json: Json, themes: iset<Theme>)
    requires PaneAgree(s.view, d, themes) && s.view.paneStates != map[]
    requires |payload| < U32_LIMIT && json.runtimeState(payload) == Some(UiRuntimeState(1, 1, d.focusedPaneId))
    requires s.view.runtimePayload != Some(payload) && d.viewRevision >= 2
    ensures !PaneAgree(s.view.(runtimePayload := Some(payload)),
                       Receive(d, EncodeMessage(Message(UI_RUNTIME_STATE, payload)), json), themes)
  {
    RuntimeStateExactly(s, payload, d, json, themes);
  }

  /** A pane publish keeps the cached panes on the client exactly when its frame passes the revision
      filter, or the pane already shows the new grid: a dropped frame is still cached. */
  lemma PanePublishExactly(v: View, p: Publish, d: App, json: Json, themes: iset<Theme>)
    requires PaneAgree(v, d, themes) && d.theme in themes && DEFAULT_THEME in themes
    requires Encodes(p) && FitsFrame(p) && p.PanePublish?
    requires p.previous == if p.paneId in v.paneStates then Some(v.paneStates[p.paneId]) else None
    ensures PaneAgree(CacheNext(v, p), Receive(d, PublishOutbound(p).bytes, json), themes)
            <==> Accepted(p, d) || (p.paneId in d.panes && Shows(d.panes[p.paneId], p.next, themes))
  {
    hide Shows, PublishMessage, PublishOutbound, Receive, Delta;
    PublishArrives(p, d, json);
    if Accepted(p, d) {
      AcceptedShows(p, d, themes);
    } else {
      assert Handle(d, PublishEvent(p)) == d;
      assert p.paneId in CacheNext(v, p).paneStates;
    }
  }
}
