/** Server and client over runs of any publisher: exactly which steps keep them together. */
module PublisherRuns {
  import opened Bytes
  import opened Grid
  import opened Framing
  import opened WireEncode
  import opened WireDecode
  import opened Snapshot
  import opened DeltaRefinement
  import opened ClientGui
  import opened RemoteState
  import opened ServerRun
  import opened Replication

  /** Colours aside: a cell may be drawn in any theme. */
  ghost const ANY_THEME: iset<Theme> := iset t: Theme | true

  // ---- serial runs ----

  /** Frames short enough to be framed, screen publishes to local clients only, and one publisher
      thread; nothing is asked of what it sends, or when. */
  predicate Serial(st: ServerState, op: Op)
    requires Sound(st) && Enabled(st, op)
  {
    && (st.inFlight != [] ==> op == FinishPublish(0) || op.SendOther? || op.Remove?)
    && match op
       case SendControl(_, payload) => |payload| < U32_LIMIT
       case ReplyTabs(payload) => |payload| < U32_LIMIT
       case SendOther(m) => |m.payload| < U32_LIMIT
       case StartScreen(_) =>
         st.client.Some? ==> st.client.value.isLocal && forall p :: p in Start(st.client.value, op) ==> FitsFrame(p)
       case StartPane(_, _, _, _, _) =>
         st.client.Some? ==> forall p :: p in Start(st.client.value, op) ==> FitsFrame(p)
       case _ => true
  }

  predicate SerialRun(st: ServerState, ops: seq<Op>)
    requires Sound(st)
    decreases |ops|
  {
    ops == [] || (Enabled(st, ops[0]) && Serial(st, ops[0]) && SerialRun(Step(st, ops[0]), ops[1..]))
  }

  /** A publish encoded against the cache as it is. */
  predicate UpToDate(v: View, p: Publish) {
    && FitsFrame(p)
    && match p
       case ScreenPublish(_, previous, _, isLocal) => isLocal && previous == v.lastState
       case PanePublish(_, previous, _, paneId, _, _, _) =>
         previous == if paneId in v.paneStates then Some(v.paneStates[paneId]) else None
  }

  predicate Current(st: ServerState) {
    && |st.inFlight| <= 1
    && (st.client.Some? ==> forall p :: p in st.inFlight ==> UpToDate(st.client.value.view, p))
  }

  lemma StepCurrent(st: ServerState, op: Op)
    requires Sound(st) && Enabled(st, op) && Serial(st, op) && Current(st)
    ensures Current(Step(st, op))
  {
    hide PublishOutbound, EncodeMessage, PublishMessage, TouchView;
    if op.FinishPublish? {
      assert Without(st.inFlight, 0) == [];
    }
  }

  // ---- one step ----

  ghost predicate BothAgree(v: View, d: App) {
    PaneAgree(v, d, ANY_THEME) && ScreenAgree(v, d, ANY_THEME)
  }

  /** The drained client shows everything the server has cached for it. */
  ghost predicate Together(st: ServerState, app: App, json: Json)
    requires Sound(st)
  {
    st.client.Some? ==> BothAgree(st.client.value.view, Drain(app, st.client.value.outbound, json))
  }

  /** A runtime state that is really sent: nothing is cached, or the client has no view revision or
      the same one, and the pane it focuses shows the cached screen, if there is one. */
  ghost predicate StateFits(v: View, u: UiRuntimeState, d: App) {
    v.NothingCached()
    || (&& (d.viewRevision == 0 || u.viewRevision == d.viewRevision)
        && (v.lastState.Some? ==>
              && u.focusedPane != 0 && u.focusedPane in d.panes && v.lastState.value.WellFormed()
              && Shows(d.panes[u.focusedPane], v.lastState.value, ANY_THEME)))
  }

  /** A publish that is committed. A screen needs a focused pane to land on, and leaves a pane cached
      for that place looking as cached; a pane passes the client's revision filter or shows the new
      grid already, and leaves the cached screen, if it lands on it, looking as cached. */
  ghost predicate PublishFits(v: View, p: Publish, d: App)
    requires SoundView(v) && Encodes(p)
  {
    var panes, focus := Handle(d, PublishEvent(p)).panes, d.focusedPaneId;
    match p
    case ScreenPublish(_, _, _, _) =>
      && (PublishDelta(p).Some? || focus != 0)
      && (focus in v.paneStates ==> focus in panes && Shows(panes[focus], v.paneStates[focus], ANY_THEME))
    case PanePublish(next, _, _, paneId, _, _, _) =>
      && (Accepted(p, d) || (paneId in d.panes && Shows(d.panes[paneId], next, ANY_THEME)))
      && (v.lastState.Some? && paneId == focus ==>
            focus in panes && Shows(panes[focus], v.lastState.value, ANY_THEME))
  }

  /** What the step has to meet, with `d` the client that has read everything sent before. */
  ghost predicate StepFits(st: ServerState, op: Op, d: App, json: Json)
    requires Sound(st) && Enabled(st, op)
  {
    st.client.Some? ==>
      var v := st.client.value.view;
      match op
      case SendControl(kind, payload) =>
        var u := json.runtimeState(payload);
        kind == RuntimeStateKind && v.runtimePayload != Some(payload) && u.Some? ==> StateFits(v, u.value, d)
      case FinishPublish(i) => v.subscribed ==> PublishFits(v, st.inFlight[i], d)
      case _ => true
  }

  ghost predicate FitsNow(st: ServerState, op: Op, app: App, json: Json)
    requires Sound(st) && Enabled(st, op)
  {
    st.client.Some? ==> StepFits(st, op, Drain(app, st.client.value.outbound, json), json)
  }

  lemma FewerCachedAgree(v: View, v': View, d: App)
    requires BothAgree(v, d) && SoundView(v')
    requires v'.lastState.None? || v'.lastState == v.lastState
    requires forall p :: p in v'.paneStates ==> p in v.paneStates && v'.paneStates[p] == v.paneStates[p]
    ensures BothAgree(v', d)
  {
    hide Shows;
  }

  lemma SamePanesAgree(v: View, d: App, d': App)
    requires BothAgree(v, d) && d'.panes == d.panes && d'.focusedPaneId == d.focusedPaneId
    ensures BothAgree(v, d')
  {
    hide Shows;
  }

  lemma StateExactly(v: View, v': View, u: UiRuntimeState, d: App)
    requires BothAgree(v, d) && v'.lastState == v.lastState && v'.paneStates == v.paneStates
    ensures BothAgree(v', ApplyRuntimeState(d, u)) <==> StateFits(v, u, d)
  {
    hide Shows;
    if v.paneStates != map[] {
      var p :| p in v.paneStates;
    }
  }

  lemma ControlExactly(st: ServerState, op: Op, app: App, json: Json)
    requires Sound(st) && Enabled(st, op) && Serial(st, op) && st.client.Some? && Together(st, app, json)
    requires op.SendControl?
    ensures Together(Step(st, op), app, json) <==> FitsNow(st, op, app, json)
  {
    hide Shows, Receive, EncodeMessage, BothAgree, Drain, StateFits, ApplyRuntimeState;
    var s := st.client.value;
    var d, m := Drain(app, s.outbound, json), Message(ControlType(op.kind), op.payload);
    if CacheSlot(s.view, op.kind) != Some(op.payload) {
      DrainAppend(app, s.outbound, Frame(EncodeMessage(m)), json);
      ReceiveEncoded(d, m, json);
      var v' := SetCacheSlot(s.view, op.kind, op.payload);
      if op.kind == RuntimeStateKind && json.runtimeState(op.payload).Some? {
        StateExactly(s.view, v', json.runtimeState(op.payload).value, d);
        StateArrives(d, op.payload, json);
      } else {
        var d' := Receive(d, EncodeMessage(m), json);
        ControlKeepsPanes(d, op.kind, op.payload, json);
        SamePanesAgree(s.view, d, d');
        FewerCachedAgree(s.view, v', d');
      }
    }
  }

  lemma StateArrives(d: App, payload: seq<byte>, json: Json)
    requires json.runtimeState(payload).Some?
    ensures Handle(d, DecodeEvent(Message(UI_RUNTIME_STATE, payload), json))
            == ApplyRuntimeState(d, json.runtimeState(payload).value)
  {
  }

  lemma ControlKeepsPanes(d: App, kind: ControlKind, payload: seq<byte>, json: Json)
    requires kind == RuntimeStateKind ==> json.runtimeState(payload).None?
    ensures var d' := Handle(d, DecodeEvent(Message(ControlType(kind), payload), json));
            d'.panes == d.panes && d'.focusedPaneId == d.focusedPaneId
  {
    hide DecodePaneFull, DecodePaneDelta, DecodeFull, DecodeDelta;
  }

  /** A pane publish, on both lanes. */
  lemma PaneExactly(v: View, p: Publish, d: App)
    requires BothAgree(v, d) && Encodes(p) && UpToDate(v, p) && p.PanePublish?
    ensures BothAgree(CacheNext(v, p), Handle(d, PublishEvent(p))) <==> PublishFits(v, p, d)
  {
    hide Shows, PublishMessage, Delta, DeltaBetween, ApplyDelta;
    if Accepted(p, d) {
      AcceptedShows(p, d, ANY_THEME);
    } else {
      assert Handle(d, PublishEvent(p)) == d;
      assert p.paneId in CacheNext(v, p).paneStates;
    }
  }

  /** A screen publish, on both lanes. */
  lemma ScreenExactly(v: View, p: Publish, d: App)
    requires BothAgree(v, d) && Encodes(p) && UpToDate(v, p) && p.ScreenPublish?
    ensures BothAgree(CacheNext(v, p), Handle(d, PublishEvent(p))) <==> PublishFits(v, p, d)
  {
    hide Shows, PublishMessage, Delta, DeltaBetween, ApplyDelta;
    if PublishDelta(p).Some? || d.focusedPaneId != 0 {
      AcceptedShows(p, d, ANY_THEME);
    }
  }

  lemma FinishExactly(st: ServerState, op: Op, app: App, json: Json)
    requires Sound(st) && Enabled(st, op) && Serial(st, op) && st.client.Some? && Together(st, app, json)
    requires op.FinishPublish? && Current(st)
    ensures Together(Step(st, op), app, json) <==> FitsNow(st, op, app, json)
  {
    hide BothAgree, Receive, EncodeMessage, Drain, PublishOutbound, PublishMessage, PublishFits, Handle, PublishEvent;
    var s, p := st.client.value, st.inFlight[op.index];
    assert op.index == 0 && p in st.inFlight;
    if s.view.subscribed {
      DrainAppend(app, s.outbound, PublishOutbound(p), json);
      PublishArrives(p, Drain(app, s.outbound, json), json);
      if p.PanePublish? {
        PaneExactly(s.view, p, Drain(app, s.outbound, json));
      } else {
        ScreenExactly(s.view, p, Drain(app, s.outbound, json));
      }
    }
  }

  lemma OtherExactly(st: ServerState, op: Op, app: App, json: Json)
    requires Sound(st) && Enabled(st, op) && Serial(st, op) && st.client.Some? && Together(st, app, json)
    requires !op.SendControl? && !op.FinishPublish?
    ensures Together(Step(st, op), app, json)
  {
    hide Shows, Receive, EncodeMessage, Drain, BothAgree;
    var s := st.client.value;
    var d := Drain(app, s.outbound, json);
    if op.SendOther? || op.ReplyTabs? {
      var m := if op.SendOther? then op.message else Message(TAB_LIST, op.payload);
      UnreservedIgnored(d, m, json);
      DrainAppend(app, s.outbound, Frame(EncodeMessage(m)), json);
    } else if op.Remove? || op.StartPane? || op.StartScreen? {
    } else {
      ViewStepShrinks(s.view, op);
      FewerCachedAgree(s.view, SessionStep(s, op).view, d);
    }
  }

  /** One step of any kind keeps everything cached on the drained client exactly when it fits. */
  lemma StepExactly(st: ServerState, op: Op, app: App, json: Json)
    requires Sound(st) && Enabled(st, op) && Serial(st, op) && Current(st) && Together(st, app, json)
    ensures Together(Step(st, op), app, json) <==> FitsNow(st, op, app, json)
  {
    hide Together, Serial, Current, Step;
    if st.client.None? {
      assert Together(Step(st, op), app, json) by { NoClientTogether(st, op, app, json); }
    } else if op.SendControl? {
      ControlExactly(st, op, app, json);
    } else if op.FinishPublish? {
      FinishExactly(st, op, app, json);
    } else {
      OtherExactly(st, op, app, json);
    }
  }

  lemma NoClientTogether(st: ServerState, op: Op, app: App, json: Json)
    requires Sound(st) && Enabled(st, op) && st.client.None?
    ensures Together(Step(st, op), app, json)
  {
  }

  // ---- whole runs ----

  ghost predicate TogetherThroughout(st: ServerState, ops: seq<Op>, app: App, json: Json)
    requires Sound(st) && SerialRun(st, ops)
    decreases |ops|
  {
    Together(st, app, json) && (ops != [] ==> TogetherThroughout(Step(st, ops[0]), ops[1..], app, json))
  }

  ghost predicate FitsThroughout(st: ServerState, ops: seq<Op>, app: App, json: Json)
    requires Sound(st) && SerialRun(st, ops)
    decreases |ops|
  {
    ops != [] ==> FitsNow(st, ops[0], app, json) && FitsThroughout(Step(st, ops[0]), ops[1..], app, json)
  }

  lemma {:induction false} ThroughoutExactly(st: ServerState, ops: seq<Op>, app: App, json: Json)
    requires Sound(st) && SerialRun(st, ops) && Current(st) && Together(st, app, json)
    ensures TogetherThroughout(st, ops, app, json) <==> FitsThroughout(st, ops, app, json)
    decreases |ops|
  {
    hide Together, FitsNow, Current, Serial, Step;
    if ops == [] {
    } else {
      StepCurrent(st, ops[0]);
      StepExactly(st, ops[0], app, json);
      if Together(Step(st, ops[0]), app, json) {
        ThroughoutExactly(Step(st, ops[0]), ops[1..], app, json);
      } else {
        NeverTogether(Step(st, ops[0]), ops[1..], app, json);
      }
    }
  }

  lemma NeverTogether(st: ServerState, ops: seq<Op>, app: App, json: Json)
    requires Sound(st) && SerialRun(st, ops) && !Together(st, app, json)
    ensures !TogetherThroughout(st, ops, app, json)
  {
  }

  /** For every run from a new connection, disciplined or not: everything the server has cached, panes
      and screen, is shown by the drained client at every moment of the run, exactly when every
      runtime state and every committed publish fits at its moment. */
  lemma AgreementExactly(isLocal: bool, ops: seq<Op>, app: App, json: Json)
    requires SerialRun(Connected(isLocal), ops)
    ensures TogetherThroughout(Connected(isLocal), ops, app, json)
            <==> FitsThroughout(Connected(isLocal), ops, app, json)
  {
    hide TogetherThroughout, FitsThroughout, SerialRun;
    ThroughoutExactly(Connected(isLocal), ops, app, json);
  }
}
