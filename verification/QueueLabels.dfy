/** What stands in a client's queue: every message under the label its bytes are for. */
module QueueLabels {
  import opened Bytes
  import opened Grid
  import opened Framing
  import opened WireEncode
  import opened WireDecode
  import opened DeltaRefinement
  import opened ClientGui
  import opened RemoteState
  import opened ServerRun
  import opened Replication
  import opened FailingRuns
  import opened PaneOrder
  import opened BatchReplication

  // ---- one publish ----

  /** A published pane is queued under its own id, marked as captured, and its frame carries an update
      of that pane at the publish's runtime revision; a published screen is queued as a screen. */
  lemma PublishLabelled(p: Publish, json: Json)
    requires Encodes(p) && FitsFrame(p) && (p.ScreenPublish? ==> p.isLocal)
    ensures var m := PublishOutbound(p);
            var e := EventOf(m.bytes, json);
            match p
            case ScreenPublish(_, _, _, _) => m.ScreenUpdate? && (e.FullScreen? || e.ScreenDelta?)
            case PanePublish(next, _, _, paneId, _, runtimeRevision, focused) =>
              && IsPane(m, paneId) && m.focused == focused
              && (e.PaneFull? || e.PaneDelta?) && e.paneId == paneId && e.runtimeRevision == runtimeRevision
              && (e.PaneFull? ==> e.grid == WithoutReplicaFields(next))
    ensures NoScroll(PublishOutbound(p), json)
  {
    hide EventOf, PublishMessage, PublishEvent, EncodeMessage;
    PublishReads(p, json);
    PublishEventFacts(p);
  }

  lemma PublishReads(p: Publish, json: Json)
    requires Encodes(p) && FitsFrame(p) && (p.ScreenPublish? ==> p.isLocal)
    ensures EventOf(PublishOutbound(p).bytes, json) == PublishEvent(p)
  {
    hide EncodeMessage, ReadMessage, DecodeEvent, PublishMessage, PublishEvent;
    var m := PublishMessage(p);
    FrameRoundTrip(m, []);
    assert EncodeMessage(m) + [] == EncodeMessage(m);
    PublishDecodes(p, json);
  }

  lemma PublishEventFacts(p: Publish)
    requires Encodes(p)
    ensures var e := PublishEvent(p);
            && (e.PaneDelta? || e.ScreenDelta? ==> e.delta.scrollRows == 0)
            && (p.ScreenPublish? ==> e.FullScreen? || e.ScreenDelta?)
            && (p.PanePublish? ==>
                  && (e.PaneFull? || e.PaneDelta?) && e.paneId == p.paneId && e.runtimeRevision == p.runtimeRevision
                  && (e.PaneFull? ==> e.grid == WithoutReplicaFields(p.next)))
  {
    hide Delta;
  }

  /** Of a screen for a local client, the client reads back the input last recorded in its view. */
  lemma ScreenAcknowledges(s: Session, next: RemoteFullState)
    requires s.isLocal && Encodes(BeginScreen(s, next))
    ensures var m := PublishMessage(BeginScreen(s, next));
            var ack := if s.view.latestInputSeq == Some(0) then None else s.view.latestInputSeq;
            if m.ty == DELTA then DecodeDelta(m.payload).Some? && DecodeDelta(m.payload).value.0 == ack
            else m.ty == FULL_STATE && DecodeFull(m.payload) == Some((ack, WithoutReplicaFields(next)))
  {
    hide Delta, FullPayload, DecodeDelta, DecodeFull, DeltaBetween;
    var p := BeginScreen(s, next);
    if PublishDelta(p).Some? {
      DeltaDecodes(p.previous.value, next, p.latestInputSeq);
    } else {
      FullRoundTrip(next, p.latestInputSeq);
    }
  }

  // ---- queues over runs ----

  /** The bytes are what the label says. */
  predicate Labelled(m: OutboundMessage, isLocal: bool, json: Json) {
    var e := EventOf(m.bytes, json);
    match m
    case PaneUpdate(paneId, _, _) => (e.PaneFull? || e.PaneDelta?) && e.paneId == paneId && NoScroll(m, json)
    case ScreenUpdate(_) => isLocal ==> (e.FullScreen? || e.ScreenDelta?) && NoScroll(m, json)
    case Frame(_) => e.RuntimeState? || e.Appearance? || e.Other?
  }

  /** The record as it was when operation `k` of the run began. */
  function Before(isLocal: bool, ops: seq<Op>, k: nat): (st: ServerState)
    requires k <= |ops| && EnabledRun(Connected(isLocal), ops[..k])
  {
    Run(Connected(isLocal), ops[..k])
  }

  /** Operation `k` is the first lock of a publish of this pane to a subscribed client, focused or not
      in the client's view at that moment. */
  predicate PaneStarts(isLocal: bool, ops: seq<Op>, k: nat, paneId: u64, focused: bool, runtimeRevision: u64) {
    && k < |ops| && ops[k].StartPane? && EnabledRun(Connected(isLocal), ops[..k])
    && var c := Before(isLocal, ops, k).client;
       && c.Some? && c.value.view.subscribed && ops[k].paneId == paneId && ops[k].runtimeRevision == runtimeRevision
       && (focused <==> c.value.view.focusedPaneId == Some(paneId))
  }

  /** Operation `k` is the first lock of a publish of the screen. */
  predicate ScreenStarts(isLocal: bool, ops: seq<Op>, k: nat) {
    && k < |ops| && ops[k].StartScreen? && EnabledRun(Connected(isLocal), ops[..k])
    && var c := Before(isLocal, ops, k).client;
       c.Some? && c.value.view.subscribed
  }

  /** A pane update in the queue goes back to a publish of that pane, a screen to one of the screen. */
  predicate Originates(isLocal: bool, ops: seq<Op>, m: OutboundMessage, json: Json) {
    && (m.ScreenUpdate? ==> exists k :: 0 <= k < |ops| && ScreenStarts(isLocal, ops, k))
    && (m.PaneUpdate? ==>
      && (EventOf(m.bytes, json).PaneFull? || EventOf(m.bytes, json).PaneDelta?)
      && exists k :: 0 <= k < |ops|
                     && PaneStarts(isLocal, ops, k, m.paneId, m.focused, EventOf(m.bytes, json).runtimeRevision))
  }

  predicate StartedIn(isLocal: bool, ops: seq<Op>, p: Publish) {
    && FitsFrame(p)
    && (p.ScreenPublish? ==>
          p.isLocal == isLocal && exists k :: 0 <= k < |ops| && ScreenStarts(isLocal, ops, k))
    && (p.PanePublish? ==>
          exists k :: 0 <= k < |ops| && PaneStarts(isLocal, ops, k, p.paneId, p.focused, p.runtimeRevision))
  }

  /** Payloads and grids that fit their frames. */
  ghost predicate FitsQueue(op: Op) {
    match op
    case SendControl(_, payload) => |payload| < U32_LIMIT
    case ReplyTabs(payload) => |payload| < U32_LIMIT
    case SendOther(m) => |m.payload| < U32_LIMIT
    case StartScreen(next) => Short(next)
    case StartPane(_, _, _, _, next) => Short(next)
    case _ => true
  }

  ghost predicate AllFitQueue(ops: seq<Op>) {
    forall i :: 0 <= i < |ops| ==> FitsQueue(ops[i])
  }

  ghost predicate InOrder(st: ServerState, isLocal: bool, ops: seq<Op>, json: Json) {
    && (forall i :: 0 <= i < |st.inFlight| ==> StartedIn(isLocal, ops, st.inFlight[i]))
    && (st.client.Some? ==>
          && st.client.value.isLocal == isLocal
          && forall i :: 0 <= i < |st.client.value.outbound| ==>
               Labelled(st.client.value.outbound[i], isLocal, json)
               && Originates(isLocal, ops, st.client.value.outbound[i], json))
  }

  lemma PaneStartsLater(isLocal: bool, ops: seq<Op>, op: Op, k: nat, paneId: u64, focused: bool, revision: u64)
    requires PaneStarts(isLocal, ops, k, paneId, focused, revision)
    ensures PaneStarts(isLocal, ops + [op], k, paneId, focused, revision)
  {
    assert (ops + [op])[..k] == ops[..k];
  }

  lemma ScreenStartsLater(isLocal: bool, ops: seq<Op>, op: Op, k: nat)
    requires ScreenStarts(isLocal, ops, k)
    ensures ScreenStarts(isLocal, ops + [op], k)
  {
    assert (ops + [op])[..k] == ops[..k];
  }

  lemma StartedLater(isLocal: bool, ops: seq<Op>, op: Op, p: Publish)
    requires StartedIn(isLocal, ops, p)
    ensures StartedIn(isLocal, ops + [op], p)
  {
    hide PaneStarts, ScreenStarts, FitsFrame;
    if p.ScreenPublish? {
      var k :| 0 <= k < |ops| && ScreenStarts(isLocal, ops, k);
      ScreenStartsLater(isLocal, ops, op, k);
    }
    if p.PanePublish? {
      var k :| 0 <= k < |ops| && PaneStarts(isLocal, ops, k, p.paneId, p.focused, p.runtimeRevision);
      PaneStartsLater(isLocal, ops, op, k, p.paneId, p.focused, p.runtimeRevision);
    }
  }

  lemma OriginatesLater(isLocal: bool, ops: seq<Op>, op: Op, m: OutboundMessage, json: Json)
    requires Originates(isLocal, ops, m, json)
    ensures Originates(isLocal, ops + [op], m, json)
  {
    hide PaneStarts, ScreenStarts, EventOf;
    if m.ScreenUpdate? {
      var k :| 0 <= k < |ops| && ScreenStarts(isLocal, ops, k);
      ScreenStartsLater(isLocal, ops, op, k);
    }
    if m.PaneUpdate? {
      var revision := EventOf(m.bytes, json).runtimeRevision;
      var k :| 0 <= k < |ops| && PaneStarts(isLocal, ops, k, m.paneId, m.focused, revision);
      PaneStartsLater(isLocal, ops, op, k, m.paneId, m.focused, revision);
    }
  }

  /** A frame of the server's own is no pane and no screen. */
  lemma FrameLabelled(m: Message, isLocal: bool, ops: seq<Op>, json: Json)
    requires |m.payload| < U32_LIMIT && (!Reserved(m.ty) || m.ty in {TAB_LIST, UI_RUNTIME_STATE, UI_APPEARANCE})
    ensures Labelled(Frame(EncodeMessage(m)), isLocal, json)
    ensures Originates(isLocal, ops, Frame(EncodeMessage(m)), json)
  {
    hide EncodeMessage, ReadMessage, DecodeFull, DecodeDelta, DecodePaneFull, DecodePaneDelta;
    FrameRoundTrip(m, []);
    assert EncodeMessage(m) + [] == EncodeMessage(m);
  }

  lemma PublishOriginates(isLocal: bool, ops: seq<Op>, p: Publish, json: Json)
    requires Encodes(p) && StartedIn(isLocal, ops, p)
    ensures Labelled(PublishOutbound(p), isLocal, json) && Originates(isLocal, ops, PublishOutbound(p), json)
  {
    hide EventOf, PublishMessage, PaneStarts, ScreenStarts, EncodeMessage, FitsFrame, NoScroll;
    if p.PanePublish? || isLocal {
      PublishLabelled(p, json);
    }
  }

  lemma QueueGrows(st: ServerState, s': Session, m: OutboundMessage, isLocal: bool, ops: seq<Op>, json: Json)
    requires InOrder(st, isLocal, ops, json) && st.client.Some?
    requires s'.isLocal == st.client.value.isLocal && s'.outbound == st.client.value.outbound + [m]
    requires Labelled(m, isLocal, json) && Originates(isLocal, ops, m, json)
    ensures InOrder(st.(client := Some(s')), isLocal, ops, json)
  {
    hide Labelled, Originates, StartedIn;
  }

  lemma OrderLater(st: ServerState, isLocal: bool, ops: seq<Op>, op: Op, json: Json)
    requires InOrder(st, isLocal, ops, json)
    ensures InOrder(st, isLocal, ops + [op], json)
  {
    hide Labelled, Originates, StartedIn;
    forall i | 0 <= i < |st.inFlight| ensures StartedIn(isLocal, ops + [op], st.inFlight[i]) {
      StartedLater(isLocal, ops, op, st.inFlight[i]);
    }
    if st.client.Some? {
      forall i | 0 <= i < |st.client.value.outbound|
        ensures Originates(isLocal, ops + [op], st.client.value.outbound[i], json)
      {
        OriginatesLater(isLocal, ops, op, st.client.value.outbound[i], json);
      }
    }
  }

  /** A publish that begins now. */
  lemma StartsNow(isLocal: bool, ops: seq<Op>, op: Op, s: Session)
    requires EnabledRun(Connected(isLocal), ops) && Run(Connected(isLocal), ops).client == Some(s)
    requires s.isLocal == isLocal && (op.StartScreen? || op.StartPane?) && FitsQueue(op)
    requires SoundView(s.view) && op.next.WellFormed()
    ensures forall p :: p in Start(s, op) ==> StartedIn(isLocal, ops + [op], p)
  {
    hide FitsFrame, EnabledRun, Run;
    assert (ops + [op])[..|ops|] == ops && (ops + [op])[|ops|] == op;
    forall p | p in Start(s, op) ensures StartedIn(isLocal, ops + [op], p) {
      if p.PanePublish? {
        assert PaneStarts(isLocal, ops + [op], |ops|, p.paneId, p.focused, p.runtimeRevision);
      } else {
        assert ScreenStarts(isLocal, ops + [op], |ops|);
      }
    }
  }

  lemma StepInOrder(isLocal: bool, ops: seq<Op>, op: Op, json: Json)
    requires EnabledRun(Connected(isLocal), ops) && FitsQueue(op)
    requires Enabled(Run(Connected(isLocal), ops), op)
    requires InOrder(Run(Connected(isLocal), ops), isLocal, ops, json)
    ensures InOrder(Step(Run(Connected(isLocal), ops), op), isLocal, ops + [op], json)
  {
    hide Labelled, Originates, StartedIn, Run, EnabledRun, EncodeMessage, PublishOutbound, Encodes, Short;
    var st := Run(Connected(isLocal), ops);
    OrderLater(st, isLocal, ops, op, json);
    if st.client.None? || op.Remove? {
    } else if op.FinishPublish? {
      FinishInOrder(st, op, isLocal, ops + [op], json);
    } else if op.StartScreen? || op.StartPane? {
      StartsNow(isLocal, ops, op, st.client.value);
    } else {
      SessionInOrder(st, op, isLocal, ops + [op], json);
    }
  }

  lemma FinishInOrder(st: ServerState, op: Op, isLocal: bool, ops: seq<Op>, json: Json)
    requires Sound(st) && Enabled(st, op) && op.FinishPublish? && st.client.Some? && InOrder(st, isLocal, ops, json)
    ensures InOrder(Step(st, op), isLocal, ops, json)
  {
    hide Labelled, Originates, StartedIn, EncodeMessage, PublishOutbound, Encodes;
    var s, p := st.client.value, st.inFlight[op.index];
    if s.view.subscribed {
      PublishOriginates(isLocal, ops, p, json);
      QueueGrows(st, Commit(s, p), PublishOutbound(p), isLocal, ops, json);
    }
  }

  lemma SessionInOrder(st: ServerState, op: Op, isLocal: bool, ops: seq<Op>, json: Json)
    requires Sound(st) && Enabled(st, op) && st.client.Some? && InOrder(st, isLocal, ops, json) && FitsQueue(op)
    requires !op.FinishPublish? && !op.Remove? && !op.StartScreen? && !op.StartPane?
    ensures InOrder(Step(st, op), isLocal, ops, json)
  {
    hide Labelled, Originates, StartedIn, EncodeMessage;
    var s := st.client.value;
    if op.SendControl? {
      var m := Message(ControlType(op.kind), op.payload);
      FrameLabelled(m, isLocal, ops, json);
      if CacheSlot(s.view, op.kind) != Some(op.payload) {
        QueueGrows(st, SessionStep(s, op), Frame(EncodeMessage(m)), isLocal, ops, json);
      }
    } else if op.SendOther? || op.ReplyTabs? {
      var m := if op.SendOther? then op.message else Message(TAB_LIST, op.payload);
      FrameLabelled(m, isLocal, ops, json);
      QueueGrows(st, SessionStep(s, op), Frame(EncodeMessage(m)), isLocal, ops, json);
    }
  }

  lemma {:induction false} RunSnoc(st: ServerState, ops: seq<Op>, op: Op)
    requires Sound(st) && EnabledRun(st, ops + [op])
    ensures EnabledRun(st, ops) && Enabled(Run(st, ops), op)
    ensures Run(st, ops + [op]) == Step(Run(st, ops), op)
    decreases |ops|
  {
    hide Step, Enabled;
    if ops == [] {
      assert [] + [op] == [op] && [op][1..] == [];
      assert Run(Step(st, op), []) == Step(st, op);
    } else {
      assert (ops + [op])[1..] == ops[1..] + [op];
      RunSnoc(Step(st, ops[0]), ops[1..], op);
    }
  }

  lemma {:induction false} RunInOrder(isLocal: bool, ops: seq<Op>, json: Json)
    requires EnabledRun(Connected(isLocal), ops) && AllFitQueue(ops)
    ensures InOrder(Run(Connected(isLocal), ops), isLocal, ops, json)
  {
    hide Step, InOrder, FitsQueue;
    if ops == [] {
      assert InOrder(Connected(isLocal), isLocal, [], json) by { NothingQueued(isLocal, json); }
    } else {
      var before, op := ops[..|ops| - 1], ops[|ops| - 1];
      assert ops == before + [op];
      RunSnoc(Connected(isLocal), before, op);
      RunInOrder(isLocal, before, json);
      StepInOrder(isLocal, before, op, json);
    }
  }

  lemma NothingQueued(isLocal: bool, json: Json)
    ensures InOrder(Connected(isLocal), isLocal, [], json)
  {
  }

  /** Over every run, however publishes interleave: whatever stands in the queue carries what its label
      says, and a pane update goes back to the publish of that very pane, marked as focused exactly when
      the client's view focused it as that publish began; nothing is published that began while the client
      was not subscribed. */
  lemma QueueIsLabelled(isLocal: bool, ops: seq<Op>, json: Json, i: nat)
    requires EnabledRun(Connected(isLocal), ops) && AllFitQueue(ops)
    requires Run(Connected(isLocal), ops).client.Some?
    requires i < |Run(Connected(isLocal), ops).client.value.outbound|
    ensures var m := Run(Connected(isLocal), ops).client.value.outbound[i];
            Labelled(m, isLocal, json) && Originates(isLocal, ops, m, json)
  {
    hide Run, EnabledRun, Labelled, Originates;
    RunInOrder(isLocal, ops, json);
  }

  /** So the queue of pane updates of any run meets what the exact law for batches of them asks. */
  lemma QueuedPanesArePlain(isLocal: bool, ops: seq<Op>, json: Json, i: nat)
    requires EnabledRun(Connected(isLocal), ops) && AllFitQueue(ops)
    requires Run(Connected(isLocal), ops).client.Some?
    requires i < |Run(Connected(isLocal), ops).client.value.outbound|
    requires Run(Connected(isLocal), ops).client.value.outbound[i].PaneUpdate?
    ensures Plain(Run(Connected(isLocal), ops).client.value.outbound[i], json)
  {
    hide Run, EnabledRun, EventOf;
    QueueIsLabelled(isLocal, ops, json, i);
  }
}
