/** The control-payload cache against a server that always sends. */
module ControlDedup {
  import opened Bytes
  import opened Framing
  import opened RemoteState
  import opened ServerRun

  /** The payload of `m` if a reader of the frame sees type `ty`. */
  function PayloadOf(m: OutboundMessage, ty: MessageType): seq<seq<byte>> {
    var r := ReadMessage(m.bytes);
    if m.Frame? && r.Read? && r.rest == [] && r.message.ty == ty then [r.message.payload] else []
  }

  /** All payloads of one type in a client's stream, in order. */
  function Payloads(out: seq<OutboundMessage>, ty: MessageType): seq<seq<byte>> {
    if out == [] then [] else Payloads(out[..|out| - 1], ty) + PayloadOf(out[|out| - 1], ty)
  }

  lemma PayloadsAppend(out: seq<OutboundMessage>, m: OutboundMessage, ty: MessageType)
    ensures Payloads(out + [m], ty) == Payloads(out, ty) + PayloadOf(m, ty)
  {
    assert (out + [m])[..|out|] == out;
  }

  lemma SentPayload(m: Message, ty: MessageType)
    ensures m.ty != ty ==> PayloadOf(Frame(EncodeMessage(m)), ty) == []
    ensures m.ty == ty && |m.payload| < U32_LIMIT ==> PayloadOf(Frame(EncodeMessage(m)), ty) == [m.payload]
  {
    hide EncodeMessage, ParseHeader;
    FrameRoundTrip(m, []);
    HeaderRoundTrip(m, []);
    assert EncodeMessage(m) + [] == EncodeMessage(m);
  }

  /** A sequence without its immediate repetitions: what always-send would have changed. */
  function Dedup(s: seq<seq<byte>>): seq<seq<byte>> {
    if s == [] then []
    else
      var d, x := Dedup(s[..|s| - 1]), s[|s| - 1];
      if d != [] && d[|d| - 1] == x then d else d + [x]
  }

  lemma {:induction false} DedupKeepsLast(s: seq<seq<byte>>)
    ensures Dedup(s) == [] <==> s == []
    ensures s != [] ==> Dedup(s)[|Dedup(s)| - 1] == s[|s| - 1]
  {
    if s == [] {
    } else {
      DedupKeepsLast(s[..|s| - 1]);
    }
  }

  lemma {:induction false} DedupNeverRepeats(s: seq<seq<byte>>)
    ensures forall i :: 0 < i < |Dedup(s)| ==> Dedup(s)[i - 1] != Dedup(s)[i]
  {
    if s == [] {
    } else {
      DedupNeverRepeats(s[..|s| - 1]);
    }
  }

  /** The payloads of one kind handed to the cache during a run. */
  function Sends(k: ControlKind, ops: seq<Op>): seq<seq<byte>> {
    if ops == [] then []
    else (if ops[0].SendControl? && ops[0].kind == k then [ops[0].payload] else []) + Sends(k, ops[1..])
  }

  predicate Fits(ops: seq<Op>) {
    forall i :: 0 <= i < |ops| && ops[i].SendControl? ==> |ops[i].payload| < U32_LIMIT
  }

  predicate NoReplies(ops: seq<Op>) {
    forall i :: 0 <= i < |ops| ==> !ops[i].ReplyTabs?
  }

  /** Stream and cache after the payloads `s` have been handed over. */
  predicate Mirrors(c: Session, k: ControlKind, s: seq<seq<byte>>) {
    && Payloads(c.outbound, ControlType(k)) == Dedup(s)
    && CacheSlot(c.view, k) == if s == [] then None else Some(s[|s| - 1])
  }

  lemma SendMirrors(c: Session, k: ControlKind, s: seq<seq<byte>>, kind: ControlKind, payload: seq<byte>)
    requires Mirrors(c, k, s) && |payload| < U32_LIMIT
    ensures Mirrors(SendCached(c, kind, payload), k, s + if kind == k then [payload] else [])
  {
    hide EncodeMessage, Payloads, PayloadOf, Dedup;
    var m := Message(ControlType(kind), payload);
    assert Payloads(c.outbound, ControlType(k)) + [] == Payloads(c.outbound, ControlType(k));
    assert s + [] == s;
    if CacheSlot(c.view, kind) != Some(payload) {
      PayloadsAppend(c.outbound, Frame(EncodeMessage(m)), ControlType(k));
      SentPayload(m, ControlType(k));
    }
    if kind == k {
      DedupAppend(s, payload);
    }
  }

  lemma DedupAppend(s: seq<seq<byte>>, x: seq<byte>)
    ensures Dedup(s + [x]) == if s != [] && s[|s| - 1] == x then Dedup(s) else Dedup(s) + [x]
  {
    DedupKeepsLast(s);
    assert (s + [x])[..|s|] == s;
  }

  /** Any other message queued leaves the kind's payloads alone. */
  lemma OthersMirror(c: Session, k: ControlKind, s: seq<seq<byte>>, c': Session, m: OutboundMessage)
    requires Mirrors(c, k, s) && PayloadOf(m, ControlType(k)) == []
    requires c'.outbound == c.outbound + [m] && CacheSlot(c'.view, k) == CacheSlot(c.view, k)
    ensures Mirrors(c', k, s)
  {
    PayloadsAppend(c.outbound, m, ControlType(k));
    assert Payloads(c.outbound, ControlType(k)) + [] == Payloads(c.outbound, ControlType(k));
  }

  lemma UntouchedMirrors(c: Session, k: ControlKind, s: seq<seq<byte>>, c': Session)
    requires Mirrors(c, k, s)
    requires c'.outbound == c.outbound && CacheSlot(c'.view, k) == CacheSlot(c.view, k)
    ensures Mirrors(c', k, s)
  {
  }

  lemma StepMirrors(st: ServerState, op: Op, k: ControlKind, s: seq<seq<byte>>)
    requires Sound(st) && Enabled(st, op) && st.client.Some? && Mirrors(st.client.value, k, s)
    requires Fits([op]) && (k == TabListKind ==> NoReplies([op]))
    ensures Step(st, op).client.Some? ==> Mirrors(Step(st, op).client.value, k, s + Sends(k, [op]))
  {
    hide EncodeMessage, PublishOutbound, PayloadOf, Encodes, Mirrors;
    var c := st.client.value;
    assert [op][0] == op && [op][1..] == [];
    assert s + [] == s;
    assert Sends(k, [op]) == if op.SendControl? && op.kind == k then [op.payload] else [];
    if op.SendControl? {
      SendMirrors(c, k, s, op.kind, op.payload);
    } else if op.SendOther? || op.ReplyTabs? {
      var m := if op.SendOther? then op.message else Message(TAB_LIST, op.payload);
      SentPayload(m, ControlType(k));
      OthersMirror(c, k, s, SendMessage(c, m), Frame(EncodeMessage(m)));
    } else if op.FinishPublish? && c.view.subscribed {
      var p := st.inFlight[op.index];
      assert PayloadOf(PublishOutbound(p), ControlType(k)) == [] by { PublishIsNoFrame(p, ControlType(k)); }
      OthersMirror(c, k, s, Commit(c, p), PublishOutbound(p));
    } else if Step(st, op).client.Some? {
      UntouchedMirrors(c, k, s, Step(st, op).client.value);
    }
  }

  lemma PublishIsNoFrame(p: Publish, ty: MessageType)
    requires Encodes(p)
    ensures PayloadOf(PublishOutbound(p), ty) == []
  {
  }

  lemma {:induction false} RunMirrors(st: ServerState, ops: seq<Op>, k: ControlKind, s: seq<seq<byte>>)
    requires Sound(st) && EnabledRun(st, ops) && Run(st, ops).client.Some?
    requires st.client.Some? && Mirrors(st.client.value, k, s)
    requires Fits(ops) && (k == TabListKind ==> NoReplies(ops))
    ensures Mirrors(Run(st, ops).client.value, k, s + Sends(k, ops))
    decreases |ops|
  {
    hide Step, Mirrors;
    if ops == [] {
      assert s + [] == s;
    } else {
      hide Sends;
      if Step(st, ops[0]).client.None? {
        GoneStaysGone(Step(st, ops[0]), ops[1..]);
      }
      StepMirrors(st, ops[0], k, s);
      RunMirrors(Step(st, ops[0]), ops[1..], k, s + Sends(k, [ops[0]]));
      SendsAppend(k, [ops[0]], ops[1..]);
      assert [ops[0]] + ops[1..] == ops;
      Assoc(s, Sends(k, [ops[0]]), Sends(k, ops[1..]));
    }
  }

  lemma {:induction false} GoneStaysGone(st: ServerState, ops: seq<Op>)
    requires Sound(st) && EnabledRun(st, ops) && st.client.None?
    ensures Run(st, ops).client.None?
    decreases |ops|
  {
    if ops == [] {
    } else {
      GoneStaysGone(Step(st, ops[0]), ops[1..]);
    }
  }

  lemma ConnectedMirrors(isLocal: bool, k: ControlKind)
    ensures Mirrors(Connected(isLocal).client.value, k, [])
  {
  }

  /** Control dedup refines always-send: over every run, whatever else is interleaved, the stream
      of a kind is the always-send stream with its immediate repetitions removed, so it never
      repeats itself and ends in the most recent send. Tab lists need a run without replies. */
  lemma DedupRefinesAlwaysSend(isLocal: bool, ops: seq<Op>, k: ControlKind)
    requires EnabledRun(Connected(isLocal), ops) && Run(Connected(isLocal), ops).client.Some?
    requires Fits(ops) && (k == TabListKind ==> NoReplies(ops))
    ensures var stream := Payloads(Run(Connected(isLocal), ops).client.value.outbound, ControlType(k));
            var sends := Sends(k, ops);
            && stream == Dedup(sends)
            && (forall i :: 0 < i < |stream| ==> stream[i - 1] != stream[i])
            && (sends != [] ==> stream != [] && stream[|stream| - 1] == sends[|sends| - 1])
  {
    hide Run, EnabledRun, Sends, Fits, NoReplies, Payloads, Dedup, CacheSlot;
    ConnectedMirrors(isLocal, k);
    RunMirrors(Connected(isLocal), ops, k, []);
    assert [] + Sends(k, ops) == Sends(k, ops);
    DedupKeepsLast(Sends(k, ops));
    DedupNeverRepeats(Sends(k, ops));
  }

  // ---- the bypass ----

  predicate LastIs(c: Session, ty: MessageType, payload: seq<byte>) {
    var p := Payloads(c.outbound, ty);
    p != [] && p[|p| - 1] == payload
  }

  /** With replies in play, a tab list handed to the cache is the last one in the stream exactly
      when it differs from the cached one or already was the last. */
  lemma TabListArrivesExactly(c: Session, payload: seq<byte>)
    requires |payload| < U32_LIMIT
    ensures LastIs(SendCached(c, TabListKind, payload), TAB_LIST, payload)
            <==> c.view.tabListPayload != Some(payload) || LastIs(c, TAB_LIST, payload)
  {
    hide EncodeMessage, Payloads, PayloadOf;
    var m := Message(TAB_LIST, payload);
    PayloadsAppend(c.outbound, Frame(EncodeMessage(m)), TAB_LIST);
    SentPayload(m, TAB_LIST);
  }

  /** The replies after the last send that differed from the send before it. */
  function RepliesSince(ops: seq<Op>): seq<seq<byte>> {
    if ops == [] then []
    else
      var before, op := ops[..|ops| - 1], ops[|ops| - 1];
      if op.ReplyTabs? then RepliesSince(before) + [op.payload]
      else if op.SendControl? && op.kind == TabListKind
              && LastOf(Sends(TabListKind, before)) != Some(op.payload) then []
      else RepliesSince(before)
  }

  function LastOf(s: seq<seq<byte>>): Option<seq<byte>> {
    if s == [] then None else Some(s[|s| - 1])
  }

  predicate TabListsFit(ops: seq<Op>) {
    forall i :: 0 <= i < |ops| ==>
      (ops[i].SendControl? && ops[i].kind == TabListKind ==> |ops[i].payload| < U32_LIMIT)
      && (ops[i].ReplyTabs? ==> |ops[i].payload| < U32_LIMIT)
  }

  /** Cache and end of stream after the operations `done`, read off the operations alone. */
  predicate TabsTracked(c: Session, done: seq<Op>) {
    var sends, replies := Sends(TabListKind, done), RepliesSince(done);
    && c.view.tabListPayload == LastOf(sends)
    && LastOf(Payloads(c.outbound, TAB_LIST)) == if replies != [] then LastOf(replies) else LastOf(sends)
  }

  lemma {:induction false} SendsAppend(k: ControlKind, a: seq<Op>, b: seq<Op>)
    ensures Sends(k, a + b) == Sends(k, a) + Sends(k, b)
  {
    if a == [] {
      assert a + b == b;
    } else {
      assert (a + b)[1..] == a[1..] + b;
      SendsAppend(k, a[1..], b);
    }
  }

  lemma TracksAfter(done: seq<Op>, op: Op)
    ensures Sends(TabListKind, done + [op])
            == Sends(TabListKind, done) + if op.SendControl? && op.kind == TabListKind then [op.payload] else []
    ensures RepliesSince(done + [op])
            == if op.ReplyTabs? then RepliesSince(done) + [op.payload]
               else if op.SendControl? && op.kind == TabListKind && LastOf(Sends(TabListKind, done)) != Some(op.payload)
                 then []
               else RepliesSince(done)
  {
    SendsAppend(TabListKind, done, [op]);
    assert [op][1..] == [];
    assert (done + [op])[..|done|] == done;
  }

  lemma TabSent(c: Session, m: Message)
    requires m.ty == TAB_LIST ==> |m.payload| < U32_LIMIT
    ensures LastOf(Payloads(SendMessage(c, m).outbound, TAB_LIST))
            == if m.ty == TAB_LIST then Some(m.payload) else LastOf(Payloads(c.outbound, TAB_LIST))
  {
    hide EncodeMessage, Payloads, PayloadOf;
    PayloadsAppend(c.outbound, Frame(EncodeMessage(m)), TAB_LIST);
    SentPayload(m, TAB_LIST);
    assert Payloads(c.outbound, TAB_LIST) + [] == Payloads(c.outbound, TAB_LIST);
  }

  lemma StepTracksTabs(st: ServerState, op: Op, done: seq<Op>)
    requires Sound(st) && Enabled(st, op) && st.client.Some? && TabsTracked(st.client.value, done)
    requires op.SendControl? && op.kind == TabListKind ==> |op.payload| < U32_LIMIT
    requires op.ReplyTabs? ==> |op.payload| < U32_LIMIT
    ensures Step(st, op).client.Some? ==> TabsTracked(Step(st, op).client.value, done + [op])
  {
    hide EncodeMessage, PublishOutbound, PayloadOf, Payloads, Encodes, Sends, RepliesSince;
    var c := st.client.value;
    TracksAfter(done, op);
    if op.SendControl? {
      TabSent(c.(view := SetCacheSlot(c.view, op.kind, op.payload)), Message(ControlType(op.kind), op.payload));
    } else if op.SendOther? {
      TabSent(c, op.message);
    } else if op.ReplyTabs? {
      TabSent(c, Message(TAB_LIST, op.payload));
    } else if op.FinishPublish? && c.view.subscribed {
      var p := st.inFlight[op.index];
      assert PayloadOf(PublishOutbound(p), TAB_LIST) == [] by { PublishIsNoFrame(p, TAB_LIST); }
      PayloadsAppend(c.outbound, PublishOutbound(p), TAB_LIST);
      assert Payloads(c.outbound, TAB_LIST) + [] == Payloads(c.outbound, TAB_LIST);
    }
  }

  lemma {:induction false} RunTracksTabs(st: ServerState, ops: seq<Op>, done: seq<Op>)
    requires Sound(st) && EnabledRun(st, ops) && Run(st, ops).client.Some? && TabListsFit(ops)
    requires st.client.Some? && TabsTracked(st.client.value, done)
    ensures TabsTracked(Run(st, ops).client.value, done + ops)
    decreases |ops|
  {
    hide Step, TabsTracked;
    if ops == [] {
      assert done + ops == done;
    } else {
      if Step(st, ops[0]).client.None? {
        GoneStaysGone(Step(st, ops[0]), ops[1..]);
      }
      StepTracksTabs(st, ops[0], done);
      assert TabListsFit(ops[1..]);
      RunTracksTabs(Step(st, ops[0]), ops[1..], done + [ops[0]]);
      assert done + [ops[0]] + ops[1..] == done + ops;
    }
  }

  /** Over every run, whatever else is interleaved: the stream's tab lists end in the most recent
      send exactly when no reply came after the last send that changed anything, or the last such
      reply was the same list. */
  lemma LatestTabListExactly(isLocal: bool, ops: seq<Op>)
    requires EnabledRun(Connected(isLocal), ops) && Run(Connected(isLocal), ops).client.Some?
    requires TabListsFit(ops) && Sends(TabListKind, ops) != []
    ensures var sends, replies := Sends(TabListKind, ops), RepliesSince(ops);
            LastIs(Run(Connected(isLocal), ops).client.value, TAB_LIST, sends[|sends| - 1])
            <==> replies == [] || replies[|replies| - 1] == sends[|sends| - 1]
  {
    hide Run, EnabledRun, Payloads;
    assert TabsTracked(Connected(isLocal).client.value, []) by { FreshTabs(isLocal); }
    RunTracksTabs(Connected(isLocal), ops, []);
    assert [] + ops == ops;
  }

  lemma FreshTabs(isLocal: bool)
    ensures TabsTracked(Connected(isLocal).client.value, [])
  {
  }

  /** The smallest run with an answer of no: a reply between two equal sends leaves the client with
      the reply. */
  lemma ReplyHidesLatestSend(isLocal: bool, a: seq<byte>, b: seq<byte>)
    requires a != b && |a| < U32_LIMIT && |b| < U32_LIMIT
    ensures var c0 := Session(isLocal, IDLE_VIEW, []);
            var c := SendCached(ReplyTabList(SendCached(c0, TabListKind, a), b), TabListKind, a);
            LastIs(c, TAB_LIST, b) && !LastIs(c, TAB_LIST, a)
  {
    hide EncodeMessage, Payloads, PayloadOf;
    var c := SendCached(Session(isLocal, IDLE_VIEW, []), TabListKind, a);
    TabSent(c, Message(TAB_LIST, b));
    TabListArrivesExactly(ReplyTabList(c, b), a);
  }
}
