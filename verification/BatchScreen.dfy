/** Coalescing and the screen: when dropping superseded frames leaves the picture as it was. */
module BatchScreen {
  import opened Bytes
  import opened Grid
  import opened WireEncode
  import opened WireDecode
  import opened Snapshot
  import opened DeltaRefinement
  import opened Changes
  import opened RemoteState
  import opened Batcher
  import opened BatchOrder
  import opened PaneOrder

  // ---- what frames do to a screen ----

  /** What a viewer makes of a frame. */
  datatype Update = Full(grid: RemoteFullState) | Patch(delta: RemoteDelta) | NoUpdate

  type Decoder = seq<byte> -> Update

  /** The decoders only produce whole grids, and the encoder never asks for a scroll. */
  predicate Good(u: Update) {
    (u.Full? ==> u.grid.WellFormed()) && (u.Patch? ==> u.delta.scrollRows == 0)
  }

  /** What the frame does to a viewer's screen, drawn in theme `t`. */
  function ChangeOf(u: Update, t: Theme): Change {
    match u
    case Full(grid) => Draw(Picture(Render(grid, 0, t)))
    case Patch(delta) => Amend(delta)
    case NoUpdate => Keep
  }

  function Show(s: Screen, u: Update, t: Theme): Screen {
    Make(s, ChangeOf(u, t))
  }

  function ShowAll(s: Screen, ms: seq<OutboundMessage>, decode: Decoder, t: Theme): Screen {
    if ms == [] then s else Show(ShowAll(s, ms[..|ms| - 1], decode, t), decode(ms[|ms| - 1].bytes), t)
  }

  lemma ChangeOrderly(u: Update, t: Theme)
    requires Good(u)
    ensures Orderly(ChangeOf(u, t))
  {
    hide RenderChunks;
    if u.Full? {
      RenderRows(u.grid, 0, t);
    }
  }

  lemma ShowProper(s: Screen, u: Update, t: Theme)
    requires Proper(s) && Good(u)
    ensures Proper(Show(s, u, t))
  {
    hide Make, ChangeOf, Proper, Orderly;
    ChangeOrderly(u, t);
    MakeProper(s, ChangeOf(u, t));
  }

  // ---- absorption ----

  /** Whatever was on the screen, `f` makes no difference once `g` has been shown. */
  ghost predicate Absorbs(f: Update, g: Update, t: Theme) {
    forall s: Screen :: Proper(s) ==> Show(Show(s, f, t), g, t) == Show(s, g, t)
  }

  /** Every cell that `f` writes on some screen is written again by `g`. */
  ghost predicate Covered(f: RemoteDelta, g: RemoteDelta) {
    forall r: nat, j: nat :: r < U16_LIMIT - 1 && j < U16_LIMIT - 1 && Written(f.changedRows, r, j).Some? ==>
      Written(g.changedRows, r, j).Some?
  }

  lemma CoveredAbsorbs(s: TerminalSnapshot, f: RemoteDelta, g: RemoteDelta)
    requires Proper(Some(s)) && f.scrollRows == 0 && g.scrollRows == 0 && Covered(f, g)
    ensures Picture(ApplyDelta(Picture(ApplyDelta(s, f)), g)) == Picture(ApplyDelta(s, g))
  {
    hide ApplyDelta, Written;
    var mid := Picture(ApplyDelta(s, f));
    var a, b := ApplyDelta(mid, g), ApplyDelta(s, g);
    PatchCells(s, f);
    PatchCells(mid, g);
    PatchCells(s, g);
    forall r | 0 <= r < |s.rowsData| ensures a.rowsData[r] == b.rowsData[r] {
      forall j | 0 <= j < s.cols ensures a.rowsData[r][j] == b.rowsData[r][j] {
        assert Written(f.changedRows, r, j).Some? ==> Written(g.changedRows, r, j).Some?;
      }
    }
  }

  lemma AbsorbedPatchesAreCovered(f: RemoteDelta, g: RemoteDelta, t: Theme, r: nat, j: nat)
    requires f.scrollRows == 0 && g.scrollRows == 0 && Absorbs(Patch(f), Patch(g), t)
    requires r < U16_LIMIT - 1 && j < U16_LIMIT - 1 && Written(f.changedRows, r, j).Some?
    ensures Written(g.changedRows, r, j).Some?
  {
    hide ApplyDelta, Written;
    var s := Filled(r + 1, j + 1, ODD_CELL, DeltaCursor(f));
    var mid := Picture(ApplyDelta(s, f));
    PatchCells(s, f);
    PatchCells(mid, g);
    PatchCells(s, g);
    WrittenIsRendered(f.changedRows, r, j);
    assert Show(Show(Some(s), Patch(f), t), Patch(g), t) == Show(Some(s), Patch(g), t);
    assert s.rowsData[r][j] == ODD_CELL;
    assert ApplyDelta(mid, g).rowsData[r][j] == ApplyDelta(s, g).rowsData[r][j];
  }

  /** When exactly one frame may take the place of another: the newer is a full state, or the
      older changes nothing, or both are deltas and the newer rewrites every cell of the older. */
  lemma AbsorbsExactly(f: Update, g: Update, t: Theme)
    requires Good(f) && Good(g)
    ensures Absorbs(f, g, t) <==>
            g.Full? || f.NoUpdate? || (f.Patch? && g.Patch? && Covered(f.delta, g.delta))
  {
    hide ApplyDelta, Written, Render;
    if f.Patch? && g.Patch? {
      if Covered(f.delta, g.delta) {
        forall s: Screen | Proper(s) ensures Show(Show(s, f, t), g, t) == Show(s, g, t) {
          if s.Some? { CoveredAbsorbs(s.value, f.delta, g.delta); }
        }
      } else {
        var r: nat, j: nat :| r < U16_LIMIT - 1 && j < U16_LIMIT - 1
                              && Written(f.delta.changedRows, r, j).Some? && Written(g.delta.changedRows, r, j).None?;
        if Absorbs(f, g, t) { AbsorbedPatchesAreCovered(f.delta, g.delta, t, r, j); }
      }
    } else if f.Full? && !g.Full? {
      assert Proper(None) && Show(Show(None, f, t), g, t) != Show(None, g, t);
    } else if f.Patch? && g.NoUpdate? {
      var cursor := DeltaCursor(f.delta);
      var s := Filled(1, 1, ODD_CELL, cursor.(visible := !cursor.visible));
      PatchCells(s, f.delta);
      assert Show(Show(Some(s), f, t), g, t) != Show(Some(s), g, t);
    }
  }

  // ---- any sequence of updates ----

  lemma ShowOne(s: Screen, ms: seq<OutboundMessage>, m: OutboundMessage, decode: Decoder, t: Theme)
    ensures ShowAll(s, ms + [m], decode, t) == Show(ShowAll(s, ms, decode, t), decode(m.bytes), t)
  {
    assert (ms + [m])[..|ms|] == ms;
  }

  lemma {:induction false} ShowAppend(s: Screen, a: seq<OutboundMessage>, b: seq<OutboundMessage>, decode: Decoder,
                                      t: Theme)
    ensures ShowAll(s, a + b, decode, t) == ShowAll(ShowAll(s, a, decode, t), b, decode, t)
  {
    hide Show;
    if b == [] {
      assert a + b == a;
    } else {
      assert (a + b)[..|a + b| - 1] == a + b[..|b| - 1];
      ShowAppend(s, a, b[..|b| - 1], decode, t);
    }
  }

  lemma {:induction false} ShowAllProper(s: Screen, ms: seq<OutboundMessage>, decode: Decoder, t: Theme)
    requires Proper(s) && forall b :: Good(decode(b))
    ensures Proper(ShowAll(s, ms, decode, t))
  {
    hide Proper, Show, Good;
    if ms == [] {
    } else {
      ShowAllProper(s, ms[..|ms| - 1], decode, t);
      ShowProper(ShowAll(s, ms[..|ms| - 1], decode, t), decode(ms[|ms| - 1].bytes), t);
    }
  }

  function ChangesOf(ms: seq<OutboundMessage>, decode: Decoder, t: Theme): (cs: seq<Change>)
    ensures |cs| == |ms|
    ensures forall i :: 0 <= i < |ms| ==> cs[i] == ChangeOf(decode(ms[i].bytes), t)
  {
    if ms == [] then [] else ChangesOf(ms[..|ms| - 1], decode, t) + [ChangeOf(decode(ms[|ms| - 1].bytes), t)]
  }

  lemma {:induction false} ShowAllMakes(s: Screen, ms: seq<OutboundMessage>, decode: Decoder, t: Theme)
    ensures ShowAll(s, ms, decode, t) == MakeAll(s, ChangesOf(ms, decode, t))
  {
    hide Make, ChangeOf;
    if ms == [] {
    } else {
      var before := ChangesOf(ms[..|ms| - 1], decode, t);
      ShowAllMakes(s, ms[..|ms| - 1], decode, t);
      assert ChangesOf(ms, decode, t)[..|ms| - 1] == before;
    }
  }

  lemma ChangesOrderly(ms: seq<OutboundMessage>, decode: Decoder, t: Theme)
    requires forall b :: Good(decode(b))
    ensures AllOrderly(ChangesOf(ms, decode, t))
  {
    hide Good, ChangeOf, Orderly;
    forall i | 0 <= i < |ms| ensures Orderly(ChangesOf(ms, decode, t)[i]) {
      ChangeOrderly(decode(ms[i].bytes), t);
    }
  }

  /** Two sequences of frames come to the same: both contain a full state and draw the same from
      nothing, or neither does and they leave the same cursor and the same cells. */
  ghost predicate SameEffect(a: seq<OutboundMessage>, b: seq<OutboundMessage>, decode: Decoder, t: Theme) {
    SameOutcome(ChangesOf(a, decode, t), ChangesOf(b, decode, t))
  }

  /** Whatever a batch did to a lane or a pane, and wherever its barriers were: what comes out
      draws what went in would have drawn, on every screen, exactly when the two have the same
      effect, which takes no screen to find out. */
  lemma EffectExactly(a: seq<OutboundMessage>, b: seq<OutboundMessage>, decode: Decoder, t: Theme)
    requires forall b :: Good(decode(b))
    ensures (forall s: Screen :: Proper(s) ==> ShowAll(s, a, decode, t) == ShowAll(s, b, decode, t))
            <==> SameEffect(a, b, decode, t)
  {
    hide SameOutcome, MakeAll, ShowAll, Good, Proper, AllOrderly, ChangesOf;
    ChangesOrderly(a, decode, t);
    ChangesOrderly(b, decode, t);
    OutcomeExactly(ChangesOf(a, decode, t), ChangesOf(b, decode, t));
    forall s: Screen
      ensures ShowAll(s, a, decode, t) == MakeAll(s, ChangesOf(a, decode, t))
      ensures ShowAll(s, b, decode, t) == MakeAll(s, ChangesOf(b, decode, t))
    {
      ShowAllMakes(s, a, decode, t);
      ShowAllMakes(s, b, decode, t);
    }
  }

  // ---- updates that one of them stands for ----

  /** The last update makes every earlier one unnecessary: it is a full state, or the earlier ones
      change nothing or are deltas whose cells it all rewrites. */
  ghost predicate Settled(us: seq<OutboundMessage>, decode: Decoder) {
    us == [] ||
      (var last := decode(us[|us| - 1].bytes);
       last.Full? ||
         forall i :: 0 <= i < |us| - 1 ==>
           var u := decode(us[i].bytes);
           u.NoUpdate? || (u.Patch? && last.Patch? && Covered(u.delta, last.delta)))
  }

  lemma {:induction false} AbsorbedAll(s: Screen, us: seq<OutboundMessage>, g: Update, decode: Decoder, t: Theme)
    requires Proper(s) && forall b :: Good(decode(b))
    requires forall i :: 0 <= i < |us| ==> Absorbs(decode(us[i].bytes), g, t)
    ensures Show(ShowAll(s, us, decode, t), g, t) == Show(s, g, t)
  {
    hide Show, Proper, Good;
    if us == [] {
    } else {
      AbsorbedAll(s, us[..|us| - 1], g, decode, t);
      ShowAllProper(s, us[..|us| - 1], decode, t);
      assert Absorbs(decode(us[|us| - 1].bytes), g, t);
    }
  }

  lemma SettledAbsorbs(us: seq<OutboundMessage>, i: nat, decode: Decoder, t: Theme)
    requires i < |us| - 1 && Settled(us, decode) && forall b :: Good(decode(b))
    ensures Absorbs(decode(us[i].bytes), decode(us[|us| - 1].bytes), t)
  {
    hide Good, Covered, Absorbs;
    AbsorbsExactly(decode(us[i].bytes), decode(us[|us| - 1].bytes), t);
  }

  lemma NothingShown(s: Screen, decode: Decoder, t: Theme)
    ensures ShowAll(s, [], decode, t) == s
  {
  }

  lemma SettledSuffices(s: Screen, us: seq<OutboundMessage>, decode: Decoder, t: Theme)
    requires Proper(s) && forall b :: Good(decode(b))
    requires us != [] && Settled(us, decode)
    ensures ShowAll(s, [us[|us| - 1]], decode, t) == ShowAll(s, us, decode, t)
  {
    hide Show, Proper, Good, Settled, Absorbs, ShowAll;
    var before, m := us[..|us| - 1], us[|us| - 1];
    forall i | 0 <= i < |before| ensures Absorbs(decode(before[i].bytes), decode(m.bytes), t) {
      SettledAbsorbs(us, i, decode, t);
    }
    NothingShown(s, decode, t);
    AbsorbedAll(s, before, decode(m.bytes), decode, t);
    ShowOne(s, before, m, decode, t);
    ShowOne(s, [], m, decode, t);
    assert us == before + [m] && [m] == [] + [m];
  }

  lemma SettledNecessary(us: seq<OutboundMessage>, decode: Decoder, t: Theme)
    requires us != [] && SameEffect([us[|us| - 1]], us, decode, t)
    ensures Settled(us, decode)
  {
    hide LastWritten, LastCursor, Written, MakeAll, ChangesOf;
    var m := us[|us| - 1];
    var last, cs := decode(m.bytes), ChangesOf(us, decode, t);
    assert ChangesOf([m], decode, t) == [ChangeOf(last, t)];
    OneChange(ChangeOf(last, t));
    if !last.Full? {
      forall i | 0 <= i < |us| - 1
        ensures var u := decode(us[i].bytes); u.NoUpdate? || (u.Patch? && last.Patch? && Covered(u.delta, last.delta))
      {
        var u := decode(us[i].bytes);
        assert cs[i] == ChangeOf(u, t);
        if u.Patch? {
          AmendLeavesCursor(cs, i);
          forall r: nat, j: nat
            | r < U16_LIMIT - 1 && j < U16_LIMIT - 1 && Written(u.delta.changedRows, r, j).Some?
            ensures Written(last.delta.changedRows, r, j).Some?
          {
            WriteIsLeft(cs, i, r, j);
            assert LastWritten([ChangeOf(last, t)], r, j) == LastWritten(cs, r, j);
          }
        }
      }
    }
  }

  /** Showing only the last of some updates is right for every screen exactly when it makes the
      earlier ones unnecessary. */
  lemma SettledExactly(us: seq<OutboundMessage>, decode: Decoder, t: Theme)
    requires us != [] && forall b :: Good(decode(b))
    ensures (forall s: Screen :: Proper(s) ==>
               ShowAll(s, [us[|us| - 1]], decode, t) == ShowAll(s, us, decode, t))
            <==> Settled(us, decode)
  {
    hide Settled, SameEffect, ShowAll, Good, Proper;
    EffectExactly([us[|us| - 1]], us, decode, t);
    if Settled(us, decode) {
      forall s: Screen | Proper(s) ensures ShowAll(s, [us[|us| - 1]], decode, t) == ShowAll(s, us, decode, t) {
        SettledSuffices(s, us, decode, t);
      }
    } else if SameEffect([us[|us| - 1]], us, decode, t) {
      SettledNecessary(us, decode, t);
    }
  }

  // ---- one lane of a stretch ----

  /** Nothing in the stretch lets the lane's pending message out. */
  predicate Undisturbed(ms: seq<OutboundMessage>, lane: Lane) {
    lane != DirectLane
    && forall i :: 0 <= i < |ms| ==> !Barrier(ms[i]) && (lane.ControlLane? ==> !Priority(ms[i]))
  }

  lemma LaneWaits(p: Pending, m: OutboundMessage, lane: Lane)
    requires Tidy(p) && Undisturbed([m], lane) && InLane(p.out, lane) == []
    ensures InLane(Push(p, m, true).out, lane) == []
  {
    hide InLane, Put, CoalescibleKind, PriorityFrame, Everything;
    assert !Barrier([m][0]) && (lane.ControlLane? ==> !Priority([m][0]));
    if Priority(m) {
      LaneContents(p, lane);
      InLaneAppend(p.out + p.control, [m], lane);
      InLaneOne(m, lane);
    }
  }

  lemma {:induction false} LaneStays(ms: seq<OutboundMessage>, lane: Lane)
    requires Undisturbed(ms, lane)
    ensures InLane(PushAll(NOTHING, ms, true).out, lane) == []
  {
    hide Push, Tidy, InLane, Barrier, Priority;
    if ms == [] {
      NoneInLane([], lane);
    } else {
      var before, m := ms[..|ms| - 1], ms[|ms| - 1];
      assert Undisturbed(before, lane) && Undisturbed([m], lane);
      LaneStays(before, lane);
      PushAllTidy(before, true);
      LaneWaits(PushAll(NOTHING, before, true), m, lane);
    }
  }

  /** Of a lane that nothing disturbs, the last message is all that is left. */
  lemma LastOfUndisturbed(ms: seq<OutboundMessage>, lane: Lane)
    requires Undisturbed(ms, lane)
    ensures InLane(Emitted(ms, true), lane) == LastOne(InLane(ms, lane))
  {
    hide Tidy, InLane, Everything, PushAll, Held, Undisturbed, Subsequence, Thinned, LastOne;
    var p := PushAll(NOTHING, ms, true);
    PushAllTidy(ms, true);
    LaneStays(ms, lane);
    LaneContents(p, lane);
    HeldAtMostOne(p, lane);
    LanesAreThinned(ms, true, lane);
    assert [] + Held(p, lane) == Held(p, lane);
    ThinnedToOne(Held(p, lane), InLane(ms, lane));
  }

  /** For a whole lane of a coalesced stretch, with any number of updates u1 to uk: what is emitted
      draws what all of them would have drawn, on every screen, exactly when uk is a full state, or
      each earlier one changes nothing or is a delta whose cells uk, a delta, all rewrites. */
  lemma LaneExactly(ms: seq<OutboundMessage>, lane: Lane, decode: Decoder, t: Theme)
    requires Undisturbed(ms, lane) && forall b :: Good(decode(b))
    ensures (forall s: Screen :: Proper(s) ==>
               ShowAll(s, InLane(Emitted(ms, true), lane), decode, t) == ShowAll(s, InLane(ms, lane), decode, t))
            <==> Settled(InLane(ms, lane), decode)
  {
    hide InLane, Everything, PushAll, Undisturbed, Settled, ShowAll, Good, Proper;
    LastOfUndisturbed(ms, lane);
    if InLane(ms, lane) != [] {
      SettledExactly(InLane(ms, lane), decode, t);
    } else {
      assert Settled([], decode) by { EmptySettled(decode); }
    }
  }

  lemma EmptySettled(decode: Decoder)
    ensures Settled([], decode)
  {
  }

  // ---- whole batches ----

  /** One more message, in a group of its own or in the last one. */
  function Grown(groups: seq<seq<OutboundMessage>>, m: OutboundMessage, alone: bool): seq<seq<OutboundMessage>> {
    if groups == [] || alone then groups + [[m]]
    else groups[..|groups| - 1] + [groups[|groups| - 1] + [m]]
  }

  /** The updates of a lane, grouped by the frame that stands for them in the output. */
  function Groups(ms: seq<OutboundMessage>, coalesce: bool, lane: Lane): seq<seq<OutboundMessage>> {
    if ms == [] then []
    else
      var before, m := ms[..|ms| - 1], ms[|ms| - 1];
      var groups := Groups(before, coalesce, lane);
      if LaneOf(m) != lane then groups
      else Grown(groups, m, |InLane(Emitted(ms, coalesce), lane)| > |InLane(Emitted(before, coalesce), lane)|)
  }

  function Joined(groups: seq<seq<OutboundMessage>>): seq<OutboundMessage> {
    if groups == [] then [] else Joined(groups[..|groups| - 1]) + groups[|groups| - 1]
  }

  predicate NonEmpty(groups: seq<seq<OutboundMessage>>) {
    forall i :: 0 <= i < |groups| ==> groups[i] != []
  }

  function Lasts(groups: seq<seq<OutboundMessage>>): seq<OutboundMessage>
    requires NonEmpty(groups)
  {
    seq(|groups|, i requires 0 <= i < |groups| => groups[i][|groups[i]| - 1])
  }

  lemma JoinedOne(groups: seq<seq<OutboundMessage>>, g: seq<OutboundMessage>)
    ensures Joined(groups + [g]) == Joined(groups) + g
  {
    assert (groups + [g])[..|groups|] == groups;
  }

  /** What the lane's output becomes with one more message of the lane. */
  lemma LaneGrows(before: seq<OutboundMessage>, m: OutboundMessage, coalesce: bool, lane: Lane)
    ensures var o, o' := InLane(Emitted(before, coalesce), lane), InLane(Emitted(before + [m], coalesce), lane);
            var held := Held(PushAll(NOTHING, before, coalesce), lane);
            if LaneOf(m) == lane then o' == o + [m] || (held != [] && o != [] && o' == DropLast(o) + [m]) else o' == o
  {
    hide Push, Tidy, InLane, Everything, LaneOf;
    var p := PushAll(NOTHING, before, coalesce);
    PushAllTidy(before, coalesce);
    PushLane(p, m, coalesce, lane);
    LaneContents(p, lane);
    assert (before + [m])[..|before|] == before;
  }

  lemma {:induction false} GroupsOfLane(ms: seq<OutboundMessage>, coalesce: bool, lane: Lane)
    ensures var groups := Groups(ms, coalesce, lane);
            && NonEmpty(groups) && Joined(groups) == InLane(ms, lane)
            && Lasts(groups) == InLane(Emitted(ms, coalesce), lane)
  {
    if ms == [] {
      hide Push, Screens;
      NoneInLane([], lane);
      NothingPushed(coalesce);
    } else {
      hide InLane, Everything, PushAll, LaneOf, Joined, Lasts, NonEmpty, Grown;
      var before, m := ms[..|ms| - 1], ms[|ms| - 1];
      var groups := Groups(before, coalesce, lane);
      assert ms == before + [m];
      GroupsOfLane(before, coalesce, lane);
      LaneGrows(before, m, coalesce, lane);
      InLaneAppend(before, [m], lane);
      InLaneOne(m, lane);
      assert InLane(before, lane) + [] == InLane(before, lane);
      if LaneOf(m) == lane {
        var o, o' := InLane(Emitted(before, coalesce), lane), InLane(Emitted(ms, coalesce), lane);
        GroupAdded(groups, m, |o'| > |o|);
      }
    }
  }

  lemma NothingPushed(coalesce: bool)
    ensures Everything(PushAll(NOTHING, [], coalesce)) == []
  {
  }

  lemma GroupAdded(groups: seq<seq<OutboundMessage>>, m: OutboundMessage, alone: bool)
    requires NonEmpty(groups)
    ensures var grown, lasts := Grown(groups, m, alone), Lasts(groups);
            && NonEmpty(grown) && Joined(grown) == Joined(groups) + [m]
            && Lasts(grown) == if lasts == [] || alone then lasts + [m] else DropLast(lasts) + [m]
  {
    hide Joined;
    if groups == [] || alone {
      JoinedOne(groups, [m]);
    } else {
      var before, last := groups[..|groups| - 1], groups[|groups| - 1];
      JoinedOne(before, last + [m]);
      JoinedOne(before, last);
      assert groups == before + [last];
      Assoc(Joined(before), last, [m]);
    }
  }

  ghost predicate AllSettled(groups: seq<seq<OutboundMessage>>, decode: Decoder) {
    forall i :: 0 <= i < |groups| ==> Settled(groups[i], decode)
  }

  lemma {:induction false} SettledGroups(s: Screen, groups: seq<seq<OutboundMessage>>, decode: Decoder, t: Theme)
    requires Proper(s) && forall b :: Good(decode(b))
    requires NonEmpty(groups) && AllSettled(groups, decode)
    ensures ShowAll(s, Lasts(groups), decode, t) == ShowAll(s, Joined(groups), decode, t)
  {
    hide Settled, Proper, Good;
    if groups == [] {
    } else {
      var before, g := groups[..|groups| - 1], groups[|groups| - 1];
      assert Lasts(groups) == Lasts(before) + [g[|g| - 1]];
      hide ShowAll, Lasts;
      SettledGroups(s, before, decode, t);
      ShowAppend(s, Lasts(before), [g[|g| - 1]], decode, t);
      ShowAppend(s, Joined(before), g, decode, t);
      ShowAllProper(s, Joined(before), decode, t);
      SettledSuffices(ShowAll(s, Joined(before), decode, t), g, decode, t);
    }
  }

  /** Coalescing preserves the screen: for either setting, in every lane, wherever the barriers
      are, showing what the batch emits ends in the picture that showing every message would have
      ended in, when each emitted frame makes those it stands for unnecessary. */
  lemma BatchPreservesScreen(s: Screen, ms: seq<OutboundMessage>, coalesce: bool, lane: Lane, decode: Decoder, t: Theme)
    requires Proper(s) && forall b :: Good(decode(b))
    requires AllSettled(Groups(ms, coalesce, lane), decode)
    ensures ShowAll(s, InLane(Emitted(ms, coalesce), lane), decode, t) == ShowAll(s, InLane(ms, lane), decode, t)
  {
    hide Groups, InLane, Everything, PushAll, AllSettled, Proper, Good, ShowAll;
    GroupsOfLane(ms, coalesce, lane);
    SettledGroups(s, Groups(ms, coalesce, lane), decode, t);
  }

  /** Every message that takes a pending one's place is a full state. */
  ghost predicate OnlyFullsReplace(ms: seq<OutboundMessage>, coalesce: bool, decode: Decoder) {
    forall n :: 0 <= n < |ms| ==>
      Held(PushAll(NOTHING, ms[..n], coalesce), LaneOf(ms[n])) == [] || decode(ms[n].bytes).Full?
  }

  lemma GrownSettles(groups: seq<seq<OutboundMessage>>, m: OutboundMessage, alone: bool, decode: Decoder)
    requires AllSettled(groups, decode) && (groups == [] || alone || decode(m.bytes).Full?)
    ensures AllSettled(Grown(groups, m, alone), decode)
  {
    hide Covered;
  }

  lemma {:induction false} FullsSettle(ms: seq<OutboundMessage>, coalesce: bool, lane: Lane, decode: Decoder)
    requires OnlyFullsReplace(ms, coalesce, decode)
    ensures AllSettled(Groups(ms, coalesce, lane), decode)
  {
    hide InLane, Everything, PushAll, LaneOf, Held;
    if ms == [] {
    } else {
      hide AllSettled, Grown;
      var before, m := ms[..|ms| - 1], ms[|ms| - 1];
      assert ms == before + [m];
      forall n | 0 <= n < |before|
        ensures Held(PushAll(NOTHING, before[..n], coalesce), LaneOf(before[n])) == [] || decode(before[n].bytes).Full?
      {
        assert before[..n] == ms[..n] && before[n] == ms[n];
      }
      FullsSettle(before, coalesce, lane, decode);
      if LaneOf(m) == lane {
        LaneGrows(before, m, coalesce, lane);
        assert Held(PushAll(NOTHING, ms[..|ms| - 1], coalesce), LaneOf(ms[|ms| - 1])) == [] || decode(m.bytes).Full?;
        GrownSettles(Groups(before, coalesce, lane), m,
                     |InLane(Emitted(ms, coalesce), lane)| > |InLane(Emitted(before, coalesce), lane)|, decode);
      }
    }
  }

  lemma FullStatesPreserveScreen(s: Screen, ms: seq<OutboundMessage>, coalesce: bool, lane: Lane,
                                 decode: Decoder, t: Theme)
    requires Proper(s) && forall b :: Good(decode(b))
    requires OnlyFullsReplace(ms, coalesce, decode)
    ensures ShowAll(s, InLane(Emitted(ms, coalesce), lane), decode, t) == ShowAll(s, InLane(ms, lane), decode, t)
  {
    hide Groups, AllSettled, OnlyFullsReplace, Good, Proper, ShowAll;
    FullsSettle(ms, coalesce, lane, decode);
    BatchPreservesScreen(s, ms, coalesce, lane, decode, t);
  }

  // ---- a whole pane ----

  /** A pane whose focus does not change within the batch ends in the picture that sending every
      one of its updates would have ended in, when its lane does. */
  lemma SteadyPanePreserved(s: Screen, ms: seq<OutboundMessage>, coalesce: bool, paneId: u64, focused: bool,
                            decode: Decoder, t: Theme)
    requires Proper(s) && forall b :: Good(decode(b))
    requires AllSettled(Groups(ms, coalesce, PaneLane(paneId, focused)), decode)
    requires InLane(ms, PaneLane(paneId, !focused)) == []
    ensures ShowAll(s, OfPane(Emitted(ms, coalesce), paneId), decode, t) == ShowAll(s, OfPane(ms, paneId), decode, t)
  {
    hide Groups, AllSettled, Good, Proper, ShowAll, InLane, PushAll, Everything, OfPane;
    LanesAreThinned(ms, coalesce, PaneLane(paneId, !focused));
    OneLanePane(ms, paneId, focused);
    assert InLane(Emitted(ms, coalesce), PaneLane(paneId, !focused)) == [] by {
      NothingIn(InLane(Emitted(ms, coalesce), PaneLane(paneId, !focused)));
    }
    OneLanePane(Emitted(ms, coalesce), paneId, focused);
    BatchPreservesScreen(s, ms, coalesce, PaneLane(paneId, focused), decode, t);
  }

  /** A pane that changes focus within a stretch, but keeps its order, ends in the right picture
      when its last update makes all earlier ones unnecessary. */
  lemma FlippingPanePreserved(s: Screen, ms: seq<OutboundMessage>, paneId: u64, decode: Decoder, t: Theme)
    requires Proper(s) && forall b :: Good(decode(b))
    requires BarrierFree(ms) && KeepsOrder(OfPane(ms, paneId)) && Settled(OfPane(ms, paneId), decode)
    ensures ShowAll(s, OfPane(Emitted(ms, true), paneId), decode, t) == ShowAll(s, OfPane(ms, paneId), decode, t)
  {
    hide OfPane, Everything, PushAll, KeepsOrder, ShowAll, Proper, Good, Subsequence, Settled;
    var us, o := OfPane(ms, paneId), OfPane(Emitted(ms, true), paneId);
    PaneOrderExactly(ms, paneId);
    if us == [] {
      NothingIn(o);
    } else {
      forall x | x in o ensures x in us { SubsequenceMembers(o, us, x); }
      SettledPart(us, o, decode);
      SettledSuffices(s, us, decode, t);
      SettledSuffices(s, o, decode, t);
    }
  }

  lemma SettledPart(us: seq<OutboundMessage>, o: seq<OutboundMessage>, decode: Decoder)
    requires us != [] && Settled(us, decode)
    requires o != [] && o[|o| - 1] == us[|us| - 1] && forall x :: x in o ==> x in us
    ensures Settled(o, decode)
  {
    hide Covered;
    var last := decode(us[|us| - 1].bytes);
    if !last.Full? {
      forall i | 0 <= i < |o| - 1
        ensures var u := decode(o[i].bytes); u.NoUpdate? || (u.Patch? && last.Patch? && Covered(u.delta, last.delta))
      {
        assert o[i] in us;
        var k :| 0 <= k < |us| && us[k] == o[i];
        if k == |us| - 1 {
          SelfCovered(last);
        }
      }
    }
  }

  lemma SelfCovered(u: Update)
    ensures u.Patch? ==> Covered(u.delta, u.delta)
  {
  }

  // ---- two updates of one lane ----

  lemma PairCoalesces(f: OutboundMessage, g: OutboundMessage)
    requires LaneOf(f) == LaneOf(g) != DirectLane
    ensures Emitted([f, g], true) == [g]
  {
    hide PriorityFrame, CoalescibleKind;
    assert [f, g][..1] == [f] && [f][..0] == [];
    assert PushAll(NOTHING, [f], true) == Push(NOTHING, f, true);
    assert PushAll(NOTHING, [f, g], true) == Push(Push(NOTHING, f, true), g, true);
    assert Put([], f) == [f] && Put([f], g) == [g];
  }

  /** `decode` on the bytes of two messages, and nothing else. */
  function Only(decode: Decoder, f: OutboundMessage, g: OutboundMessage): Decoder {
    b => if b == f.bytes || b == g.bytes then decode(b) else NoUpdate
  }

  /** Two queued updates of one lane: sending only the newer is right for every screen exactly
      when it is a full state, or the older changes nothing, or it rewrites all of the older. */
  lemma PairExactly(f: OutboundMessage, g: OutboundMessage, decode: Decoder, t: Theme)
    requires LaneOf(f) == LaneOf(g) != DirectLane
    requires Good(decode(f.bytes)) && Good(decode(g.bytes))
    ensures var older, newer := decode(f.bytes), decode(g.bytes);
            (forall s: Screen :: Proper(s) ==>
               ShowAll(s, Emitted([f, g], true), decode, t) == ShowAll(s, [f, g], decode, t))
            <==> newer.Full? || older.NoUpdate?
                 || (older.Patch? && newer.Patch? && Covered(older.delta, newer.delta))
  {
    hide ShowAll, Proper, Covered, LaneOf, Only, Everything, PushAll, Settled, Good;
    var only := Only(decode, f, g);
    PairCoalesces(f, g);
    OnlyGood(decode, f, g);
    SettledExactly([f, g], only, t);
    SettledPair(decode, f, g);
    assert [f, g][|[f, g]| - 1] == g;
    forall s: Screen
      ensures ShowAll(s, [g], only, t) == ShowAll(s, [g], decode, t)
      ensures ShowAll(s, [f, g], only, t) == ShowAll(s, [f, g], decode, t)
    {
      OnlyShows(s, decode, f, g, t);
    }
  }

  lemma OnlyGood(decode: Decoder, f: OutboundMessage, g: OutboundMessage)
    requires Good(decode(f.bytes)) && Good(decode(g.bytes))
    ensures forall b :: Good(Only(decode, f, g)(b))
  {
  }

  lemma SettledPair(decode: Decoder, f: OutboundMessage, g: OutboundMessage)
    ensures var older, newer := decode(f.bytes), decode(g.bytes);
            Settled([f, g], Only(decode, f, g))
            <==> newer.Full? || older.NoUpdate?
                 || (older.Patch? && newer.Patch? && Covered(older.delta, newer.delta))
  {
    hide Covered;
    assert [f, g][0] == f && [f, g][1] == g;
  }

  lemma OnlyShows(s: Screen, decode: Decoder, f: OutboundMessage, g: OutboundMessage, t: Theme)
    ensures ShowAll(s, [g], Only(decode, f, g), t) == ShowAll(s, [g], decode, t)
    ensures ShowAll(s, [f, g], Only(decode, f, g), t) == ShowAll(s, [f, g], decode, t)
  {
    hide Show;
    assert [g][..0] == [] && [f, g][..1] == [f] && [f][..0] == [];
    assert ShowAll(s, [f], Only(decode, f, g), t) == ShowAll(s, [f], decode, t);
  }

  // ---- the server's own deltas ----

  /** Of two deltas the server queues one after the other, p to c and c to n, the second alone
      turns a screen of p into a screen of n exactly when every cell outside the second one's
      segments already looked the same in p. */
  lemma DroppedDeltaExactly(p: RemoteFullState, c: RemoteFullState, n: RemoteFullState)
    requires SameSize(p, c) && SameSize(c, n)
    ensures ApplyDelta(Render(p, 0, DEFAULT_THEME), DeltaBetween(c, n)).rowsData == Render(n, 0, DEFAULT_THEME).rowsData
            <==> forall r: nat, j: nat :: r < n.rows && j < n.cols && !InSegment(c, n, r, j) ==>
                   RenderCell(p.Row(r)[j], DEFAULT_THEME) == RenderCell(c.Row(r)[j], DEFAULT_THEME)
  {
    var s := Render(p, 0, DEFAULT_THEME);
    var out, drawn := ApplyDelta(s, DeltaBetween(c, n)).rowsData, Render(n, 0, DEFAULT_THEME).rowsData;
    RenderRows(p, 0, DEFAULT_THEME);
    RenderRows(n, 0, DEFAULT_THEME);
    ApplyDeltaRows(s, c, n);
    hide ApplyDelta, Render, RenderCell, InSegment;
    forall r: nat | r < |drawn|
      ensures out[r] == drawn[r] <==>
              forall j: nat :: j < n.cols && !InSegment(c, n, r, j) ==>
                RenderCell(p.Row(r)[j], DEFAULT_THEME) == RenderCell(c.Row(r)[j], DEFAULT_THEME)
    {
      DroppedDeltaRow(p, c, n, r);
    }
    if n.cols > 0 && out == drawn {
      assert forall r: nat :: r < n.rows ==> out[r] == drawn[r];
    }
  }

  lemma DroppedDeltaRow(p: RemoteFullState, c: RemoteFullState, n: RemoteFullState, r: nat)
    requires SameSize(p, c) && SameSize(c, n) && r < n.rows
    ensures Patched(RenderRow(p.Row(r), DEFAULT_THEME), c, n, r) == RenderRow(n.Row(r), DEFAULT_THEME)
            <==> forall j: nat :: j < n.cols && !InSegment(c, n, r, j) ==>
                   RenderCell(p.Row(r)[j], DEFAULT_THEME) == RenderCell(c.Row(r)[j], DEFAULT_THEME)
  {
    var was := RenderRow(p.Row(r), DEFAULT_THEME);
    var out, drawn := Patched(was, c, n, r), RenderRow(n.Row(r), DEFAULT_THEME);
    forall j: nat | j < n.cols
      ensures out[j] == drawn[j] <==>
              (!InSegment(c, n, r, j) ==>
                 RenderCell(p.Row(r)[j], DEFAULT_THEME) == RenderCell(c.Row(r)[j], DEFAULT_THEME))
    {
      PatchedCell(was, c, n, r, j);
      if !InSegment(c, n, r, j) {
        assert c.Row(r)[j] == n.Row(r)[j];
      }
    }
    if out == drawn {
      assert forall j :: 0 <= j < n.cols ==> out[j] == drawn[j];
    }
  }

  function OneRow(a: u32, b: u32): RemoteFullState {
    var plain := RemoteCell(0x61, Rgb(0, 0, 0), Rgb(0, 0, 0), 0, false);
    RemoteFullState(0, 0, 0, 1, 2, 0, 0, true, false, 0, [plain.(codepoint := a), plain.(codepoint := b)])
  }

  /** The condition is needed: the server sends "aa", then deltas to "ba" and to "bb"; when the
      second delta takes the first one's place, the viewer is left with "ab". */
  lemma DeltaOverDeltaLosesCells()
    ensures var p, c, n := OneRow(0x61, 0x61), OneRow(0x62, 0x61), OneRow(0x62, 0x62);
            && SameSize(p, c) && SameSize(c, n)
            && Delta(p, c, None, false).Some? && Delta(c, n, None, false).Some?
            && ApplyDelta(Render(p, 0, DEFAULT_THEME), DeltaBetween(c, n)).rowsData
               != Render(n, 0, DEFAULT_THEME).rowsData
  {
    var p, c, n := OneRow(0x61, 0x61), OneRow(0x62, 0x61), OneRow(0x62, 0x62);
    RowOfOne(0x61, 0x61);
    RowOfOne(0x62, 0x61);
    RowOfOne(0x62, 0x62);
    FallsBackExactly(p, c, None, false);
    FallsBackExactly(c, n, None, false);
    assert !EndsDiffer(p.Row(0), c.Row(0)) && !EndsDiffer(c.Row(0), n.Row(0));
    DroppedDeltaExactly(p, c, n);
    FirstCellOutside(c, n);
    assert RenderCell(p.Row(0)[0], DEFAULT_THEME) != RenderCell(c.Row(0)[0], DEFAULT_THEME);
    hide Delta, ApplyDelta, Render, DeltaBetween, InSegment, RenderCell, OneRow;
  }

  lemma RowOfOne(a: u32, b: u32)
    ensures OneRow(a, b).WellFormed() && OneRow(a, b).Row(0) == OneRow(a, b).cells
  {
  }

  lemma FirstCellOutside(c: RemoteFullState, n: RemoteFullState)
    requires SameSize(c, n) && n.rows == 1 && n.cols == 2
    requires c.Row(0)[0] == n.Row(0)[0] && c.Row(0)[1] != n.Row(0)[1]
    ensures !InSegment(c, n, 0, 0)
  {
  }
}
