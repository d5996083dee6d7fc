/** When a pane's updates keep their order in a batch, whichever of its two lanes they took. */
module PaneOrder {
  import opened Bytes
  import opened RemoteState
  import opened Batcher
  import opened BatchOrder

  // ---- the updates of one pane ----

  predicate IsPane(m: OutboundMessage, paneId: u64) {
    m.PaneUpdate? && m.paneId == paneId
  }

  /** All updates of one pane, focused or not. */
  function OfPane(ms: seq<OutboundMessage>, paneId: u64): (r: seq<OutboundMessage>)
    ensures forall i :: 0 <= i < |r| ==> IsPane(r[i], paneId)
  {
    if ms == [] then []
    else OfPane(ms[..|ms| - 1], paneId) + if IsPane(ms[|ms| - 1], paneId) then [ms[|ms| - 1]] else []
  }

  lemma {:induction false} OfPaneAppend(a: seq<OutboundMessage>, b: seq<OutboundMessage>, paneId: u64)
    ensures OfPane(a + b, paneId) == OfPane(a, paneId) + OfPane(b, paneId)
  {
    hide IsPane;
    if b == [] {
      assert a + b == a;
    } else {
      assert (a + b)[..|a + b| - 1] == a + b[..|b| - 1];
      OfPaneAppend(a, b[..|b| - 1], paneId);
    }
  }

  lemma OfPaneOne(m: OutboundMessage, paneId: u64)
    ensures OfPane([m], paneId) == if IsPane(m, paneId) then [m] else []
  {
    assert [m][..0] == [];
  }

  /** Those of a pane's updates that took one of its lanes. */
  function WithFlag(us: seq<OutboundMessage>, focused: bool): seq<OutboundMessage> {
    if us == [] then []
    else
      var u := us[|us| - 1];
      WithFlag(us[..|us| - 1], focused) + if u.PaneUpdate? && u.focused == focused then [u] else []
  }

  lemma {:induction false} WithFlagAppend(us: seq<OutboundMessage>, u: OutboundMessage, focused: bool)
    ensures WithFlag(us + [u], focused)
            == WithFlag(us, focused) + if u.PaneUpdate? && u.focused == focused then [u] else []
  {
    assert (us + [u])[..|us|] == us;
  }

  lemma {:induction false} LaneOfPane(ms: seq<OutboundMessage>, paneId: u64, focused: bool)
    ensures InLane(ms, PaneLane(paneId, focused)) == WithFlag(OfPane(ms, paneId), focused)
  {
    if ms == [] {
    } else {
      var before, m := ms[..|ms| - 1], ms[|ms| - 1];
      LaneOfPane(before, paneId, focused);
      assert OfPane(before, paneId) + [] == OfPane(before, paneId);
      if IsPane(m, paneId) {
        WithFlagAppend(OfPane(before, paneId), m, focused);
      }
    }
  }

  lemma {:induction false} OneLanePane(ms: seq<OutboundMessage>, paneId: u64, focused: bool)
    requires InLane(ms, PaneLane(paneId, !focused)) == []
    ensures OfPane(ms, paneId) == InLane(ms, PaneLane(paneId, focused))
  {
    if ms == [] {
    } else {
      OneLanePane(ms[..|ms| - 1], paneId, focused);
    }
  }

  // ---- subsequences ----

  lemma {:induction false} OneOf<T>(x: T, s: seq<T>)
    requires x in s
    ensures Subsequence([x], s)
  {
    if s[|s| - 1] == x {
      assert DropLast([x]) == [];
    } else {
      assert s == DropLast(s) + [s[|s| - 1]];
      OneOf(x, DropLast(s));
    }
  }

  lemma {:induction false} SubsequenceMembers<T>(o: seq<T>, i: seq<T>, x: T)
    requires Subsequence(o, i) && x in o
    ensures x in i
  {
    assert o == DropLast(o) + [o[|o| - 1]];
    if o[|o| - 1] == i[|i| - 1] {
      if x != i[|i| - 1] {
        SubsequenceMembers(DropLast(o), DropLast(i), x);
      }
    } else {
      SubsequenceMembers(o, DropLast(i), x);
    }
  }

  lemma Unmatched<T>(o: seq<T>, i: seq<T>)
    requires i != [] && Subsequence(o, DropLast(i))
    ensures Subsequence(o, i)
  {
    SubsequencePrefix(o, DropLast(i));
  }

  lemma Matched<T>(o: seq<T>, i: seq<T>)
    requires o != [] && i != [] && o[|o| - 1] == i[|i| - 1]
    ensures Subsequence(o, i) <==> Subsequence(DropLast(o), DropLast(i))
  {
  }

  lemma Passed<T>(o: seq<T>, i: seq<T>)
    requires Subsequence(o, i) && i != [] && (o != [] ==> o[|o| - 1] != i[|i| - 1])
    ensures Subsequence(o, DropLast(i))
  {
  }

  lemma DropLastConcat<T>(a: seq<T>, b: seq<T>)
    requires b != []
    ensures DropLast(a + b) == a + DropLast(b) && (a + b)[|a + b| - 1] == b[|b| - 1]
  {
  }

  lemma {:induction false} SubsequenceConcat<T>(o: seq<T>, i: seq<T>, o': seq<T>, i': seq<T>)
    requires Subsequence(o, i) && Subsequence(o', i')
    ensures Subsequence(o + o', i + i')
    decreases |i'|
  {
    hide DropLast;
    if i' == [] {
      NothingIn(o');
      assert o + o' == o && i + i' == i;
    } else {
      hide Subsequence;
      DropLastConcat(i, i');
      if o' != [] && o'[|o'| - 1] == i'[|i'| - 1] {
        DropLastConcat(o, o');
        Matched(o', i');
        Shorter(i');
        SubsequenceConcat(o, i, DropLast(o'), DropLast(i'));
        Matched(o + o', i + i');
      } else {
        Passed(o', i');
        Shorter(i');
        SubsequenceConcat(o, i, o', DropLast(i'));
        Unmatched(o + o', i + i');
      }
    }
  }

  lemma Shorter<T>(s: seq<T>)
    requires s != []
    ensures |DropLast(s)| == |s| - 1 && s == DropLast(s) + [s[|s| - 1]]
  {
  }

  lemma ThinnedConcat<T>(o: seq<T>, i: seq<T>, o': seq<T>, i': seq<T>)
    requires Thinned(o, i) && Thinned(o', i')
    ensures Thinned(o + o', i + i')
  {
    hide Subsequence;
    SubsequenceConcat(o, i, o', i');
    if i' == [] {
      assert o' == [] by { NothingIn(o'); }
      assert o + o' == o && i + i' == i;
    }
  }

  lemma NothingIn<T>(o: seq<T>)
    requires Subsequence(o, [])
    ensures o == []
  {
  }

  /** Two halves that share nothing keep their order exactly when each does. */
  lemma {:induction false} SubsequenceSplit<T>(o: seq<T>, i: seq<T>, o': seq<T>, i': seq<T>)
    requires Subsequence(o + o', i + i')
    requires forall x :: x in o ==> x !in i'
    requires forall x :: x in o' ==> x !in i
    ensures Subsequence(o, i) && Subsequence(o', i')
    decreases |i'|
  {
    hide DropLast, Subsequence;
    if i' == [] {
      assert i + i' == i;
      if o' != [] {
        SubsequenceMembers(o + o', i, o'[0]);
      }
      assert o + o' == o;
      NothingFirst(o', i');
    } else {
      DropLastConcat(i, i');
      Shorter(i');
      if o' != [] && o'[|o'| - 1] == i'[|i'| - 1] {
        DropLastConcat(o, o');
        Shorter(o');
        Matched(o + o', i + i');
        SubsequenceSplit(o, i, DropLast(o'), DropLast(i'));
        Matched(o', i');
      } else {
        if o' != [] {
          DropLastConcat(o, o');
        } else {
          assert o + o' == o;
          assert o != [] ==> o[|o| - 1] in o;
        }
        Passed(o + o', i + i');
        SubsequenceSplit(o, i, o', DropLast(i'));
        Unmatched(o', i');
      }
    }
  }

  lemma NothingFirst<T>(o: seq<T>, i: seq<T>)
    requires o == []
    ensures Subsequence(o, i)
  {
  }

  // ---- what a state holds of a pane ----

  lemma {:induction false} NoPane(ms: seq<OutboundMessage>, paneId: u64)
    requires forall i :: 0 <= i < |ms| ==> !IsPane(ms[i], paneId)
    ensures OfPane(ms, paneId) == []
  {
    if ms == [] {
    } else {
      NoPane(ms[..|ms| - 1], paneId);
    }
  }

  /** A buffer that is not a pane's holds nothing of it, and the two that are hold one lane each. */
  lemma BufferOfPane(pending: seq<OutboundMessage>, group: Group, paneId: u64)
    requires Buffer(pending, group)
    ensures OfPane(pending, paneId)
            == if group == FocusedGroup then InLane(pending, PaneLane(paneId, true))
               else if group == PassiveGroup then InLane(pending, PaneLane(paneId, false))
               else []
  {
    hide InLane, OfPane;
    if group == FocusedGroup {
      ForeignBuffer(pending, group, PaneLane(paneId, false));
      OneLanePane(pending, paneId, true);
    } else if group == PassiveGroup {
      ForeignBuffer(pending, group, PaneLane(paneId, true));
      OneLanePane(pending, paneId, false);
    } else {
      NoPane(pending, paneId);
    }
  }

  lemma PaneContents(p: Pending, paneId: u64)
    requires Tidy(p)
    ensures OfPane(Everything(p), paneId)
            == OfPane(p.out, paneId) + (Held(p, PaneLane(paneId, true)) + Held(p, PaneLane(paneId, false)))
    ensures OfPane(p.out + p.control, paneId) == OfPane(p.out, paneId)
    ensures OfPane(p.screen, paneId) == []
  {
    hide InLane, OfPane, Buffer;
    OfPaneAppend(p.out + p.control, Screens(p), paneId);
    OfPaneAppend(p.out, p.control, paneId);
    OfPaneAppend(p.focused + p.screen, p.passive, paneId);
    OfPaneAppend(p.focused, p.screen, paneId);
    BufferOfPane(p.control, ControlGroup, paneId);
    BufferOfPane(p.focused, FocusedGroup, paneId);
    BufferOfPane(p.screen, ScreenGroup, paneId);
    BufferOfPane(p.passive, PassiveGroup, paneId);
  }

  lemma {:induction false} BufferHoldsOne(pending: seq<OutboundMessage>, group: Group, lane: Lane)
    requires Buffer(pending, group)
    ensures |InLane(pending, lane)| <= 1
  {
    hide LaneOf;
    if pending == [] {
    } else {
      var before, last := pending[..|pending| - 1], pending[|pending| - 1];
      BufferHoldsOne(before, group, lane);
      if LaneOf(last) == lane {
        NoneInLane(before, lane);
      }
    }
  }

  lemma HeldAtMostOne(p: Pending, lane: Lane)
    requires Tidy(p)
    ensures |Held(p, lane)| <= 1
  {
    hide InLane, Buffer;
    if GroupOf(lane) == NoGroup {
      NoneInLane([], lane);
    } else {
      BufferHoldsOne(BufferOf(p, GroupOf(lane)), GroupOf(lane), lane);
    }
  }

  // ---- a coalesced stretch ----

  predicate BarrierFree(ms: seq<OutboundMessage>) {
    forall i :: 0 <= i < |ms| ==> !Barrier(ms[i])
  }

  /** Until a barrier comes, no pane update is let out. */
  lemma {:induction false} PanesWait(ms: seq<OutboundMessage>, paneId: u64)
    requires BarrierFree(ms)
    ensures OfPane(PushAll(NOTHING, ms, true).out, paneId) == []
  {
    hide Push, Tidy, Barrier, OfPane;
    if ms == [] {
      NoPane([], paneId);
    } else {
      var before, m := ms[..|ms| - 1], ms[|ms| - 1];
      PanesWait(before, paneId);
      PushAllTidy(before, true);
      assert !Barrier(m);
      PaneWaits(PushAll(NOTHING, before, true), m, paneId);
    }
  }

  lemma PaneWaits(p: Pending, m: OutboundMessage, paneId: u64)
    requires Tidy(p) && !Barrier(m)
    ensures OfPane(Push(p, m, true).out, paneId) == OfPane(p.out, paneId)
  {
    hide Put, PriorityFrame, CoalescibleKind, OfPane, Everything;
    if m.Frame? && !LaneOf(m).ControlLane? {
      assert ControlHoldsNone(p, paneId) by { PaneContents(p, paneId); }
      hide Tidy, Everything;
      OfPaneAppend(p.out + p.control, [m], paneId);
      OfPaneOne(m, paneId);
    }
  }

  predicate ControlHoldsNone(p: Pending, paneId: u64) {
    OfPane(p.out + p.control, paneId) == OfPane(p.out, paneId)
  }

  /** At most one update of either lane is left of a pane, the focused one first. */
  lemma StretchOfPane(ms: seq<OutboundMessage>, paneId: u64)
    requires BarrierFree(ms)
    ensures var us := OfPane(ms, paneId);
            var f, p := WithFlag(us, true), WithFlag(us, false);
            OfPane(Emitted(ms, true), paneId) == LastOne(f) + LastOne(p)
  {
    var s := PushAll(NOTHING, ms, true);
    var us := OfPane(ms, paneId);
    PushAllTidy(ms, true);
    PanesWait(ms, paneId);
    PaneContents(s, paneId);
    hide Tidy, InLane, OfPane, Everything, PushAll, WithFlag, Held;
    LaneLeavesLast(ms, paneId, true);
    LaneLeavesLast(ms, paneId, false);
  }

  lemma LaneLeavesLast(ms: seq<OutboundMessage>, paneId: u64, focused: bool)
    requires BarrierFree(ms)
    ensures var us := WithFlag(OfPane(ms, paneId), focused);
            Held(PushAll(NOTHING, ms, true), PaneLane(paneId, focused)) == LastOne(us)
  {
    hide Tidy, InLane, OfPane, Everything, PushAll, Held, BarrierFree, WithFlag, Subsequence, Thinned, LastOne;
    var s, lane := PushAll(NOTHING, ms, true), PaneLane(paneId, focused);
    PushAllTidy(ms, true);
    PanesWait(ms, paneId);
    LaneOfPane(s.out, paneId, focused);
    NoneWithFlag(focused);
    LaneContents(s, lane);
    HeldAtMostOne(s, lane);
    LaneOfPane(ms, paneId, focused);
    LanesAreThinned(ms, true, lane);
    assert [] + Held(s, lane) == Held(s, lane);
    ThinnedToOne(Held(s, lane), InLane(ms, lane));
  }

  lemma NoneWithFlag(focused: bool)
    ensures WithFlag([], focused) == []
  {
  }

  lemma ThinnedToOne(o: seq<OutboundMessage>, i: seq<OutboundMessage>)
    requires |o| <= 1 && Thinned(o, i)
    ensures o == LastOne(i)
  {
    if i == [] {
      NothingIn(o);
    }
  }

  predicate IsFocused(m: OutboundMessage) {
    m.PaneUpdate? && m.focused
  }

  /** A pane's last update is focused only if all of them are. */
  predicate KeepsOrder(us: seq<OutboundMessage>) {
    us != [] && IsFocused(us[|us| - 1]) ==> forall i :: 0 <= i < |us| ==> IsFocused(us[i])
  }

  lemma {:induction false} FlagMembers(us: seq<OutboundMessage>, focused: bool, u: OutboundMessage)
    ensures u in WithFlag(us, focused) <==> u in us && u.PaneUpdate? && u.focused == focused
  {
    if us == [] {
    } else {
      assert us == us[..|us| - 1] + [us[|us| - 1]];
      FlagMembers(us[..|us| - 1], focused, u);
    }
  }

  predicate AllOfPane(us: seq<OutboundMessage>) {
    forall i :: 0 <= i < |us| ==> us[i].PaneUpdate?
  }

  function LastOne(s: seq<OutboundMessage>): seq<OutboundMessage> {
    if s == [] then [] else [s[|s| - 1]]
  }

  /** The last update overall is the last of its own lane. */
  lemma LastOfLane(us: seq<OutboundMessage>)
    requires us != [] && AllOfPane(us)
    ensures LastOne(WithFlag(us, IsFocused(us[|us| - 1]))) == [us[|us| - 1]]
  {
  }

  lemma LastFlagged(us: seq<OutboundMessage>, focused: bool)
    requires WithFlag(us, focused) != [] && AllOfPane(us)
    ensures var x := LastOne(WithFlag(us, focused))[0]; x in us && IsFocused(x) == focused
  {
    var f := WithFlag(us, focused);
    FlagMembers(us, focused, f[|f| - 1]);
  }

  lemma NoneFlagged(us: seq<OutboundMessage>, focused: bool)
    requires WithFlag(us, focused) == [] && AllOfPane(us)
    ensures forall i :: 0 <= i < |us| ==> IsFocused(us[i]) == !focused
  {
    forall i | 0 <= i < |us| ensures IsFocused(us[i]) == !focused {
      FlagMembers(us, focused, us[i]);
    }
  }

  lemma LastThinned(us: seq<OutboundMessage>)
    requires us != []
    ensures Thinned([us[|us| - 1]], us)
  {
    OneOf(us[|us| - 1], us);
  }

  lemma PairThinned(x: OutboundMessage, us: seq<OutboundMessage>)
    requires us != [] && x in us && x != us[|us| - 1]
    ensures Thinned([x, us[|us| - 1]], us)
  {
    assert us == DropLast(us) + [us[|us| - 1]];
    OneOf(x, DropLast(us));
    assert DropLast([x, us[|us| - 1]]) == [x];
  }

  lemma WrongEnd(o: seq<OutboundMessage>, us: seq<OutboundMessage>)
    requires us != [] && o != [] && o[|o| - 1] != us[|us| - 1]
    ensures !Thinned(o, us)
  {
  }

  /** The focused last and the passive last, in that order, against all the updates of a pane. */
  lemma LastOfEach(us: seq<OutboundMessage>)
    requires AllOfPane(us)
    ensures var o := LastOne(WithFlag(us, true)) + LastOne(WithFlag(us, false));
            && (Thinned(o, us) <==> KeepsOrder(us))
            && (!KeepsOrder(us) ==> us != [] && |o| == 2 && o[0] == us[|us| - 1] && o[1] in us && o[0] != o[1])
  {
    hide Thinned;
    if us == [] {
      NothingThinned();
    } else {
      var last, f, p := us[|us| - 1], WithFlag(us, true), WithFlag(us, false);
      LastOfLane(us);
      hide WithFlag, AllOfPane, IsFocused;
      if f == [] {
        NoneFlagged(us, true);
        LastThinned(us);
        assert LastOne(f) + LastOne(p) == [last];
      } else if p == [] {
        NoneFlagged(us, false);
        LastThinned(us);
        assert LastOne(f) + LastOne(p) == [last];
      } else {
        LastFlagged(us, true);
        LastFlagged(us, false);
        var x, y := LastOne(f)[0], LastOne(p)[0];
        assert LastOne(f) + LastOne(p) == [x, y];
        if IsFocused(last) {
          WrongEnd([x, y], us);
        } else {
          PairThinned(x, us);
        }
      }
    }
  }

  /** Between barriers a coalesced batch keeps the order of a pane's updates, ending in the last,
      exactly when the last of them is passive or all of them are focused. */
  lemma PaneOrderExactly(ms: seq<OutboundMessage>, paneId: u64)
    requires BarrierFree(ms)
    ensures Thinned(OfPane(Emitted(ms, true), paneId), OfPane(ms, paneId)) <==> KeepsOrder(OfPane(ms, paneId))
  {
    hide Thinned, WithFlag, OfPane, Everything;
    StretchOfPane(ms, paneId);
    LastOfEach(OfPane(ms, paneId));
  }

  // ---- the order between the lanes ----

  /** Frames, focused panes, the screen, passive panes. */
  function Rank(m: OutboundMessage): nat {
    match m
    case Frame(_) => 0
    case PaneUpdate(_, focused, _) => if focused then 1 else 3
    case ScreenUpdate(_) => 2
  }

  predicate AllOfRank(ms: seq<OutboundMessage>, rank: nat) {
    forall i :: 0 <= i < |ms| ==> Rank(ms[i]) == rank
  }

  predicate UpTo(ms: seq<OutboundMessage>, rank: nat) {
    && (forall i :: 0 <= i < |ms| ==> Rank(ms[i]) <= rank)
    && (forall i, j :: 0 <= i < j < |ms| ==> Rank(ms[i]) <= Rank(ms[j]))
  }

  lemma Stacked(a: seq<OutboundMessage>, low: nat, b: seq<OutboundMessage>, rank: nat)
    requires UpTo(a, low) && AllOfRank(b, rank) && low <= rank
    ensures UpTo(a + b, rank)
  {
    hide Rank;
  }

  function GroupRank(group: Group): nat {
    if group.FocusedGroup? then 1 else if group.ScreenGroup? then 2 else if group.PassiveGroup? then 3 else 0
  }

  lemma BufferRank(pending: seq<OutboundMessage>, group: Group)
    requires Buffer(pending, group) && group != NoGroup
    ensures AllOfRank(pending, GroupRank(group))
  {
    forall i | 0 <= i < |pending| ensures GroupOf(LaneOf(pending[i])) == group {
    }
  }

  lemma {:induction false} OnlyFramesOut(ms: seq<OutboundMessage>)
    requires BarrierFree(ms)
    ensures AllOfRank(PushAll(NOTHING, ms, true).out, 0)
  {
    hide Push, Tidy, Barrier, Rank;
    if ms == [] {
    } else {
      var before, m := ms[..|ms| - 1], ms[|ms| - 1];
      OnlyFramesOut(before);
      PushAllTidy(before, true);
      assert !Barrier(m);
      FramesStayOut(PushAll(NOTHING, before, true), m);
    }
  }

  lemma FramesStayOut(p: Pending, m: OutboundMessage)
    requires Tidy(p) && !Barrier(m) && AllOfRank(p.out, 0)
    ensures AllOfRank(Push(p, m, true).out, 0)
  {
    hide Put, PriorityFrame, CoalescibleKind, Everything, Buffer;
    BufferRank(p.control, ControlGroup);
  }

  /** What leaves a batch between barriers leaves it in this order: control and priority frames, then
      focused panes, then the screen, then passive panes. */
  lemma LeavesInOrder(ms: seq<OutboundMessage>, i: nat, j: nat)
    requires BarrierFree(ms) && i < j < |Emitted(ms, true)|
    ensures var a, b := Emitted(ms, true)[i], Emitted(ms, true)[j];
            && !(a.PaneUpdate? && b.Frame?) && !(a.ScreenUpdate? && b.Frame?)
            && !(a.ScreenUpdate? && b.PaneUpdate? && b.focused)
            && !(a.PaneUpdate? && !a.focused && b.ScreenUpdate?)
            && !(a.PaneUpdate? && !a.focused && b.PaneUpdate? && b.focused)
  {
    var p := PushAll(NOTHING, ms, true);
    OnlyFramesOut(ms);
    PushAllTidy(ms, true);
    assert Everything(p) == p.out + p.control + p.focused + p.screen + p.passive;
    BufferRank(p.control, ControlGroup);
    BufferRank(p.focused, FocusedGroup);
    BufferRank(p.screen, ScreenGroup);
    BufferRank(p.passive, PassiveGroup);
    hide Everything, PushAll, Tidy, Buffer;
    assert UpTo(p.out, 0) by { hide Rank; }
    Stacked(p.out, 0, p.control, 0);
    Stacked(p.out + p.control, 0, p.focused, 1);
    Stacked(p.out + p.control + p.focused, 1, p.screen, 2);
    Stacked(p.out + p.control + p.focused + p.screen, 2, p.passive, 3);
    assert Rank(Emitted(ms, true)[i]) <= Rank(Emitted(ms, true)[j]);
  }

  // ---- without coalescing ----

  lemma {:induction false} PassiveStaysEmpty(ms: seq<OutboundMessage>)
    ensures PushAll(NOTHING, ms, false).passive == []
  {
    hide LaneOf, Put, PriorityFrame, Everything;
    if ms == [] {
    } else {
      PassiveStaysEmpty(ms[..|ms| - 1]);
    }
  }

  /** What a push does to a pane's share of everything. */
  predicate PaneStep(p: Pending, q: Pending, m: OutboundMessage, paneId: u64) {
    var before, after := OfPane(Everything(p), paneId), OfPane(Everything(q), paneId);
    if IsPane(m, paneId) then Supersedes(before, after, m, Held(p, PaneLane(paneId, true))) else after == before
  }

  /** A state whose passive buffer is empty, seen by one pane. */
  lemma UncoalescedContents(p: Pending, paneId: u64)
    requires Tidy(p) && p.passive == []
    ensures OfPane(Everything(p), paneId) == OfPane(p.out, paneId) + InLane(p.focused, PaneLane(paneId, true))
  {
    hide Tidy, InLane, OfPane, Everything;
    PaneContents(p, paneId);
    NoneInLane([], PaneLane(paneId, false));
    var held := InLane(p.focused, PaneLane(paneId, true));
    assert Held(p, PaneLane(paneId, true)) == held && Held(p, PaneLane(paneId, false)) == [];
    assert held + [] == held;
  }

  lemma FocusedPaneStep(p: Pending, m: OutboundMessage, paneId: u64)
    requires Tidy(p) && p.passive == [] && m.PaneUpdate? && m.focused
    ensures PaneStep(p, Push(p, m, false), m, paneId)
  {
    hide Tidy, InLane, OfPane, Everything, Put, PriorityFrame, CoalescibleKind, Buffer;
    var q, lane := Push(p, m, false), PaneLane(paneId, true);
    assert Buffer(p.focused, FocusedGroup) by { TidyFocused(p); }
    PushTidy(p, m, false);
    UncoalescedContents(p, paneId);
    UncoalescedContents(q, paneId);
    PutLane(p.focused, m, lane, FocusedGroup);
    assert IsPane(m, paneId) <==> LaneOf(m) == lane;
    assert Held(p, lane) == InLane(p.focused, lane);
    var out, h := OfPane(p.out, paneId), InLane(p.focused, lane);
    assert OfPane(Everything(p), paneId) == out + h;
    assert OfPane(Everything(q), paneId) == out + if LaneOf(m) == lane then [m] else h;
    BufferHoldsOne(p.focused, FocusedGroup, lane);
    hide Held, LaneOf, IsPane, Push;
    HeldReplaced(out, h, m);
  }

  lemma TidyFocused(p: Pending)
    requires Tidy(p)
    ensures Buffer(p.focused, FocusedGroup)
  {
  }

  lemma HeldReplaced(out: seq<OutboundMessage>, h: seq<OutboundMessage>, m: OutboundMessage)
    requires |h| <= 1
    ensures Supersedes(out + h, out + [m], m, h)
  {
    if h != [] {
      assert DropLast(out + h) == out;
    } else {
      assert out + h == out;
    }
  }

  lemma OnlyOut(out: seq<OutboundMessage>)
    ensures Everything(NOTHING.(out := out)) == out
  {
  }

  lemma FlushedPaneStep(p: Pending, m: OutboundMessage, paneId: u64)
    requires Tidy(p) && !m.ScreenUpdate? && !Priority(m) && !LaneOf(m).ControlLane? && !IsFocused(m)
    ensures PaneStep(p, Push(p, m, false), m, paneId)
  {
    hide OfPane, Tidy, Everything, PriorityFrame, CoalescibleKind;
    OnlyOut(Everything(p) + [m]);
    OfPaneAppend(Everything(p), [m], paneId);
    OfPaneOne(m, paneId);
    assert Push(p, m, false) == NOTHING.(out := Everything(p) + [m]);
    assert OfPane(Everything(p), paneId) + [] == OfPane(Everything(p), paneId);
  }

  lemma OtherPaneStep(p: Pending, m: OutboundMessage, paneId: u64)
    requires Tidy(p) && p.passive == [] && !m.PaneUpdate? && (m.ScreenUpdate? || Priority(m) || LaneOf(m).ControlLane?)
    ensures PaneStep(p, Push(p, m, false), m, paneId)
  {
    PushTidy(p, m, false);
    UncoalescedContents(p, paneId);
    UncoalescedContents(Push(p, m, false), paneId);
    OtherPaneOut(p, m, paneId);
    hide Tidy, InLane, OfPane, Everything, Push, LaneOf, Priority;
  }

  lemma OtherPaneOut(p: Pending, m: OutboundMessage, paneId: u64)
    requires Tidy(p) && !m.PaneUpdate? && (m.ScreenUpdate? || Priority(m) || LaneOf(m).ControlLane?)
    ensures var q := Push(p, m, false);
            OfPane(q.out, paneId) == OfPane(p.out, paneId) && q.focused == p.focused && q.passive == p.passive
  {
    PaneContents(p, paneId);
    hide Tidy, InLane, OfPane, Everything, Put, PriorityFrame, CoalescibleKind;
    OfPaneOne(m, paneId);
    if m.ScreenUpdate? {
      OfPaneAppend(p.out + p.control + p.screen, [m], paneId);
      OfPaneAppend(p.out + p.control, p.screen, paneId);
    } else if Priority(m) {
      OfPaneAppend(p.out + p.control, [m], paneId);
    }
  }

  lemma UncoalescedStep(p: Pending, m: OutboundMessage, paneId: u64)
    requires Tidy(p) && p.passive == []
    ensures PaneStep(p, Push(p, m, false), m, paneId)
  {
    hide Tidy, PaneStep, Push, LaneOf, Priority;
    if IsFocused(m) {
      FocusedPaneStep(p, m, paneId);
    } else if m.ScreenUpdate? || (!m.PaneUpdate? && (Priority(m) || LaneOf(m).ControlLane?)) {
      OtherPaneStep(p, m, paneId);
    } else {
      PaneIsNoFrame(m);
      FlushedPaneStep(p, m, paneId);
    }
  }

  lemma PaneIsNoFrame(m: OutboundMessage)
    ensures m.PaneUpdate? ==> !Priority(m) && !LaneOf(m).ControlLane?
  {
  }

  /** Without coalescing every pane keeps its order, whatever its focus does. */
  lemma {:induction false} PaneOrderUncoalesced(ms: seq<OutboundMessage>, paneId: u64)
    ensures Thinned(OfPane(Emitted(ms, false), paneId), OfPane(ms, paneId))
  {
    hide Push, Tidy, OfPane, Everything, Thinned, IsPane;
    if ms == [] {
      NoPane([], paneId);
      NothingEmitted();
      NothingThinned();
    } else {
      var before, m := ms[..|ms| - 1], ms[|ms| - 1];
      var p := PushAll(NOTHING, before, false);
      PaneOrderUncoalesced(before, paneId);
      PushAllTidy(before, false);
      PassiveStaysEmpty(before);
      UncoalescedStep(p, m, paneId);
      assert ms == before + [m];
      OfPaneAppend(before, [m], paneId);
      OfPaneOne(m, paneId);
      assert OfPane(before, paneId) + [] == OfPane(before, paneId);
      if IsPane(m, paneId) {
        ThinnedStep(OfPane(Emitted(before, false), paneId), OfPane(Emitted(ms, false), paneId),
                    OfPane(before, paneId), m, Held(p, PaneLane(paneId, true)));
      }
    }
  }

  // ---- whole batches ----

  /** The parts of a batch between its barriers. */
  function Stretches(ms: seq<OutboundMessage>): (r: seq<seq<OutboundMessage>>)
    ensures r != []
  {
    if ms == [] then [[]]
    else
      var before, m := Stretches(ms[..|ms| - 1]), ms[|ms| - 1];
      if Barrier(m) then before + [[]] else before[..|before| - 1] + [before[|before| - 1] + [m]]
  }

  /** The last barrier splits off the last stretch. */
  lemma {:induction false} LastStretch(ms: seq<OutboundMessage>)
    returns (pre: seq<OutboundMessage>, barrier: seq<OutboundMessage>, post: seq<OutboundMessage>)
    ensures ms == pre + barrier + post && BarrierFree(post)
    ensures barrier == [] ==> pre == [] && Stretches(ms) == [post]
    ensures barrier != [] ==>
      |barrier| == 1 && Barrier(barrier[0]) && Stretches(ms) == Stretches(pre) + [post]
  {
    hide Barrier;
    if ms == [] {
      pre, barrier, post := [], [], [];
    } else {
      var before, m := ms[..|ms| - 1], ms[|ms| - 1];
      if Barrier(m) {
        pre, barrier, post := before, [m], [];
      } else {
        pre, barrier, post := LastStretch(before);
        post := post + [m];
      }
    }
  }

  lemma BarrierOfPane(pre: seq<OutboundMessage>, b: OutboundMessage, post: seq<OutboundMessage>, paneId: u64)
    requires Barrier(b)
    ensures OfPane(pre + [b] + post, paneId) == OfPane(pre, paneId) + OfPane(post, paneId)
    ensures OfPane(Emitted(pre + [b] + post, true), paneId)
            == OfPane(Emitted(pre, true), paneId) + OfPane(Emitted(post, true), paneId)
  {
    hide OfPane, PushAll, Everything, Barrier;
    BarrierSeparates(pre, b, post, true);
    OfPaneOne(b, paneId);
    assert !IsPane(b, paneId) by { BarrierIsFrame(b); }
    OfPaneAppend(pre + [b], post, paneId);
    OfPaneAppend(pre, [b], paneId);
    OfPaneAppend(Emitted(pre, true) + [b], Emitted(post, true), paneId);
    OfPaneAppend(Emitted(pre, true), [b], paneId);
  }

  lemma BarrierIsFrame(b: OutboundMessage)
    requires Barrier(b)
    ensures b.Frame?
  {
  }

  predicate StretchesKeepOrder(ms: seq<OutboundMessage>, paneId: u64) {
    forall i :: 0 <= i < |Stretches(ms)| ==> KeepsOrder(OfPane(Stretches(ms)[i], paneId))
  }

  lemma SplitKeepsOrder(ms: seq<OutboundMessage>, pre: seq<OutboundMessage>, post: seq<OutboundMessage>, paneId: u64)
    requires Stretches(ms) == Stretches(pre) + [post]
    ensures StretchesKeepOrder(ms, paneId) <==> StretchesKeepOrder(pre, paneId) && KeepsOrder(OfPane(post, paneId))
  {
    hide KeepsOrder, Stretches;
    var all, before := Stretches(ms), Stretches(pre);
    if StretchesKeepOrder(ms, paneId) {
      assert all[|before|] == post;
      forall i | 0 <= i < |before| ensures KeepsOrder(OfPane(before[i], paneId)) {
        assert all[i] == before[i];
      }
    }
  }

  /** A whole coalesced batch keeps a pane's order when every stretch between its barriers does. */
  lemma {:induction false} BatchKeepsPaneOrder(ms: seq<OutboundMessage>, paneId: u64)
    requires StretchesKeepOrder(ms, paneId)
    ensures Thinned(OfPane(Emitted(ms, true), paneId), OfPane(ms, paneId))
    decreases |ms|
  {
    hide OfPane, Everything, PushAll, Thinned, Barrier, KeepsOrder, Stretches;
    var pre, barrier, post := LastStretch(ms);
    if barrier == [] {
      assert ms == post;
      assert KeepsOrder(OfPane(Stretches(ms)[0], paneId));
      PaneOrderExactly(post, paneId);
    } else {
      SplitKeepsOrder(ms, pre, post, paneId);
      BatchKeepsPaneOrder(pre, paneId);
      BarrierOfPane(pre, barrier[0], post, paneId);
      assert ms == pre + [barrier[0]] + post;
      PaneOrderExactly(post, paneId);
      ThinnedConcat(OfPane(Emitted(pre, true), paneId), OfPane(pre, paneId),
                    OfPane(Emitted(post, true), paneId), OfPane(post, paneId));
    }
  }

  predicate Distinct(us: seq<OutboundMessage>) {
    forall i, j :: 0 <= i < j < |us| ==> us[i] != us[j]
  }

  /** Of updates that can be told apart, a stretch that flips is not even a subsequence. */
  lemma StretchReorders(ms: seq<OutboundMessage>, paneId: u64)
    requires BarrierFree(ms) && Distinct(OfPane(ms, paneId))
    requires Subsequence(OfPane(Emitted(ms, true), paneId), OfPane(ms, paneId))
    ensures KeepsOrder(OfPane(ms, paneId))
  {
    var us := OfPane(ms, paneId);
    StretchOfPane(ms, paneId);
    LastOfEach(us);
    if !KeepsOrder(us) {
      hide WithFlag, OfPane, Everything, KeepsOrder;
      var o := OfPane(Emitted(ms, true), paneId);
      assert DropLast(o) == [o[0]];
      EndsTwice(o, us);
      assert false;
    }
  }

  /** A last element of its own cannot come before another. */
  lemma {:induction false} EndsTwice(o: seq<OutboundMessage>, us: seq<OutboundMessage>)
    requires Distinct(us) && us != [] && |o| == 2 && o[0] == us[|us| - 1] && o[0] != o[1]
    ensures !Subsequence(o, us)
  {
    LastIsNew(us);
    if Subsequence(o, us) {
      SubsequenceMembers(o, DropLast(us), o[0]);
    }
  }

  lemma LastIsNew(us: seq<OutboundMessage>)
    requires Distinct(us) && us != []
    ensures us[|us| - 1] !in DropLast(us)
  {
    forall k | 0 <= k < |DropLast(us)| ensures DropLast(us)[k] != us[|us| - 1] {
      assert us[k] != us[|us| - 1];
    }
  }

  lemma DistinctHalves(a: seq<OutboundMessage>, b: seq<OutboundMessage>)
    requires Distinct(a + b)
    ensures Distinct(a) && Distinct(b)
    ensures forall x :: x in a ==> x !in b
  {
    forall i, j | 0 <= i < j < |a| ensures a[i] != a[j] {
      assert (a + b)[i] != (a + b)[j];
    }
    forall i, j | 0 <= i < j < |b| ensures b[i] != b[j] {
      assert (a + b)[|a| + i] != (a + b)[|a| + j];
    }
    forall i, j | 0 <= i < |a| && 0 <= j < |b| ensures a[i] != b[j] {
      assert (a + b)[i] != (a + b)[|a| + j];
    }
  }

  lemma {:induction false} KeptStretches(ms: seq<OutboundMessage>, paneId: u64)
    requires Distinct(OfPane(ms, paneId))
    requires Subsequence(OfPane(Emitted(ms, true), paneId), OfPane(ms, paneId))
    ensures StretchesKeepOrder(ms, paneId)
    decreases |ms|
  {
    hide OfPane, Everything, PushAll, Subsequence, Barrier, KeepsOrder, Stretches, Distinct;
    var pre, barrier, post := LastStretch(ms);
    if barrier == [] {
      assert ms == post;
      StretchReorders(post, paneId);
    } else {
      var o, i := OfPane(Emitted(pre, true), paneId), OfPane(pre, paneId);
      var o', i' := OfPane(Emitted(post, true), paneId), OfPane(post, paneId);
      BarrierOfPane(pre, barrier[0], post, paneId);
      assert ms == pre + [barrier[0]] + post;
      DistinctHalves(i, i');
      OnlyOwn(pre, paneId);
      OnlyOwn(post, paneId);
      SubsequenceSplit(o, i, o', i');
      KeptStretches(pre, paneId);
      StretchReorders(post, paneId);
      SplitKeepsOrder(ms, pre, post, paneId);
    }
  }

  /** What is emitted of a pane was pushed for it. */
  lemma OnlyOwn(ms: seq<OutboundMessage>, paneId: u64)
    ensures forall x :: x in OfPane(Emitted(ms, true), paneId) ==> x in OfPane(ms, paneId)
  {
    hide Everything, PushAll;
    EmittedContents(ms, true);
    forall x | x in OfPane(Emitted(ms, true), paneId) ensures x in OfPane(ms, paneId) {
      OfPaneMembers(Emitted(ms, true), paneId, x);
      OfPaneMembers(ms, paneId, x);
      assert x in multiset(Emitted(ms, true));
    }
  }

  lemma {:induction false} OfPaneMembers(ms: seq<OutboundMessage>, paneId: u64, x: OutboundMessage)
    ensures x in OfPane(ms, paneId) <==> x in ms && IsPane(x, paneId)
  {
    if ms == [] {
    } else {
      assert ms == ms[..|ms| - 1] + [ms[|ms| - 1]];
      OfPaneMembers(ms[..|ms| - 1], paneId, x);
    }
  }

  /** For any coalesced batch whose updates of the pane can be told apart: they keep their order,
      ending in the last, exactly when in every stretch between barriers the last one is passive
      or all are focused. */
  lemma BatchPaneOrderExactly(ms: seq<OutboundMessage>, paneId: u64)
    requires Distinct(OfPane(ms, paneId))
    ensures Thinned(OfPane(Emitted(ms, true), paneId), OfPane(ms, paneId)) <==> StretchesKeepOrder(ms, paneId)
  {
    hide OfPane, Everything, PushAll, Subsequence, StretchesKeepOrder, Distinct;
    if StretchesKeepOrder(ms, paneId) {
      BatchKeepsPaneOrder(ms, paneId);
    } else if Thinned(OfPane(Emitted(ms, true), paneId), OfPane(ms, paneId)) {
      KeptStretches(ms, paneId);
    }
  }
}
