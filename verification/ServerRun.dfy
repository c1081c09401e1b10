/** The accept thread and new calls keep the server invariant; so does every run from Start. */
module ServerRun {
  import opened Frames
  import opened SessionStep
  import opened Server
  import opened ServerInv
  import opened ServerMove

  // ---- the accept thread

  lemma TakenKeepsSlot(sl: Slot, t: Sums, sl': Slot)
    requires SlotInv(sl, t) && sl.stage == Parked
    requires sl' == sl.(stage := Taken)
    ensures SlotInv(sl', t)
  {
  }

  /** The plain stores to a slot in the accept thread's hand. */
  lemma OpeningKeepsSlot(sl: Slot, t: Sums, n: nat, live: bool, id: nat)
    requires SlotInv(sl, t) && Coherent(t, n) && sl.stage == Taken
    ensures SlotInv(sl.(live := live), t)
    ensures SlotInv(sl.(sendFlag := false, orphan := false), t)
    ensures SlotInv(sl.(seqID := id), t)
  {
  }

  function Reopened(sl: Slot): Slot {
    sl.(ioCount := 1, stage := Open, accepts := sl.accepts + 1, unsent := false, staleZero := false,
        pushed := [], popped := [], handed := [])
  }

  lemma CountingKeepsSlot(sl: Slot, t: Sums, n: nat)
    requires SlotInv(sl, t) && Coherent(t, n) && sl.stage == Taken && !sl.sendFlag
    ensures SlotInv(Reopened(sl), Plus(t, AcceptCount))
  {
  }

  lemma AcceptKeepsSlots(s: State)
    requires Fits(s) && Can(s, AcceptMove) && Inv(s)
    ensures SlotsInv(DoAccept(s))
  {
    var s' := DoAccept(s);
    forall i | 0 <= i < |s'.slots| ensures SlotInv(s'.slots[i], Total(i, s'.acts)) {
      var sl := s.slots[i];
      var t := Total(i, s.acts);
      TotalCoherent(i, s.acts);
      if s.accept.Waiting? {
        if s.free != [] && s.free[0] == i { TakenKeepsSlot(sl, t, s'.slots[i]); }
      } else if s.accept.idx == i {
        OpeningKeepsSlot(sl, t, |s.acts|, true, NewId(s, i));
        if s.accept.Counting? {
          AppendTotal(i, s.acts, Act(i, AcceptCount, sl.seqID, NoMsg, false, 0));
          CountingKeepsSlot(sl, t, |s.acts|);
        }
      } else if s.accept.Counting? {
        AppendTotal(i, s.acts, Act(s.accept.idx, AcceptCount, s.slots[s.accept.idx].seqID, NoMsg, false, 0));
      }
    }
  }

  /** No pinned activity is left on a slot in the accept thread's hand. */
  lemma TakenIsUnpinned(s: State, a: nat)
    requires Inv(s) && a < |s.acts| && Pinned(s.acts[a].pc)
    ensures s.slots[s.acts[a].slot].stage == Open
  {
    var i := s.acts[a].slot;
    TotalSplit(i, s.acts, a);
    assert SlotInv(s.slots[i], Total(i, s.acts));
    PinnedIsOpen(s.slots[i], Total(i, Without(s.acts, a)), s.acts[a].pc);
  }

  lemma PinnedIsOpen(sl: Slot, rest: Sums, p: Pc)
    requires CountInv(sl, Plus(rest, p)) && Pinned(p)
    ensures sl.stage == Open
  {
  }

  /** What the accept thread leaves alone. */
  lemma AcceptShape(s: State)
    requires Can(s, AcceptMove)
    ensures var s' := DoAccept(s);
      && |s'.slots| == |s.slots| && s'.uses == s.uses
      && (forall i :: 0 <= i < |s.slots| ==>
            && SameMessages(s.slots[i], s'.slots[i]) && s'.slots[i].accepts >= s.slots[i].accepts
            && (s'.slots[i].seqID == s.slots[i].seqID || s.accept == Naming(i)))
      && (s'.acts == s.acts
          || (s.accept.Counting?
              && s'.acts == s.acts + [Act(s.accept.idx, AcceptCount, s.slots[s.accept.idx].seqID, NoMsg, false, 0)]
              && s'.slots[s.accept.idx].accepts > 0))
  {
  }

  lemma AcceptKeepsActs(s: State)
    requires Can(s, AcceptMove) && ActsInv(s)
    ensures ActsInv(DoAccept(s))
  {
    AcceptShape(s);
  }

  lemma AcceptKeepsPins(s: State)
    requires Can(s, AcceptMove) && Inv(s)
    ensures ActsInv(DoAccept(s)) && PinInv(DoAccept(s))
  {
    AcceptKeepsActs(s);
    AcceptShape(s);
    var s' := DoAccept(s);
    forall a | 0 <= a < |s'.acts| && Pinned(s'.acts[a].pc)
      ensures s'.slots[s'.acts[a].slot].seqID == s'.acts[a].id
    {
      TakenIsUnpinned(s, a);
    }
  }

  lemma NewIdParts(s: State, i: nat)
    requires Fits(s) && i < |s.slots|
    ensures NewId(s, i) / BIT47 == i && NewId(s, i) % BIT47 == |s.issued|
  {
    assert i * BIT47 + |s.issued| < WORD;
  }

  lemma AcceptKeepsIds(s: State)
    requires Fits(s) && Can(s, AcceptMove) && IdInv(s)
    ensures IdInv(DoAccept(s))
  {
    if s.accept.Naming? { NewIdParts(s, s.accept.idx); }
  }

  lemma AcceptKeepsIndices(s: State)
    requires Can(s, AcceptMove) && IndexInv(s)
    ensures IndexInv(DoAccept(s))
  {
    if s.accept.Waiting? && s.free != [] {
      assert s.free[0] in s.free;
      assert forall i :: i in s.free <==> i == s.free[0] || i in s.free[1..];
    }
  }

  lemma AcceptKeepsCount(s: State)
    requires Can(s, AcceptMove) && IndexInv(s) && CountedInv(s)
    ensures CountedInv(DoAccept(s))
  {
    if s.accept.Counting? {
      AppendWindow(s.acts, Act(s.accept.idx, AcceptCount, s.slots[s.accept.idx].seqID, NoMsg, false, 0));
    }
  }

  lemma AcceptKeepsDeliveries(s: State)
    requires Can(s, AcceptMove) && DeliveryInv(s)
    ensures DeliveryInv(DoAccept(s))
  {
    AcceptShape(s);
    var s' := DoAccept(s);
    forall i, d: nat | 0 <= i < |s'.slots| ensures InHand(s'.slots[i], d) == Owed(s'.acts, i, d) {
      assert InHand(s.slots[i], d) == Owed(s.acts, i, d);
    }
  }

  lemma AcceptKeepsUses(s: State)
    requires Can(s, AcceptMove) && UsesInv(s)
    ensures UsesInv(DoAccept(s))
  {
    AcceptShape(s);
    var s' := DoAccept(s);
    forall m | m in s'.uses ensures s'.uses[m] == Shares(m, s'.acts) {
      if s.accept.Counting? { assert s'.acts[..|s.acts|] == s.acts; }
    }
  }

  lemma AcceptKeepsInv(s: State)
    requires Fits(s) && Can(s, AcceptMove) && Inv(s)
    ensures Inv(DoAccept(s))
  {
    AcceptKeepsSlots(s);
    AcceptKeepsPins(s);
    AcceptKeepsIds(s);
    AcceptKeepsIndices(s);
    AcceptKeepsCount(s);
    AcceptKeepsDeliveries(s);
    AcceptKeepsUses(s);
  }

  // ---- new calls

  /** A call that is about to touch the count for the first time. */
  ghost predicate Newcomer(s: State, x: Act) {
    && Known(s, x.id) && x.slot == x.id / BIT47 && !x.given && x.freed == 0
    && ((x.pc == LockInc && x.load.Msg? && x.load.m in s.uses) || (x.pc == DiscInc && x.load == NoMsg))
  }

  function Joined(s: State, x: Act): State
    requires x.load.Msg? ==> x.load.m in s.uses
  {
    s.(acts := s.acts + [x], uses := if x.load.Msg? then s.uses[x.load.m := s.uses[x.load.m] + 1] else s.uses)
  }

  lemma PlusLock(t: Sums)
    ensures Plus(t, LockInc) == t && Plus(t, DiscInc) == t
  {
  }

  lemma JoinTotal(i: nat, acts: seq<Act>, x: Act)
    requires x.pc == LockInc || x.pc == DiscInc
    ensures Total(i, acts + [x]) == Total(i, acts)
  {
    AppendTotal(i, acts, x);
    PlusLock(Total(i, acts));
    if x.pc == LockInc {
    } else {
    }
  }

  lemma JoinKeepsSlots(s: State, x: Act)
    requires SlotsInv(s) && Newcomer(s, x)
    ensures SlotsInv(Joined(s, x))
  {
    var s' := Joined(s, x);
    forall i | 0 <= i < |s'.slots| ensures SlotInv(s'.slots[i], Total(i, s'.acts)) {
      JoinTotal(i, s.acts, x);
      assert SlotInv(s.slots[i], Total(i, s.acts));
    }
  }

  lemma JoinKeepsDeliveries(s: State, x: Act)
    requires DeliveryInv(s) && Newcomer(s, x)
    ensures DeliveryInv(Joined(s, x))
  {
    var s' := Joined(s, x);
    forall i, d: nat | 0 <= i < |s'.slots| ensures InHand(s'.slots[i], d) == Owed(s'.acts, i, d) {
      assert InHand(s.slots[i], d) == Owed(s.acts, i, d);
    }
  }

  lemma JoinKeepsUses(s: State, x: Act)
    requires UsesInv(s) && Newcomer(s, x)
    ensures UsesInv(Joined(s, x))
  {
    var s' := Joined(s, x);
    forall m | m in s'.uses ensures s'.uses[m] == Shares(m, s'.acts) {
      assert s'.acts[..|s.acts|] == s.acts;
    }
  }

  lemma JoinKeepsPins(s: State, x: Act)
    requires ActsInv(s) && PinInv(s) && Newcomer(s, x)
    ensures ActsInv(Joined(s, x)) && PinInv(Joined(s, x))
  {
  }

  lemma JoinKeepsIndices(s: State, x: Act)
    requires IdInv(s) && IndexInv(s) && CountedInv(s) && Newcomer(s, x)
    ensures IdInv(Joined(s, x)) && IndexInv(Joined(s, x)) && CountedInv(Joined(s, x))
  {
    AppendWindow(s.acts, x);
  }

  lemma JoinKeepsInv(s: State, x: Act)
    requires Inv(s) && Newcomer(s, x)
    ensures Inv(Joined(s, x))
  {
    JoinKeepsSlots(s, x);
    JoinKeepsDeliveries(s, x);
    JoinKeepsUses(s, x);
    JoinKeepsPins(s, x);
    JoinKeepsIndices(s, x);
  }

  lemma {:induction false} NoShares(m: nat, acts: seq<Act>)
    requires forall a :: 0 <= a < |acts| ==> acts[a].load != Msg(m)
    ensures Shares(m, acts) == 0
  {
    if acts != [] { NoShares(m, acts[..|acts| - 1]); }
  }

  lemma FreshMessage(s: State, m: nat)
    requires Inv(s) && m !in s.uses
    ensures Inv(s.(uses := s.uses[m := 0]))
  {
    NoShares(m, s.acts);
    assert UsesInv(s.(uses := s.uses[m := 0]));
  }

  lemma SendUnfold(s: State, ids: seq<nat>, m: nat)
    requires Can(s, Send(ids, m)) && ids != []
    ensures var n := |ids| - 1; var x := Act(ids[n] / BIT47, LockInc, ids[n], Msg(m), false, 0);
      && Can(s, Send(ids[..n], m)) && m in Do(s, Send(ids[..n], m)).uses
      && Newcomer(Do(s, Send(ids[..n], m)), x)
      && Do(s, Send(ids, m)) == Joined(Do(s, Send(ids[..n], m)), x)
  {
    var n := |ids| - 1;
    var x := Act(ids[n] / BIT47, LockInc, ids[n], Msg(m), false, 0);
    assert s.acts + Deliveries(ids, m) == s.acts + Deliveries(ids[..n], m) + [x];
    assert s.uses[m := n][m := n + 1] == s.uses[m := n + 1];
  }

  /** `iUseCnt` is set to the number of targets; each target is a delivery of its own. */
  lemma {:induction false} SendKeepsInv(s: State, ids: seq<nat>, m: nat)
    requires Inv(s) && Can(s, Send(ids, m))
    ensures Inv(Do(s, Send(ids, m)))
  {
    if ids == [] {
      FreshMessage(s, m);
      assert s.acts + Deliveries(ids, m) == s.acts;
    } else {
      var n := |ids| - 1;
      SendUnfold(s, ids, m);
      SendKeepsInv(s, ids[..n], m);
      JoinKeepsInv(Do(s, Send(ids[..n], m)), Act(ids[n] / BIT47, LockInc, ids[n], Msg(m), false, 0));
    }
  }

  // ---- runs

  lemma StepKeepsInv(s: State, x: Action)
    requires Fits(s) && Can(s, x) && Inv(s)
    ensures Inv(Do(s, x))
  {
    match x
    case Move(a, c) => MoveKeepsInv(s, a, c);
    case AcceptMove => AcceptKeepsInv(s);
    case Send(ids, m) => SendKeepsInv(s, ids, m);
    case Disconnect(id) => JoinKeepsInv(s, Act(id / BIT47, DiscInc, id, NoMsg, false, 0));
  }

  /** `w` is a schedule of atomic actions that can be executed from `s`, the widths always sufficing. */
  predicate Path(s: State, w: seq<Action>)
    decreases |w|, 0
  {
    w == [] || (var n := |w| - 1; Path(s, w[..n]) && Fits(Exec(s, w[..n])) && Can(Exec(s, w[..n]), w[n]))
  }

  function Exec(s: State, w: seq<Action>): State
    requires Path(s, w)
    decreases |w|, 1
  {
    if w == [] then s else var n := |w| - 1; Do(Exec(s, w[..n]), w[n])
  }

  lemma InitIndices(s: State)
    requires Init(s)
    ensures IndexInv(s)
  {
    forall i | 0 <= i < |s.slots| ensures i in s.free { assert s.free[|s.slots| - 1 - i] == i; }
  }

  lemma NewSlotInv()
    ensures SlotInv(NEWSLOT, ZERO)
  {
  }

  lemma InitSlots(s: State)
    requires Init(s)
    ensures SlotsInv(s)
  {
    forall i | 0 <= i < |s.slots| ensures SlotInv(s.slots[i], Total(i, s.acts)) {
      assert Total(i, s.acts) == ZERO;
      NewSlotInv();
    }
  }

  lemma InitRest(s: State)
    requires Init(s)
    ensures ActsInv(s) && PinInv(s) && IdInv(s) && CountedInv(s)
  {
    assert Window(s.acts) == 0;
  }

  lemma InitMessages(s: State)
    requires Init(s)
    ensures DeliveryInv(s) && UsesInv(s)
  {
    forall d: nat ensures InHand(NEWSLOT, d) == 0 {}
  }

  lemma InitInv(s: State)
    requires Init(s)
    ensures Inv(s)
  {
    InitIndices(s);
    InitSlots(s);
    InitMessages(s);
    InitRest(s);
  }

  /** Every state of every run satisfies the invariant. */
  lemma {:induction false} RunKeepsInv(s: State, w: seq<Action>)
    requires Inv(s) && Path(s, w)
    ensures Inv(Exec(s, w))
  {
    if w != [] {
      var n := |w| - 1;
      RunKeepsInv(s, w[..n]);
      StepKeepsInv(Exec(s, w[..n]), w[n]);
    }
  }
}
