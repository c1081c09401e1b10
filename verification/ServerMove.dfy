/** One atomic action of one activity keeps the whole server invariant. */
module ServerMove {
  import opened Frames
  import opened SessionStep
  import opened Server
  import opened ServerInv
  import opened SlotProof

  // ---- the activity list after a move

  lemma AppliedShape(acts: seq<Act>, a: nat, e: Effect)
    requires a < |acts|
    ensures var acts' := Applied(acts, a, e);
      && |acts'| == |acts| + |Spawned(acts[a], e)|
      && acts'[a] == Moved(acts[a], e).(freed := acts'[a].freed)
      && (forall b :: 0 <= b < |acts| && b != a ==> acts'[b] == acts[b].(freed := acts'[b].freed))
      && (forall b :: 0 <= b < |acts| ==> acts'[b].freed == acts[b].freed + (if e.freed == Freed(b) then 1 else 0))
      && (e.spawn.Spawn? ==> acts'[|acts|] == Act(acts[a].slot, e.spawn.pc, acts[a].id, NoMsg, false, 0))
  {
  }

  lemma PutWindow(acts: seq<Act>, a: nat, x: Act)
    requires a < |acts|
    ensures Window(acts[a := x]) == Window(acts) - Pending(acts[a].pc) + Pending(x.pc)
  {
    WindowSplit(acts, a);
    WindowSplit(acts[a := x], a);
    assert Without(acts[a := x], a) == Without(acts, a);
  }

  lemma AppendWindow(acts: seq<Act>, x: Act)
    ensures Window(acts + [x]) == Window(acts) + Pending(x.pc)
  {
    assert (acts + [x])[..|acts|] == acts;
  }

  lemma FreeWindow(acts: seq<Act>, d: nat)
    requires d < |acts|
    ensures Window(FreeOne(acts, d)) == Window(acts)
  {
    PutWindow(acts, d, acts[d].(freed := acts[d].freed + 1));
  }

  lemma AppliedWindow(acts: seq<Act>, a: nat, e: Effect)
    requires a < |acts|
    ensures Window(Applied(acts, a, e)) == Window(acts) - Pending(acts[a].pc) + Pending(e.pc)
                                           + (if e.spawn.Spawn? then Pending(e.spawn.pc) else 0)
  {
    var acts1 := acts[a := Moved(acts[a], e)];
    PutWindow(acts, a, Moved(acts[a], e));
    if e.spawn.Spawn? {
      AppendWindow(acts1, Spawned(acts[a], e)[0]);
    } else {
      assert acts1 + Spawned(acts[a], e) == acts1;
    }
    if e.freed.Freed? && e.freed.delivery < |acts| { FreeWindow(acts1 + Spawned(acts[a], e), e.freed.delivery); }
  }

  lemma PutShares(m: nat, acts: seq<Act>, a: nat, x: Act)
    requires a < |acts| && x.load == acts[a].load
    ensures Shares(m, acts[a := x]) == Shares(m, acts) + (if x.load == Msg(m) then acts[a].freed - x.freed else 0)
  {
    SharesSplit(m, acts, a);
    SharesSplit(m, acts[a := x], a);
    assert Without(acts[a := x], a) == Without(acts, a);
  }

  lemma AppendShares(m: nat, acts: seq<Act>, x: Act)
    requires x.load == NoMsg
    ensures Shares(m, acts + [x]) == Shares(m, acts)
  {
    assert (acts + [x])[..|acts|] == acts;
  }

  lemma FreeShares(m: nat, acts: seq<Act>, d: nat)
    requires d < |acts|
    ensures Shares(m, FreeOne(acts, d)) == Shares(m, acts) - (if acts[d].load == Msg(m) then 1 else 0)
  {
    PutShares(m, acts, d, acts[d].(freed := acts[d].freed + 1));
  }

  /** Before the release: the activity has moved, and what it spawned carries no message. */
  lemma MovedShares(acts: seq<Act>, a: nat, e: Effect, m: nat)
    requires a < |acts|
    ensures Shares(m, acts[a := Moved(acts[a], e)] + Spawned(acts[a], e)) == Shares(m, acts)
  {
    var acts1 := acts[a := Moved(acts[a], e)];
    PutShares(m, acts, a, Moved(acts[a], e));
    if e.spawn.Spawn? {
      AppendShares(m, acts1, Spawned(acts[a], e)[0]);
    } else {
      assert acts1 + Spawned(acts[a], e) == acts1;
    }
  }

  lemma AppliedShares(acts: seq<Act>, a: nat, e: Effect, m: nat)
    requires a < |acts|
    ensures Shares(m, Applied(acts, a, e)) == Shares(m, acts)
              - (if e.freed.Freed? && e.freed.delivery < |acts| && acts[e.freed.delivery].load == Msg(m) then 1 else 0)
  {
    MovedShares(acts, a, e, m);
    if e.freed.Freed? && e.freed.delivery < |acts| {
      FreeShares(m, acts[a := Moved(acts[a], e)] + Spawned(acts[a], e), e.freed.delivery);
    }
  }

  // ---- a move keeps each part of the invariant

  lemma MoveKeepsSlots(s: State, a: nat, c: Choice)
    requires Fits(s) && Can(s, Move(a, c)) && ActsInv(s) && SlotsInv(s)
    ensures SlotsInv(DoMove(s, a, c))
  {
    var s' := DoMove(s, a, c);
    var act := s.acts[a];
    forall i | 0 <= i < |s'.slots| ensures SlotInv(s'.slots[i], Total(i, s'.acts)) {
      AppliedTotal(s.acts, a, EffectOf(s, a, c), i);
      if i == act.slot {
        TotalCoherent(i, Without(s.acts, a));
        StepKeepsSlot(s.slots[i], Total(i, Without(s.acts, a)), |s.acts| - 1, a, act.id, act.pc, c,
                      EffectOf(s, a, c));
      }
    }
  }

  lemma MoveKeepsActs(s: State, a: nat, c: Choice)
    requires Can(s, Move(a, c)) && ActsInv(s)
    ensures ActsInv(DoMove(s, a, c))
  {
    AppliedShape(s.acts, a, EffectOf(s, a, c));
  }

  lemma MoveKeepsPins(s: State, a: nat, c: Choice)
    requires Can(s, Move(a, c)) && ActsInv(s) && PinInv(s)
    ensures ActsInv(DoMove(s, a, c)) && PinInv(DoMove(s, a, c))
  {
    MoveKeepsActs(s, a, c);
    AppliedShape(s.acts, a, EffectOf(s, a, c));
    var act := s.acts[a];
    StepFrame(s.slots[act.slot], a, act.id, act.pc, c, EffectOf(s, a, c));
  }

  lemma MoveKeepsIds(s: State, a: nat, c: Choice)
    requires Can(s, Move(a, c)) && ActsInv(s) && IdInv(s)
    ensures IdInv(DoMove(s, a, c))
  {
  }

  /** What the slot invariant says about the stage of the slot an activity is about to act on. */
  lemma MoveStage(s: State, a: nat, c: Choice, e: Effect)
    requires Fits(s) && Can(s, Move(a, c)) && ActsInv(s) && SlotsInv(s)
    requires e == EffectOf(s, a, c)
    ensures var act := s.acts[a]; var sl := s.slots[act.slot];
      && (act.pc.RelPush? ==> sl.stage == Closed && e.slot.stage == Parked)
      && (!act.pc.RelPush? && e.slot.stage != sl.stage ==> sl.stage == Open && e.slot.stage == Closed)
      && (sl.stage == Taken ==> e.slot.sendFlag == sl.sendFlag)
  {
    var act := s.acts[a];
    var rest := Total(act.slot, Without(s.acts, a));
    TotalSplit(act.slot, s.acts, a);
    TotalCoherent(act.slot, Without(s.acts, a));
    StepStage(s.slots[act.slot], rest, |s.acts| - 1, a, act.id, act.pc, c, e);
  }

  lemma MoveKeepsIndices(s: State, a: nat, c: Choice)
    requires Fits(s) && Can(s, Move(a, c)) && ActsInv(s) && SlotsInv(s) && IdInv(s) && IndexInv(s)
    ensures IndexInv(DoMove(s, a, c))
  {
    var act := s.acts[a];
    var e := EffectOf(s, a, c);
    MoveStage(s, a, c, e);
    var s' := DoMove(s, a, c);
    assert s'.slots == s.slots[act.slot := e.slot];
    if act.pc.RelPush? {
      assert s'.free == [act.slot] + s.free;
      assert act.slot !in s.free;
    } else {
      assert s'.free == s.free;
    }
  }

  lemma MoveKeepsCount(s: State, a: nat, c: Choice)
    requires Can(s, Move(a, c)) && CountedInv(s)
    ensures CountedInv(DoMove(s, a, c))
  {
    StepFrame(s.slots[s.acts[a].slot], a, s.acts[a].id, s.acts[a].pc, c, EffectOf(s, a, c));
    AppliedWindow(s.acts, a, EffectOf(s, a, c));
  }

  // ---- messages

  /** Only a message that is owed is released, and it belongs to the slot that releases it. */
  lemma FreedIsOwed(s: State, a: nat, c: Choice, e: Effect)
    requires Can(s, Move(a, c)) && DeliveryInv(s)
    requires e == EffectOf(s, a, c)
    requires e.freed.Freed?
    ensures var act := s.acts[a]; var d := e.freed.delivery;
      && d < |s.acts| && s.acts[d].slot == act.slot && s.acts[d].load.Msg? && s.acts[d].freed == 0
      && (if act.pc.RejectMsg? then d == a else s.acts[d].given && !act.pc.Push?)
  {
    var act := s.acts[a];
    var sl := s.slots[act.slot];
    assert LoadInv(act);
    if Handles(act.pc) {
      StepFrees(sl, a, act.id, act.pc, c);
      assert InHand(sl, e.freed.delivery) == Owed(s.acts, act.slot, e.freed.delivery);
      assert LoadInv(s.acts[e.freed.delivery]);
    } else {
      StepFrame(sl, a, act.id, act.pc, c, e);
    }
  }

  lemma MoveKeepsLoads(s: State, a: nat, c: Choice, e: Effect)
    requires Can(s, Move(a, c)) && DeliveryInv(s)
    requires e == EffectOf(s, a, c)
    ensures forall b :: 0 <= b < |Applied(s.acts, a, e)| ==> LoadInv(Applied(s.acts, a, e)[b])
  {
    var act := s.acts[a];
    var sl := s.slots[act.slot];
    AppliedShape(s.acts, a, EffectOf(s, a, c));
    StepFrame(sl, a, act.id, act.pc, c, e);
    assert LoadInv(act);
    if e.freed.Freed? { FreedIsOwed(s, a, c, e); }
    var acts' := Applied(s.acts, a, e);
    forall b | 0 <= b < |acts'| ensures LoadInv(acts'[b]) {
      if b < |s.acts| { assert LoadInv(s.acts[b]); }
    }
  }

  /** What is owed of delivery `d` after a move that frees only what was owed. */
  lemma OwedAfter(acts: seq<Act>, a: nat, e: Effect, i: nat, d: nat)
    requires a < |acts| && LoadInv(acts[a])
    requires e.freed.Freed? ==> e.freed.delivery < |acts|
    ensures var acts' := Applied(acts, a, e);
      Owed(acts', i, d) ==
      if d < |acts| && acts[d].slot == i && acts'[d].given
      then 1 - acts[d].freed - (if e.freed == Freed(d) then 1 else 0)
      else 0
    ensures d < |acts| ==>
              (Applied(acts, a, e)[d].given <==>
                 acts[d].given || (d == a && acts[a].load.Msg? && (acts[a].pc.Push? || acts[a].pc.RejectMsg?)))
  {
    AppliedShape(acts, a, e);
  }

  /** The actions that move no message into or out of a slot. */
  lemma OthersKeepHands(s: State, a: nat, c: Choice, e: Effect, i: nat, d: nat)
    requires Can(s, Move(a, c)) && DeliveryInv(s) && i < |s.slots|
    requires e == EffectOf(s, a, c) && !Handles(s.acts[a].pc)
    ensures InHand(if i == s.acts[a].slot then e.slot else s.slots[i], d) == Owed(Applied(s.acts, a, e), i, d)
  {
    var act := s.acts[a];
    assert LoadInv(act);
    assert InHand(s.slots[i], d) == Owed(s.acts, i, d);
    if e.freed.Freed? { FreedIsOwed(s, a, c, e); }
    OwedAfter(s.acts, a, e, i, d);
    StepFrame(s.slots[act.slot], a, act.id, act.pc, c, e);
  }

  lemma MoveKeepsHands(s: State, a: nat, c: Choice, e: Effect, i: nat, d: nat)
    requires Can(s, Move(a, c)) && DeliveryInv(s) && i < |s.slots|
    requires e == EffectOf(s, a, c)
    ensures InHand(if i == s.acts[a].slot then e.slot else s.slots[i], d) == Owed(Applied(s.acts, a, e), i, d)
  {
    var act := s.acts[a];
    if Handles(act.pc) {
      assert LoadInv(act);
      assert InHand(s.slots[i], d) == Owed(s.acts, i, d);
      if e.freed.Freed? { FreedIsOwed(s, a, c, e); }
      OwedAfter(s.acts, a, e, i, d);
      StepHand(s.slots[act.slot], a, act.id, act.pc, c, e, d);
    } else {
      OthersKeepHands(s, a, c, e, i, d);
    }
  }

  lemma MoveKeepsDeliveries(s: State, a: nat, c: Choice)
    requires Can(s, Move(a, c)) && DeliveryInv(s)
    ensures DeliveryInv(DoMove(s, a, c))
  {
    var act := s.acts[a];
    var e := EffectOf(s, a, c);
    var s' := DoMove(s, a, c);
    MoveKeepsLoads(s, a, c, e);
    forall i, d: nat | 0 <= i < |s'.slots| ensures InHand(s'.slots[i], d) == Owed(s'.acts, i, d) {
      MoveKeepsHands(s, a, c, e, i, d);
    }
  }

  lemma MoveKeepsUses(s: State, a: nat, c: Choice)
    requires Can(s, Move(a, c)) && DeliveryInv(s) && UsesInv(s)
    ensures UsesInv(DoMove(s, a, c))
  {
    var act := s.acts[a];
    var e := EffectOf(s, a, c);
    AppliedShape(s.acts, a, EffectOf(s, a, c));
    if e.freed.Freed? { FreedIsOwed(s, a, c, e); }
    var s' := DoMove(s, a, c);
    forall m | m in s'.uses ensures s'.uses[m] == Shares(m, s'.acts) {
      AppliedShares(s.acts, a, e, m);
    }
  }

  lemma MoveKeepsInv(s: State, a: nat, c: Choice)
    requires Fits(s) && Can(s, Move(a, c)) && Inv(s)
    ensures Inv(DoMove(s, a, c))
  {
    MoveKeepsSlots(s, a, c);
    MoveKeepsPins(s, a, c);
    MoveKeepsIds(s, a, c);
    MoveKeepsIndices(s, a, c);
    MoveKeepsCount(s, a, c);
    MoveKeepsDeliveries(s, a, c);
    MoveKeepsUses(s, a, c);
  }

  /** What an activity starts runs on its session and under its ID, behind all others; it starts nothing else, and
      leaves every other activity where it is. */
  lemma StartsOne(s: State, a: nat, c: Choice)
    requires Can(s, Move(a, c))
    ensures var acts, acts', e := s.acts, Do(s, Move(a, c)).acts, EffectOf(s, a, c);
      && |acts'| == |acts| + (if e.spawn.Spawn? then 1 else 0)
      && (e.spawn.Spawn? ==> acts'[|acts|] == Act(acts[a].slot, e.spawn.pc, acts[a].id, NoMsg, false, 0))
      && acts'[a].pc == e.pc
      && forall b :: 0 <= b < |acts| ==>
           && acts'[b].slot == acts[b].slot && acts'[b].id == acts[b].id && acts'[b].load == acts[b].load
           && (b != a ==> acts'[b].pc == acts[b].pc)
  {
    AppliedShape(s.acts, a, EffectOf(s, a, c));
  }
}
