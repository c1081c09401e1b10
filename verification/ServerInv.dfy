/** The server invariant, kept by every atomic action of every thread. */
module ServerInv {
  import opened Frames
  import opened SessionStep
  import opened Server

  // ---- the invariant

  ghost predicate ActsInv(s: State) {
    forall a :: 0 <= a < |s.acts| ==> s.acts[a].slot < |s.slots| && s.slots[s.acts[a].slot].accepts > 0
  }

  ghost predicate SlotsInv(s: State) {
    forall i :: 0 <= i < |s.slots| ==> SlotInv(s.slots[i], Total(i, s.acts))
  }

  ghost predicate PinInv(s: State)
    requires ActsInv(s)
  {
    forall a :: 0 <= a < |s.acts| && Pinned(s.acts[a].pc) ==> s.slots[s.acts[a].slot].seqID == s.acts[a].id
  }

  /** Session IDs: the index above bit 47, below it a counter that never repeats. */
  ghost predicate IdInv(s: State) {
    && (forall k :: 0 <= k < |s.issued| ==> s.issued[k] / BIT47 < |s.slots| && s.issued[k] % BIT47 == k)
    && (forall i :: 0 <= i < |s.slots| && (s.slots[i].accepts > 0 || s.accept == Counting(i)) ==>
          s.slots[i].seqID / BIT47 == i && s.slots[i].seqID in s.issued)
  }

  /** The index stack, the accept thread's hand, and the slots in use share out the indices. */
  ghost predicate IndexInv(s: State) {
    && (forall k :: 0 <= k < |s.free| ==> s.free[k] < |s.slots|)
    && (forall k, l :: 0 <= k < l < |s.free| ==> s.free[k] != s.free[l])
    && (forall i :: 0 <= i < |s.slots| ==> (i in s.free <==> s.slots[i].stage == Parked))
    && (forall i :: 0 <= i < |s.slots| ==>
          ((!s.accept.Waiting? && s.accept.idx == i) <==> s.slots[i].stage == Taken))
    && (!s.accept.Waiting? ==> s.accept.idx < |s.slots|)
    && (s.accept.Naming? || s.accept.Counting? ==> !s.slots[s.accept.idx].sendFlag)
  }

  ghost predicate CountedInv(s: State) {
    |s.free| + s.sessionCount + Window(s.acts) + (if s.accept.Waiting? then 0 else 1) == |s.slots|
  }

  ghost predicate LoadInv(act: Act) {
    && (act.load == NoMsg ==> !act.given && !Carrying(act.pc))
    && (act.load.Msg? ==> (act.given <==> !Carrying(act.pc)))
    && act.freed <= (if act.given then 1 else 0)
    && act.pc != DropRef(Reject, false)
  }

  /** Where delivery `d` is in the slot: its entries in the queue and in the send batch. */
  function InHand(sl: Slot, d: nat): nat { multiset(sl.queue)[d] + multiset(sl.batch)[d] }

  /** Where it should be: there once from the moment it is given until it is released. */
  function Owed(acts: seq<Act>, i: nat, d: nat): int {
    if d < |acts| && acts[d].slot == i && acts[d].given then 1 - acts[d].freed else 0
  }

  ghost predicate DeliveryInv(s: State) {
    && (forall a :: 0 <= a < |s.acts| ==> LoadInv(s.acts[a]))
    && (forall i, d: nat :: 0 <= i < |s.slots| ==> InHand(s.slots[i], d) == Owed(s.acts, i, d))
  }

  ghost predicate UsesInv(s: State) {
    && (forall a :: 0 <= a < |s.acts| && s.acts[a].load.Msg? ==> s.acts[a].load.m in s.uses)
    && (forall m :: m in s.uses ==> s.uses[m] == Shares(m, s.acts))
  }

  ghost predicate Inv(s: State) {
    && ActsInv(s) && SlotsInv(s) && PinInv(s) && IdInv(s) && IndexInv(s) && CountedInv(s)
    && DeliveryInv(s) && UsesInv(s)
  }

  // ---- what one step does to the parts of a slot

  /** The index push ends a release, a won release CAS begins one, and the flag moves only in an open connection. */
  lemma StepStage(sl: Slot, t: Sums, n: nat, me: nat, id: nat, p: Pc, c: Choice, e: Effect)
    requires Before(sl, t, n, p) && e == Step(sl, me, id, p, c)
    ensures p.RelPush? ==> sl.stage == Closed && e.slot.stage == Parked
    ensures !p.RelPush? && e.slot.stage != sl.stage ==> sl.stage == Open && e.slot.stage == Closed
    ensures sl.stage == Taken ==> e.slot.sendFlag == sl.sendFlag
  {
    StepFrame(sl, me, id, p, c, e);
  }

  lemma PopFront(q: seq<nat>, d: nat)
    requires q != []
    ensures multiset(q)[d] == multiset(q[1..])[d] + (if d == q[0] then 1 else 0)
  {
    assert q == [q[0]] + q[1..];
  }

  lemma PushBack(q: seq<nat>, x: nat, d: nat)
    ensures multiset(q + [x])[d] == multiset(q)[d] + (if d == x then 1 else 0)
  {
  }

  ghost predicate HandStep(sl: Slot, me: nat, p: Pc, e: Effect, d: nat) {
    InHand(e.slot, d) == InHand(sl, d) + (if p.Push? && d == me then 1 else 0) - (if e.freed == Freed(d) then 1 else 0)
  }

  lemma PushHand(sl: Slot, me: nat, id: nat, p: Pc, c: Choice, d: nat)
    requires p.Push?
    ensures HandStep(sl, me, p, PushStep(sl, me, id, p, c), d)
  {
    PushBack(sl.queue, me, d);
  }

  lemma QueueHand(sl: Slot, me: nat, id: nat, p: Pc, c: Choice, d: nat)
    requires p.RelQueue?
    ensures HandStep(sl, me, p, TeardownStep(sl, me, id, p, c), d)
  {
    if sl.queue != [] { PopFront(sl.queue, d); }
  }

  lemma FreeHand(sl: Slot, me: nat, id: nat, p: Pc, c: Choice, d: nat)
    requires p.SendFree?
    ensures HandStep(sl, me, p, SendStep(sl, me, id, p, c), d)
  {
    if sl.batch != [] { PopFront(sl.batch, d); }
  }

  lemma BatchHand(sl: Slot, me: nat, id: nat, p: Pc, c: Choice, d: nat)
    requires p.RelBatch?
    ensures HandStep(sl, me, p, TeardownStep(sl, me, id, p, c), d)
  {
    if sl.batch != [] { PopFront(sl.batch, d); }
  }

  lemma CollectHand(sl: Slot, me: nat, id: nat, p: Pc, c: Choice, d: nat)
    requires p.SendCollect?
    ensures HandStep(sl, me, p, BatchStep(sl, me, id, p, c), d)
  {
    if sl.queue != [] {
      PopFront(sl.queue, d);
      PushBack(sl.batch, sl.queue[0], d);
    }
  }

  /** Entries enter a slot's hands by Push and leave it when they are freed. */
  lemma StepHand(sl: Slot, me: nat, id: nat, p: Pc, c: Choice, e: Effect, d: nat)
    requires Handles(p) && e == Step(sl, me, id, p, c)
    ensures HandStep(sl, me, p, e, d)
  {
    if p.Push? {
      assert e == PushStep(sl, me, id, p, c);
      PushHand(sl, me, id, p, c, d);
    } else if p.SendFree? {
      assert e == SendStep(sl, me, id, p, c);
      FreeHand(sl, me, id, p, c, d);
    } else if p.SendCollect? {
      assert e == BatchStep(sl, me, id, p, c);
      CollectHand(sl, me, id, p, c, d);
    } else if p.RelQueue? {
      assert e == TeardownStep(sl, me, id, p, c);
      QueueHand(sl, me, id, p, c, d);
    } else {
      assert e == TeardownStep(sl, me, id, p, c);
      BatchHand(sl, me, id, p, c, d);
    }
  }

  lemma StepFrees(sl: Slot, me: nat, id: nat, p: Pc, c: Choice)
    requires Handles(p)
    ensures var f := Step(sl, me, id, p, c).freed;
      f.Freed? ==> InHand(sl, f.delivery) >= 1 && !p.Push?
  {
  }

  // ---- what one move does to the sums

  lemma PlusSwap(t: Sums, p: Pc, q: Pc)
    ensures Plus(Plus(t, p), q) == Plus(Plus(t, q), p)
  {
  }

  lemma FreeTotal(i: nat, acts: seq<Act>, d: nat)
    requires d < |acts|
    ensures Total(i, FreeOne(acts, d)) == Total(i, acts)
  {
    TotalSplit(i, acts, d);
    TotalSplit(i, FreeOne(acts, d), d);
    assert Without(FreeOne(acts, d), d) == Without(acts, d);
  }

  lemma PutTotal(i: nat, acts: seq<Act>, a: nat, x: Act)
    requires a < |acts| && x.slot == acts[a].slot
    ensures Total(i, acts[a := x]) == if x.slot == i then Plus(Total(i, Without(acts, a)), x.pc)
                                      else Total(i, Without(acts, a))
  {
    TotalSplit(i, acts[a := x], a);
    assert Without(acts[a := x], a) == Without(acts, a);
  }

  lemma AppendTotal(i: nat, acts: seq<Act>, x: Act)
    ensures Total(i, acts + [x]) == if x.slot == i then Plus(Total(i, acts), x.pc) else Total(i, acts)
  {
    assert (acts + [x])[..|acts|] == acts;
  }

  lemma AppliedTotal(acts: seq<Act>, a: nat, e: Effect, i: nat)
    requires a < |acts|
    ensures var rest := Total(i, Without(acts, a));
      && Total(i, acts) == (if acts[a].slot == i then Plus(rest, acts[a].pc) else rest)
      && Total(i, Applied(acts, a, e)) == (if acts[a].slot == i then Around(rest, e) else rest)
  {
    var rest := Total(i, Without(acts, a));
    TotalSplit(i, acts, a);
    var acts1 := acts[a := Moved(acts[a], e)];
    PutTotal(i, acts, a, Moved(acts[a], e));
    var acts2 := acts1 + Spawned(acts[a], e);
    if e.spawn.Spawn? {
      AppendTotal(i, acts1, Spawned(acts[a], e)[0]);
      PlusSwap(rest, e.spawn.pc, e.pc);
    } else {
      assert acts2 == acts1;
    }
    if e.freed.Freed? && e.freed.delivery < |acts| { FreeTotal(i, acts2, e.freed.delivery); }
  }
}
