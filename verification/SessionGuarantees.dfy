/** Recycled slots, releases and stranded sessions, over whole runs. */
module SessionGuarantees {
  import opened Frames
  import opened SessionStep
  import opened Server
  import opened ServerInv
  import opened ServerMove
  import opened ServerRun
  import opened CountGuarantees

  // ---- recycled slots

  /** Slot `i` was opened for the `g`-th time under `id`, or has been reopened under a younger one. */
  ghost predicate Younger(s: State, i: nat, id: nat, g: nat) {
    && i < |s.slots| && s.slots[i].accepts >= g && id % BIT47 < |s.issued|
    && (s.slots[i].accepts == g && s.accept != Counting(i) ==> s.slots[i].seqID == id)
    && (s.slots[i].accepts > g || s.accept == Counting(i) ==> s.slots[i].seqID % BIT47 > id % BIT47)
  }

  lemma MoveKeepsYounger(s: State, a: nat, c: Choice, i: nat, id: nat, g: nat)
    requires Inv(s) && Can(s, Move(a, c)) && Younger(s, i, id, g)
    ensures Younger(DoMove(s, a, c), i, id, g)
  {
    var act := s.acts[a];
    assert SameOwner(s.slots[act.slot], EffectOf(s, a, c).slot);
  }

  lemma AcceptKeepsYounger(s: State, i: nat, id: nat, g: nat)
    requires Inv(s) && Fits(s) && Can(s, AcceptMove) && Younger(s, i, id, g)
    ensures Younger(DoAccept(s), i, id, g)
  {
    AcceptShape(s);
    if s.accept.Naming? { NewIdParts(s, s.accept.idx); }
  }

  lemma StepKeepsYounger(s: State, x: Action, i: nat, id: nat, g: nat)
    requires Inv(s) && Fits(s) && Can(s, x) && Younger(s, i, id, g)
    ensures Younger(Do(s, x), i, id, g)
  {
    if x.Move? {
      MoveKeepsYounger(s, x.a, x.c, i, id, g);
    } else if x.AcceptMove? {
      AcceptKeepsYounger(s, i, id, g);
    }
  }

  lemma {:induction false} RunKeepsYounger(s: State, w: seq<Action>, i: nat, id: nat, g: nat)
    requires Inv(s) && Path(s, w) && Younger(s, i, id, g)
    ensures Younger(Exec(s, w), i, id, g)
  {
    if w != [] {
      var n := |w| - 1;
      RunKeepsYounger(s, w[..n], i, id, g);
      RunKeepsInv(s, w[..n]);
      StepKeepsYounger(Exec(s, w[..n]), w[n], i, id, g);
    }
  }

  /** The ID names its slot, and once the slot has been accepted again the old ID locks nothing. */
  lemma StaleIdNeverLocks(s: State, w: seq<Action>, i: nat, a: nat)
    requires Reachable(s) && Path(s, w) && Fits(Exec(s, w)) && WasAccepted(s, i)
    requires s.slots[i].stage == Open || s.slots[i].stage == Closed
    requires i < |Exec(s, w).slots| && Exec(s, w).slots[i].accepts > s.slots[i].accepts
    requires a < |Exec(s, w).acts| && Exec(s, w).acts[a].id == s.slots[i].seqID
    ensures s.slots[i].seqID / BIT47 == i
    ensures Exec(s, w).acts[a].slot == i ==> !Pinned(Exec(s, w).acts[a].pc)
  {
    ReachableInv(s);
    var id := s.slots[i].seqID;
    assert id in s.issued;
    RunKeepsYounger(s, w, i, id, s.slots[i].accepts);
    RunKeepsInv(s, w);
  }

  // ---- release exactly once

  /** Every accept is followed by at most one release post, and every post by at most one index push,
      before the next accept. */
  lemma ReleasedOnce(s: State, i: nat)
    requires Reachable(s) && i < |s.slots|
    ensures var sl := s.slots[i]; sl.returned <= sl.posts <= sl.accepts <= sl.returned + 1
  {
    ReachableInv(s);
    TotalCoherent(i, s.acts);
    assert SlotInv(s.slots[i], Total(i, s.acts));
  }

  // ---- stranded sessions

  /** The count is 0, the released bit is clear, and nobody is about to attempt the release CAS. */
  ghost predicate Stranded(sl: Slot, t: Sums) { sl.accepts > 0 && sl.ioCount == 0 && t.due == 0 }

  ghost predicate StrandsHere(sl: Slot, rest: Sums, p: Pc) { p.StaleDrop? && sl.ioCount == 1 && rest.due == 0 }

  lemma DropStrands(sl: Slot, rest: Sums, n: nat, me: nat, id: nat, p: Pc, c: Choice)
    requires DropPc(p) && Before(sl, rest, n, p) && !Stranded(sl, Plus(rest, p))
    ensures var e := DropStep(sl, me, id, p, c); Stranded(e.slot, Around(rest, e)) <==> StrandsHere(sl, rest, p)
  {
  }

  lemma LockStrands(sl: Slot, rest: Sums, n: nat, me: nat, id: nat, p: Pc, c: Choice)
    requires LockPc(p) && Before(sl, rest, n, p) && !Stranded(sl, Plus(rest, p))
    ensures var e := LockStep(sl, me, id, p, c); !Stranded(e.slot, Around(rest, e))
  {
  }

  lemma OtherStrands(sl: Slot, rest: Sums, n: nat, me: nat, id: nat, p: Pc, c: Choice, e: Effect)
    requires !DropPc(p) && !LockPc(p) && Before(sl, rest, n, p) && !Stranded(sl, Plus(rest, p))
    requires e == Step(sl, me, id, p, c)
    ensures !Stranded(e.slot, Around(rest, e))
  {
    StepFrame(sl, me, id, p, c, e);
    if e.slot.ioCount == 0 && sl.ioCount != 0 { UnlockIsDue(sl, me, id, p, c, e); }
  }

  lemma UnlockIsDue(sl: Slot, me: nat, id: nat, p: Pc, c: Choice, e: Effect)
    requires p.Unlock? && e == Step(sl, me, id, p, c)
    ensures e.pc.TryRelease? && e.spawn == Nothing
  {
    assert e == PushStep(sl, me, id, p, c);
  }

  lemma StepStrands(sl: Slot, rest: Sums, n: nat, me: nat, id: nat, p: Pc, c: Choice, e: Effect)
    requires Before(sl, rest, n, p) && !Stranded(sl, Plus(rest, p)) && e == Step(sl, me, id, p, c)
    ensures Stranded(e.slot, Around(rest, e)) <==> StrandsHere(sl, rest, p)
  {
    if DropPc(p) {
      DropStrands(sl, rest, n, me, id, p, c);
    } else if LockPc(p) {
      LockStrands(sl, rest, n, me, id, p, c);
    } else {
      OtherStrands(sl, rest, n, me, id, p, c, e);
    }
  }

  ghost predicate StrandedSlot(s: State, i: nat) { i < |s.slots| && Stranded(s.slots[i], Total(i, s.acts)) }

  lemma {:induction false} NobodyDue(i: nat, acts: seq<Act>)
    ensures Total(i, acts).due == 0 <==> forall a :: 0 <= a < |acts| && acts[a].slot == i ==> !acts[a].pc.TryRelease?
  {
    if acts != [] {
      var n := |acts| - 1;
      NobodyDue(i, acts[..n]);
      forall a | 0 <= a < n ensures acts[a] == acts[..n][a] {}
    }
  }

  ghost predicate StaleDropStrands(s: State, x: Action, i: nat)
    requires Can(s, x)
  {
    && x.Move? && s.acts[x.a].slot == i && s.acts[x.a].pc == StaleDrop
    && s.slots[i].ioCount == 1 && Total(i, s.acts).due == 0
  }

  lemma MoveStrands(s: State, a: nat, c: Choice, i: nat)
    requires Inv(s) && Fits(s) && Can(s, Move(a, c)) && i < |s.slots| && !StrandedSlot(s, i)
    ensures StrandedSlot(DoMove(s, a, c), i) <==> StaleDropStrands(s, Move(a, c), i)
  {
    var act := s.acts[a];
    var sl := s.slots[act.slot];
    AppliedTotal(s.acts, a, EffectOf(s, a, c), i);
    if act.slot == i {
      var rest := Total(i, Without(s.acts, a));
      TotalCoherent(i, Without(s.acts, a));
      StepStrands(sl, rest, |s.acts| - 1, a, act.id, act.pc, c, EffectOf(s, a, c));
    }
  }

  lemma AcceptStrands(s: State, i: nat)
    requires Inv(s) && Can(s, AcceptMove) && i < |s.slots| && !StrandedSlot(s, i)
    ensures !StrandedSlot(DoAccept(s), i)
  {
    AcceptShape(s);
    if s.accept.Counting? {
      AppendTotal(i, s.acts, Act(s.accept.idx, AcceptCount, s.slots[s.accept.idx].seqID, NoMsg, false, 0));
    }
  }

  lemma {:induction false} SendTotals(s: State, ids: seq<nat>, m: nat, i: nat)
    requires Can(s, Send(ids, m))
    ensures Total(i, Do(s, Send(ids, m)).acts) == Total(i, s.acts)
  {
    if ids == [] {
      assert s.acts + Deliveries(ids, m) == s.acts;
    } else {
      var n := |ids| - 1;
      SendUnfold(s, ids, m);
      SendTotals(s, ids[..n], m, i);
      JoinTotal(i, Do(s, Send(ids[..n], m)).acts, Act(ids[n] / BIT47, LockInc, ids[n], Msg(m), false, 0));
    }
  }

  /** A session becomes stranded in exactly one way: Disconnect's mismatched-ID branch drops the last
      reference while nobody is due to attempt the release CAS. */
  lemma StrandsExactly(s: State, x: Action, i: nat)
    requires Reachable(s) && Can(s, x) && i < |s.slots| && !StrandedSlot(s, i)
    ensures StrandedSlot(Do(s, x), i) <==> StaleDropStrands(s, x, i)
  {
    ReachableInv(s);
    match x
    case Move(a, c) => MoveStrands(s, a, c, i);
    case AcceptMove => AcceptStrands(s, i);
    case Send(ids, m) => SendTotals(s, ids, m, i);
    case Disconnect(id) => JoinTotal(i, s.acts, Act(id / BIT47, DiscInc, id, NoMsg, false, 0));
  }

  /** No Disconnect decrements in its mismatched-ID branch along `w`. */
  ghost predicate NoStaleDrop(s: State, w: seq<Action>)
    requires Path(s, w)
  {
    w == [] || (var n := |w| - 1;
                && NoStaleDrop(s, w[..n])
                && !(w[n].Move? && Exec(s, w[..n]).acts[w[n].a].pc == StaleDrop))
  }

  lemma PathPrefix(s: State, w: seq<Action>)
    requires Path(s, w) && w != [] && Init(s)
    ensures Reachable(Exec(s, w[..|w| - 1]))
  {
  }

  lemma StaysSound(s: State, x: Action, i: nat)
    requires Reachable(s) && Can(s, x) && !StrandedSlot(s, i) && !(x.Move? && s.acts[x.a].pc == StaleDrop)
    ensures !StrandedSlot(Do(s, x), i)
  {
    if i < |s.slots| { StrandsExactly(s, x, i); }
  }

  /** Without such a decrement no session is ever stranded. */
  lemma {:induction false} NeverStranded(s: State, w: seq<Action>, i: nat)
    requires Init(s) && Path(s, w) && NoStaleDrop(s, w)
    ensures !StrandedSlot(Exec(s, w), i)
  {
    if w != [] {
      var n := |w| - 1;
      NeverStranded(s, w[..n], i);
      PathPrefix(s, w);
      StaysSound(Exec(s, w[..n]), w[n], i);
    }
  }

  /** Only the operating system still owes something: completions of I/O and of posts. */
  predicate Waiting(p: Pc) { p.RecvPending? || p.SendPosted? || p.SendInFlight? || p.ReleasePosted? || p.Done? }

  lemma {:induction false} AllWaiting(i: nat, acts: seq<Act>)
    requires forall a :: 0 <= a < |acts| ==> Waiting(acts[a].pc)
    ensures var t := Total(i, acts); t.due == 0 && t.chain == t.posted && t.wake == 0
    ensures Total(i, acts).posted >= 1 ==>
              exists a :: 0 <= a < |acts| && acts[a].slot == i && acts[a].pc == ReleasePosted
  {
    if acts != [] { AllWaiting(i, acts[..|acts| - 1]); }
  }

  /** At quiescence every accepted session that is not stranded is referenced by outstanding operations, or its
      release is posted, or its index is back on the stack or with the accept thread. */
  lemma Quiescent(s: State, i: nat)
    requires Reachable(s) && WasAccepted(s, i) && !StrandedSlot(s, i)
    requires forall a :: 0 <= a < |s.acts| ==> Waiting(s.acts[a].pc)
    ensures || s.slots[i].ioCount == Total(i, s.acts).refs > 0
            || (exists a :: 0 <= a < |s.acts| && s.acts[a].slot == i && s.acts[a].pc == ReleasePosted)
            || i in s.free || (!s.accept.Waiting? && s.accept.idx == i)
  {
    ReachableInv(s);
    assert SlotInv(s.slots[i], Total(i, s.acts));
    AllWaiting(i, s.acts);
  }
}
