/** What one step of an activity leaves alone, whichever step it is: the facts that the results about the whole
    server use of `Step`. */
module Frames {
  import opened SessionStep

  /** Between a true SessionLock, or Disconnect's ID check, and the decrement. */
  predicate Pinned(p: Pc) { PushPc(p) || p.DiscKill? }

  /** A call that has not yet passed its message on. */
  predicate Carrying(p: Pc) {
    || p.LockInc? || p.LockCheck? || p.Push? || p.RejectMsg? || p == DropRef(Reject, true)
    || p == TryRelease(Reject) || p == PostRelease(Reject)
  }

  /** Past the test of the live bit, and not yet through with WSARecv or WSASend. */
  predicate Starting(p: Pc) { p.RecvInc? || p.RecvCall? || p.SendInc? || p.SendCall? }

  predicate Kills(p: Pc) { p.DiscKill? || p.RecvKill? || p.RecvErr? || p.SendErr? || p.RecvFin? }

  /** The decrements of the reference count. */
  predicate Drops(p: Pc) { p.StaleDrop? || p.DropRef? || p.Unlock? || p.RecvErrDec? || p.SendErrDec? }

  /** The activities that another one starts: completions owed by the operating system, and OnRecv's Disconnect. */
  predicate Begins(p: Pc) { p.SendPosted? || p.SendInFlight? || p.RecvPending? || p.ReleasePosted? || p.DiscInc? }

  /** The fields of the slot that only certain steps change. */
  ghost predicate Marks(sl: Slot, me: nat, p: Pc, e: Effect) {
    && SameOwner(sl, e.slot)
    && e.slot.pushed == (if p.Push? then sl.pushed + [me] else sl.pushed)
    && (!Handles(p) ==> SameMessages(sl, e.slot) && e.freed == if p.RejectMsg? then Freed(me) else None)
    && e.slot.posts == sl.posts + (if p.PostRelease? then 1 else 0)
    && e.slot.returned == sl.returned + (if p.RelPush? then 1 else 0)
    && (e.slot.ioCount == 0 ==> sl.ioCount == 0 || sl.ioCount == WORD - 1 || Drops(p))
    && e.slot.live == (sl.live && !Kills(p))
    && (p.RelPush? ==> e.slot.stage == Parked)
    && (!p.RelPush? && e.slot.stage != sl.stage ==> p.TryRelease? && sl.ioCount == 0 && e.slot.stage == Closed)
    && (e.slot.sendFlag != sl.sendFlag ==> p.ClaimFlag? || p.SendDrop? || p.SendRegain?)
  }

  /** Where the activity can be afterwards, and what it can have started. */
  ghost predicate Turns(sl: Slot, id: nat, p: Pc, e: Effect) {
    && (Pinned(e.pc) ==> Pinned(p) || sl.seqID == id)
    && (e.spawn.Spawn? ==> Begins(e.spawn.pc))
    && !e.pc.AcceptCount? && (e.pc.RelCount? <==> p.RelPush?)
    && (Starting(e.pc) ==> Starting(p) || sl.live)
    && (Carrying(e.pc) ==> Carrying(p) || p == DropRef(Reject, false))
    && (Carrying(p) && !Carrying(e.pc) ==> p.Push? || p.RejectMsg?)
    && (p.Push? || p.RejectMsg? ==> !Carrying(e.pc))
    && (e.pc == DropRef(Reject, false) ==> p == e.pc)
  }

  ghost predicate Frame(sl: Slot, me: nat, id: nat, p: Pc, e: Effect) { Marks(sl, me, p, e) && Turns(sl, id, p, e) }

  lemma LockFrame(sl: Slot, me: nat, id: nat, p: Pc, c: Choice)
    requires LockPc(p)
    ensures Frame(sl, me, id, p, LockStep(sl, me, id, p, c))
  {
  }

  lemma DropFrame(sl: Slot, me: nat, id: nat, p: Pc, c: Choice)
    requires DropPc(p)
    ensures Frame(sl, me, id, p, DropStep(sl, me, id, p, c))
  {
  }

  lemma PushFrame(sl: Slot, me: nat, id: nat, p: Pc, c: Choice)
    requires PushPc(p)
    ensures Frame(sl, me, id, p, PushStep(sl, me, id, p, c))
  {
  }

  lemma RecvMarks(sl: Slot, me: nat, id: nat, p: Pc, c: Choice)
    requires RecvPc(p)
    ensures Marks(sl, me, p, RecvStep(sl, me, id, p, c))
  {
  }

  lemma RecvTurns(sl: Slot, me: nat, id: nat, p: Pc, c: Choice)
    requires RecvPc(p)
    ensures Turns(sl, id, p, RecvStep(sl, me, id, p, c))
  {
  }

  lemma SendMarks(sl: Slot, me: nat, id: nat, p: Pc, c: Choice)
    requires SendPc(p)
    ensures Marks(sl, me, p, SendStep(sl, me, id, p, c))
  {
  }

  lemma SendTurns(sl: Slot, me: nat, id: nat, p: Pc, c: Choice)
    requires SendPc(p)
    ensures Turns(sl, id, p, SendStep(sl, me, id, p, c))
  {
  }

  lemma BatchMarks(sl: Slot, me: nat, id: nat, p: Pc, c: Choice)
    requires BatchPc(p)
    ensures Marks(sl, me, p, BatchStep(sl, me, id, p, c))
  {
  }

  lemma BatchTurns(sl: Slot, me: nat, id: nat, p: Pc, c: Choice)
    requires BatchPc(p)
    ensures Turns(sl, id, p, BatchStep(sl, me, id, p, c))
  {
  }

  lemma TeardownMarks(sl: Slot, me: nat, id: nat, p: Pc, c: Choice)
    requires TeardownPc(p)
    ensures Marks(sl, me, p, TeardownStep(sl, me, id, p, c))
  {
  }

  lemma TeardownTurns(sl: Slot, me: nat, id: nat, p: Pc, c: Choice)
    requires TeardownPc(p)
    ensures Turns(sl, id, p, TeardownStep(sl, me, id, p, c))
  {
  }

  lemma StepFrame(sl: Slot, me: nat, id: nat, p: Pc, c: Choice, e: Effect)
    requires e == Step(sl, me, id, p, c)
    ensures Frame(sl, me, id, p, e)
  {
    if LockPc(p) {
      LockFrame(sl, me, id, p, c);
    } else if DropPc(p) {
      DropFrame(sl, me, id, p, c);
    } else if PushPc(p) {
      PushFrame(sl, me, id, p, c);
    } else if RecvPc(p) {
      RecvMarks(sl, me, id, p, c);
      RecvTurns(sl, me, id, p, c);
    } else if SendPc(p) {
      SendMarks(sl, me, id, p, c);
      SendTurns(sl, me, id, p, c);
    } else if BatchPc(p) {
      BatchMarks(sl, me, id, p, c);
      BatchTurns(sl, me, id, p, c);
    } else {
      TeardownMarks(sl, me, id, p, c);
      TeardownTurns(sl, me, id, p, c);
    }
  }
}
