/** Whole calls of the receive path on one session: RecvPacket, RecvComplete, what the accept thread does behind
    OnAccept, and ReleaseComplete; and that the atomic steps of one activity alone do just that. */
module ReceiveCalls {
  import opened SessionStep
  import opened SessionCalls

  // ---- what a whole call does

  /** RecvPacket, on a ring that is `full` or not, with a WSARecv that `fails` or not: either a receive is pending, and
      counted, or the session is dead. */
  ghost predicate Packets(sl: Slot, full: bool, fails: bool, pending: bool, sl': Slot) {
    && (pending <==> sl.live && !full && !fails)
    && sl' == if pending then sl.(ioCount := Inc(sl.ioCount)) else sl.(live := false)
  }

  /** How the loop over the ring ends: with RecvPacket, on a bad checksum, or in Disconnect, a call of its own. */
  datatype Loop = Drained | BadSum | Disconnected

  /** RecvComplete, of a completion with bytes or without, and the reference given up behind it. */
  ghost predicate Completes(sl: Slot, bytes: bool, loop: Loop, full: bool, fails: bool, pending: bool, posted: bool,
                            sl': Slot) {
    && (pending <==> sl.live && bytes && loop == Drained && !full && !fails)
    && Unlocks(if pending then sl.(ioCount := Inc(sl.ioCount))
               else sl.(live := sl.live && bytes && loop == Disconnected),
               posted, sl')
  }

  /** The accept thread behind `m_ioCount = 1`: the first receive, if OnAccept agrees, and its reference given up. */
  ghost predicate Enters(sl: Slot, agreed: bool, full: bool, fails: bool, pending: bool, posted: bool, sl': Slot) {
    && (pending <==> agreed && sl.live && !full && !fails)
    && Unlocks(if pending then sl.(ioCount := Inc(sl.ioCount)) else sl.(live := sl.live && !agreed), posted, sl')
  }

  /** ReleaseComplete: every message left is released, and the index returned. */
  ghost predicate Returns(sl: Slot, freed: seq<nat>, sl': Slot) {
    && freed == sl.queue + sl.batch
    && sl' == sl.(queue := [], batch := [], stage := Parked, returned := sl.returned + 1)
  }

  /** A connection just let in, with its one reference: its first receive is posted, and it lives; or it is released. */
  lemma FirstReceive(sl: Slot, agreed: bool, full: bool, fails: bool, pending: bool, posted: bool, sl': Slot)
    requires sl.ioCount == 1 && sl.live && Enters(sl, agreed, full, fails, pending, posted, sl')
    ensures pending <==> agreed && !full && !fails
    ensures if pending then !posted && sl' == sl.(staleZero := false)
            else posted && sl' == Released(sl).(live := !agreed)
  {
  }

  /** A completion with nothing more to receive leaves the session dead, and posts its release if nobody holds it. */
  lemma LastReceive(sl: Slot, bytes: bool, full: bool, fails: bool, pending: bool, posted: bool, sl': Slot)
    requires sl.ioCount >= 1 && Completes(sl, bytes, Drained, full, fails, pending, posted, sl')
    ensures !bytes ==> !pending
    ensures !pending ==> !sl'.live && (posted <==> sl.ioCount == 1)
    ensures pending ==> sl'.live && !posted
  {
  }

  /** The receiving side as an object says the same of a ring of `size` bytes that holds `held`: it lives and has a
      receive outstanding if and only if it lived, had room, and WSARecv did not fail. */
  lemma PacketsOfRing(sl: Slot, held: nat, size: nat, fails: bool, pending: bool, sl': Slot)
    requires held < size && Packets(sl, held == size - 1, fails, pending, sl')
    ensures sl'.live == pending == (sl.live && held < size - 1 && !fails)
  {
  }

  // ---- one activity alone

  lemma RecvIsStep(sl: Slot, me: nat, id: nat, p: Pc, c: Choice, e: Effect)
    requires RecvPc(p) && e == RecvStep(sl, me, id, p, c)
    ensures e == Step(sl, me, id, p, c)
  {
  }

  lemma RecvGoes(sl: Slot, me: nat, id: nat, p: Pc, f: Pc -> Choice, t: Trail, e: Effect)
    requires Leads(sl, me, id, p, f, t) && RecvPc(t.pc) && e == RecvStep(t.slot, me, id, t.pc, f(t.pc))
    ensures Leads(sl, me, id, p, f, Grown(t, e))
  {
    RecvIsStep(t.slot, me, id, t.pc, f(t.pc), e);
    Goes(sl, me, id, p, f, t, e);
  }

  lemma Dies(sl: Slot, me: nat, id: nat, p: Pc, f: Pc -> Choice, t: Trail)
    requires Leads(sl, me, id, p, f, t) && t.pc.RecvKill?
    ensures Leads(sl, me, id, p, f, t.(slot := t.slot.(live := false), pc := DropRef(Finish, false)))
  {
    RecvGoes(sl, me, id, p, f, t, To(t.slot.(live := false), DropRef(Finish, false)));
  }

  /** WSARecv and WSARecvError, behind the test of the live bit. */
  lemma Receives(sl: Slot, me: nat, id: nat, p: Pc, f: Pc -> Choice, t: Trail) returns (t': Trail)
    requires Leads(sl, me, id, p, f, t) && t.pc.RecvInc? && t.slot.ioCount < WORD
    ensures Leads(sl, me, id, p, f, t') && t'.pc == DropRef(Finish, false) && t'.freed == t.freed
    ensures if f(RecvCall) == First
            then t'.spawned == t.spawned + [RecvPending] && t'.slot == t.slot.(ioCount := Inc(t.slot.ioCount))
            else t'.spawned == t.spawned && t'.slot == t.slot.(live := false)
  {
    var more := t.slot.(ioCount := Inc(t.slot.ioCount));
    RecvGoes(sl, me, id, p, f, t, To(more, RecvCall));
    t' := t.(slot := more, pc := RecvCall);
    if f(RecvCall) == First {
      RecvGoes(sl, me, id, p, f, t', Effect(more, DropRef(Finish, false), Spawn(RecvPending), None));
      t' := t'.(pc := DropRef(Finish, false), spawned := t.spawned + [RecvPending]);
    } else {
      RecvGoes(sl, me, id, p, f, t', To(more, RecvErr));
      t' := ReceiveFails(sl, me, id, p, f, t'.(pc := RecvErr));
    }
  }

  lemma ReceiveFails(sl: Slot, me: nat, id: nat, p: Pc, f: Pc -> Choice, t: Trail) returns (t': Trail)
    requires Leads(sl, me, id, p, f, t) && t.pc.RecvErr?
    ensures Leads(sl, me, id, p, f, t')
    ensures t' == t.(slot := t.slot.(live := false, ioCount := Dec(t.slot.ioCount)), pc := DropRef(Finish, false))
  {
    var dead := t.slot.(live := false);
    RecvGoes(sl, me, id, p, f, t, To(dead, RecvErrDec));
    RecvGoes(sl, me, id, p, f, t.(slot := dead, pc := RecvErrDec),
             To(dead.(ioCount := Dec(dead.ioCount)), DropRef(Finish, false)));
    t' := t.(slot := dead.(ioCount := Dec(dead.ioCount)), pc := DropRef(Finish, false));
  }

  function Pends(pending: bool): seq<Pc> { if pending then [RecvPending] else [] }

  /** The steps of RecvPacket alone are RecvPacket. */
  lemma PacketAlone(sl: Slot, me: nat, id: nat, p: Pc, f: Pc -> Choice, t: Trail) returns (t': Trail)
    requires Leads(sl, me, id, p, f, t) && t.pc.RecvPost? && t.slot.ioCount < WORD
    ensures Leads(sl, me, id, p, f, t') && t'.pc == DropRef(Finish, false) && t'.freed == t.freed
    ensures var full, fails := f(RecvPost) != First, f(RecvCall) != First;
      var pending := t.slot.live && !full && !fails;
      t'.spawned == t.spawned + Pends(pending) && Packets(t.slot, full, fails, pending, t'.slot)
  {
    assert t.spawned + [] == t.spawned;
    if f(RecvPost) != First {
      RecvGoes(sl, me, id, p, f, t, To(t.slot, RecvKill));
      Dies(sl, me, id, p, f, t.(pc := RecvKill));
      t' := t.(slot := t.slot.(live := false), pc := DropRef(Finish, false));
    } else if t.slot.live {
      RecvGoes(sl, me, id, p, f, t, To(t.slot, RecvInc));
      t' := Receives(sl, me, id, p, f, t.(pc := RecvInc));
    } else {
      RecvGoes(sl, me, id, p, f, t, To(t.slot, DropRef(Finish, false)));
      t' := t.(pc := DropRef(Finish, false));
    }
  }

  /** How the loop ends. */
  function LoopOf(c: Choice): Loop {
    match c
    case First => Drained
    case Second => BadSum
    case Third => Disconnected
  }

  /** A completion without bytes kills the session before anything else. */
  lemma SeesBytes(sl: Slot, me: nat, id: nat, f: Pc -> Choice)
    ensures var bytes := f(RecvPending) == First;
      Leads(sl, me, id, RecvPending, f, Trail(sl.(live := sl.live && bytes), RecvBody, [], []))
  {
    var t := Trail(sl, RecvPending, [], []);
    Stay(sl, me, id, RecvPending, f);
    if f(RecvPending) == First {
      RecvGoes(sl, me, id, RecvPending, f, t, To(sl, RecvBody));
    } else {
      RecvGoes(sl, me, id, RecvPending, f, t, To(sl, RecvFin));
      RecvGoes(sl, me, id, RecvPending, f, t.(pc := RecvFin), To(sl.(live := false), RecvBody));
    }
  }

  /** The loop, and RecvPacket if it comes to that. */
  lemma Loops(sl: Slot, me: nat, id: nat, p: Pc, f: Pc -> Choice, t: Trail) returns (t': Trail)
    requires Leads(sl, me, id, p, f, t) && t.pc.RecvBody? && t.slot.ioCount < WORD
    ensures Leads(sl, me, id, p, f, t') && t'.pc == DropRef(Finish, false) && t'.freed == t.freed
    ensures var loop, full, fails := LoopOf(f(RecvBody)), f(RecvPost) != First, f(RecvCall) != First;
      var pending := t.slot.live && loop == Drained && !full && !fails;
      && t'.spawned == t.spawned + Pends(pending)
      && t'.slot == if pending then t.slot.(ioCount := Inc(t.slot.ioCount))
                    else t.slot.(live := t.slot.live && loop == Disconnected)
  {
    assert t.spawned + [] == t.spawned;
    match f(RecvBody)
    case First =>
      RecvGoes(sl, me, id, p, f, t, To(t.slot, RecvPost));
      t' := PacketAlone(sl, me, id, p, f, t.(pc := RecvPost));
    case Second =>
      RecvGoes(sl, me, id, p, f, t, To(t.slot, RecvKill));
      Dies(sl, me, id, p, f, t.(pc := RecvKill));
      t' := t.(slot := t.slot.(live := false), pc := DropRef(Finish, false));
    case Third =>
      RecvGoes(sl, me, id, p, f, t, To(t.slot, DropRef(Finish, false)));
      t' := t.(pc := DropRef(Finish, false));
  }

  /** The steps of a completion alone are RecvComplete with the decrement behind it. */
  lemma CompletesAlone(sl: Slot, me: nat, id: nat, f: Pc -> Choice) returns (t: Trail, pending: bool, posted: bool)
    requires sl.ioCount < BIT47
    ensures Leads(sl, me, id, RecvPending, f, t) && t.pc == Done && t.freed == []
    ensures t.spawned == Pends(pending) + Posts(posted)
    ensures Completes(sl, f(RecvPending) == First, LoopOf(f(RecvBody)), f(RecvPost) != First, f(RecvCall) != First,
                      pending, posted, t.slot)
  {
    var seen := sl.(live := sl.live && f(RecvPending) == First);
    SeesBytes(sl, me, id, f);
    t := Loops(sl, me, id, RecvPending, f, Trail(seen, RecvBody, [], []));
    pending := seen.live && LoopOf(f(RecvBody)) == Drained && f(RecvPost) == First && f(RecvCall) == First;
    posted := t.slot.ioCount == 1;
    assert [] + Pends(pending) == Pends(pending);
    t := GivesUp(sl, me, id, RecvPending, f, t);
  }

  /** The accept thread's steps alone, from its increment of the session count to its decrement of the reference count:
      OnAccept, and RecvPacket if it agrees. */
  lemma EntersAlone(sl: Slot, me: nat, id: nat, f: Pc -> Choice) returns (t: Trail, pending: bool, posted: bool)
    requires sl.ioCount < BIT47
    ensures Leads(sl, me, id, AcceptCount, f, t) && t.pc == Done && t.freed == []
    ensures t.spawned == Pends(pending) + Posts(posted)
    ensures Enters(sl, f(Accepted) == First, f(RecvPost) != First, f(RecvCall) != First, pending, posted, t.slot)
  {
    t := Trail(sl, AcceptCount, [], []);
    Stay(sl, me, id, AcceptCount, f);
    RecvGoes(sl, me, id, AcceptCount, f, t, To(sl, Accepted));
    t := t.(pc := Accepted);
    pending := f(Accepted) == First && sl.live && f(RecvPost) == First && f(RecvCall) == First;
    if f(Accepted) == First {
      RecvGoes(sl, me, id, AcceptCount, f, t, To(sl, RecvPost));
      t := PacketAlone(sl, me, id, AcceptCount, f, t.(pc := RecvPost));
    } else {
      RecvGoes(sl, me, id, AcceptCount, f, t, To(sl, DropRef(Finish, false)));
      t := t.(pc := DropRef(Finish, false));
    }
    assert [] + Pends(pending) == Pends(pending);
    posted := t.slot.ioCount == 1;
    t := GivesUp(sl, me, id, AcceptCount, f, t);
  }

  // ---- ReleaseComplete alone

  lemma TeardownOnly(p: Pc)
    requires TeardownPc(p)
    ensures !LockPc(p) && !DropPc(p) && !PushPc(p) && !RecvPc(p) && !SendPc(p) && !BatchPc(p)
  {
  }

  lemma TeardownIsStep(sl: Slot, me: nat, id: nat, p: Pc, c: Choice, e: Effect)
    requires TeardownPc(p) && e == TeardownStep(sl, me, id, p, c)
    ensures e == Step(sl, me, id, p, c)
  {
    TeardownOnly(p);
  }

  lemma TeardownGoes(sl: Slot, me: nat, id: nat, f: Pc -> Choice, t: Trail, e: Effect)
    requires Leads(sl, me, id, ReleasePosted, f, t) && TeardownPc(t.pc)
    requires e == TeardownStep(t.slot, me, id, t.pc, f(t.pc))
    ensures Leads(sl, me, id, ReleasePosted, f, Grown(t, e))
  {
    TeardownIsStep(t.slot, me, id, t.pc, f(t.pc), e);
    Goes(sl, me, id, ReleasePosted, f, t, e);
  }

  lemma {:induction false} EmptiesQueue(sl: Slot, me: nat, id: nat, f: Pc -> Choice, t: Trail)
    requires Leads(sl, me, id, ReleasePosted, f, t) && t.pc.RelQueue?
    ensures Leads(sl, me, id, ReleasePosted, f,
                  t.(slot := t.slot.(queue := []), pc := RelBatch, freed := t.freed + t.slot.queue))
    decreases |t.slot.queue|
  {
    var queue := t.slot.queue;
    FirstAndRest(t.freed, queue);
    if queue == [] {
      TeardownGoes(sl, me, id, f, t, To(t.slot, RelBatch));
    } else {
      var less := t.slot.(queue := queue[1..]);
      TeardownGoes(sl, me, id, f, t, Effect(less, RelQueue, Nothing, Freed(queue[0])));
      EmptiesQueue(sl, me, id, f, t.(slot := less, freed := t.freed + [queue[0]]));
    }
  }

  lemma {:induction false} EmptiesBatch(sl: Slot, me: nat, id: nat, f: Pc -> Choice, t: Trail)
    requires Leads(sl, me, id, ReleasePosted, f, t) && t.pc.RelBatch?
    ensures Leads(sl, me, id, ReleasePosted, f,
                  t.(slot := t.slot.(batch := []), pc := RelPush, freed := t.freed + t.slot.batch))
    decreases |t.slot.batch|
  {
    var batch := t.slot.batch;
    FirstAndRest(t.freed, batch);
    if batch == [] {
      TeardownGoes(sl, me, id, f, t, To(t.slot, RelPush));
    } else {
      var less := t.slot.(batch := batch[1..]);
      TeardownGoes(sl, me, id, f, t, Effect(less, RelBatch, Nothing, Freed(batch[0])));
      EmptiesBatch(sl, me, id, f, t.(slot := less, freed := t.freed + [batch[0]]));
    }
  }

  lemma Posted(sl: Slot, me: nat, id: nat, f: Pc -> Choice)
    ensures Leads(sl, me, id, ReleasePosted, f, Trail(sl, RelQueue, [], []))
  {
    Stay(sl, me, id, ReleasePosted, f);
    TeardownGoes(sl, me, id, f, Trail(sl, ReleasePosted, [], []), To(sl, RelQueue));
  }

  lemma Empties(sl: Slot, me: nat, id: nat, f: Pc -> Choice)
    ensures Leads(sl, me, id, ReleasePosted, f, Trail(sl.(queue := []), RelBatch, [], sl.queue))
  {
    var t := Trail(sl, RelQueue, [], []);
    Posted(sl, me, id, f);
    EmptiesQueue(sl, me, id, f, t);
    DrainedTrail(sl, t);
  }

  lemma DrainedTrail(sl: Slot, t: Trail)
    requires t == Trail(sl, RelQueue, [], [])
    ensures t.(slot := t.slot.(queue := []), pc := RelBatch, freed := t.freed + t.slot.queue) ==
            Trail(sl.(queue := []), RelBatch, [], sl.queue)
  {
    assert [] + sl.queue == sl.queue;
  }

  /** The index push and the decrement of the session count. */
  lemma Leaves(sl: Slot, me: nat, id: nat, f: Pc -> Choice, t: Trail) returns (t': Trail)
    requires Leads(sl, me, id, ReleasePosted, f, t) && t.pc.RelPush?
    ensures Leads(sl, me, id, ReleasePosted, f, t')
    ensures t' == t.(slot := t.slot.(stage := Parked, returned := t.slot.returned + 1), pc := Done)
  {
    var back := t.slot.(stage := Parked, returned := t.slot.returned + 1);
    TeardownGoes(sl, me, id, f, t, To(back, RelCount));
    TeardownGoes(sl, me, id, f, t.(slot := back, pc := RelCount), To(back, Done));
    t' := t.(slot := back, pc := Done);
  }

  /** The steps of a posted release alone are ReleaseComplete. */
  lemma ReturnsAlone(sl: Slot, me: nat, id: nat, f: Pc -> Choice) returns (t: Trail)
    ensures Leads(sl, me, id, ReleasePosted, f, t) && t.pc == Done && t.spawned == []
    ensures Returns(sl, t.freed, t.slot)
  {
    Empties(sl, me, id, f);
    t := Trail(sl.(queue := []), RelBatch, [], sl.queue);
    EmptiesBatch(sl, me, id, f, t);
    t := t.(slot := t.slot.(batch := []), pc := RelPush, freed := sl.queue + sl.batch);
    t := Leaves(sl, me, id, f, t);
  }
}
