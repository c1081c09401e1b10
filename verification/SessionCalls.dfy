/** Whole calls on one session: what SessionLock, SessionUnLock, Disconnect, Unicast and SendComplete do to it when
    nothing else touches it meanwhile, and that the atomic steps of one activity alone do just that. */
module SessionCalls {
  import opened SessionStep

  // ---- what a whole call does

  /** A won release CAS, and the post of the release. */
  function Released(sl: Slot): Slot {
    sl.(ioCount := 0x8000_0000_0000, stage := Closed, staleZero := false, posts := sl.posts + 1)
  }

  /** SessionLock succeeds on a session that has the ID, is referenced, and does not show the released bit. */
  predicate Lockable(sl: Slot, id: nat) { !Flagged(Inc(sl.ioCount)) && sl.seqID == id && sl.ioCount != 0 }

  /** SessionLock: a session with no references is released on the way; a released one keeps the increment; any other
      refusal leaves the count as it was. */
  ghost predicate Locks(sl: Slot, id: nat, ok: bool, posted: bool, sl': Slot) {
    && (ok <==> Lockable(sl, id))
    && (posted <==> sl.ioCount == 0)
    && sl' == if posted then Released(sl)
              else if ok || Flagged(Inc(sl.ioCount)) then sl.(ioCount := Inc(sl.ioCount))
              else sl.(staleZero := false)
  }

  /** SessionUnLock, and DecrementIoCountAndMaybeDeleteSession: the last reference releases the session. */
  ghost predicate Unlocks(sl: Slot, posted: bool, sl': Slot) {
    && (posted <==> sl.ioCount == 1)
    && sl' == if posted then Released(sl) else sl.(ioCount := Dec(sl.ioCount), staleZero := false)
  }

  /** Disconnect: as SessionLock, but a session with another ID is never released, referenced or not. */
  ghost predicate Disconnects(sl: Slot, id: nat, ok: bool, posted: bool, sl': Slot) {
    && (ok <==> !Flagged(Inc(sl.ioCount)) && sl.seqID == id)
    && (posted <==> ok && sl.ioCount == 0)
    && sl' == if Flagged(Inc(sl.ioCount)) then sl.(ioCount := Inc(sl.ioCount))
              else if !ok then sl.(staleZero := sl.ioCount == 0)
              else (if posted then Released(sl) else sl.(staleZero := false)).(live := false)
  }

  /** The count has room for this call: below bit 47, or above it. */
  predicate Roomy(sl: Slot) { sl.ioCount + 3 < BIT47 || BIT47 <= sl.ioCount < 2 * BIT47 - 1 }

  /** Unicast of message `me`: freed if the session cannot be locked; otherwise queued, with a send posted exactly if
      the flag was down, and the session killed exactly if the queue has reached the limit. */
  ghost predicate Unicasts(sl: Slot, me: nat, id: nat, limit: nat, freed: bool, sent: bool, posted: bool, sl': Slot) {
    var ok := Lockable(sl, id);
    && (freed <==> !ok)
    && (sent <==> ok && !sl.sendFlag)
    && (posted <==> sl.ioCount == 0)
    && (!ok ==> Locks(sl, id, false, posted, sl'))
    && (ok ==> sl' == sl.(queue := sl.queue + [me], pushed := sl.pushed + [me], sendFlag := true,
                          live := sl.live && |sl.queue| + 1 < limit, staleZero := false,
                          ioCount := if sent then Inc(sl.ioCount) else sl.ioCount))
  }

  /** SendComplete: the last batch is released; with an empty queue the flag goes down, unless `late`, which other
      calls push before it does, brings it up again with a new post; otherwise up to 500 messages go to WSASend. */
  ghost predicate SendCompletes(sl: Slot, late: seq<nat>, good: bool, freed: seq<nat>, reposted: bool, pending: bool,
                                sl': Slot) {
    var n := if |sl.queue| < 500 then |sl.queue| else 500;
    && freed == sl.batch
    && (reposted <==> sl.queue == [] && sl.sendFlag && late != [])
    && (pending <==> sl.queue != [] && sl.live && good)
    && sl' == if sl.queue == []
              then sl.(batch := [], queue := late, pushed := sl.pushed + late, sendFlag := reposted,
                       ioCount := if reposted then Inc(sl.ioCount) else sl.ioCount)
              else sl.(batch := sl.queue[..n], queue := sl.queue[n..], popped := sl.popped + sl.queue[..n],
                       handed := if sl.live then sl.handed + sl.queue[..n] else sl.handed, unsent := !sl.live,
                       live := sl.live && good, orphan := sl.orphan || !pending,
                       ioCount := if pending then Inc(sl.ioCount) else sl.ioCount)
  }

  // ---- what calls do to each other

  /** A lock that is given back at once leaves the session as it was, and so does a refused one, unless the session had
      no references, which posts its release, or was released already, which keeps the increment. */
  lemma LockThenUnLock(sl: Slot, id: nat, ok: bool, posted: bool, sl1: Slot, posted': bool, sl2: Slot)
    requires sl.ioCount < WORD
    requires Locks(sl, id, ok, posted, sl1) && (ok ==> Unlocks(sl1, posted', sl2)) && (!ok ==> sl2 == sl1)
    ensures posted <==> sl.ioCount == 0
    ensures ok ==> !posted'
    ensures sl2 == if posted then Released(sl)
                   else if !ok && Flagged(Inc(sl.ioCount)) then sl.(ioCount := Inc(sl.ioCount))
                   else sl.(staleZero := false)
  {
  }

  /** On a session without references SessionLock posts the release under any ID; Disconnect under the current one
      only, and with any other ID the session stays without references and without a release. */
  lemma OnlyDisconnectLeaves(sl: Slot, id: nat, ok: bool, posted: bool, sl1: Slot, ok': bool, posted': bool, sl2: Slot)
    requires sl.ioCount == 0 && Locks(sl, id, ok, posted, sl1) && Disconnects(sl, id, ok', posted', sl2)
    ensures !ok && posted && sl1 == Released(sl)
    ensures if sl.seqID == id then posted' && sl2 == Released(sl).(live := false)
            else !posted' && sl2 == sl.(staleZero := true)
  {
  }

  // ---- one activity alone

  /** Where `n` steps lead, what they started, and what they released. */
  datatype Trail = Trail(slot: Slot, pc: Pc, spawned: seq<Pc>, freed: seq<nat>)

  /** The trail with one more effect. */
  function Grown(t: Trail, e: Effect): Trail {
    Trail(e.slot, e.pc, if e.spawn.Spawn? then t.spawned + [e.spawn.pc] else t.spawned,
          if e.freed.Freed? then t.freed + [e.freed.delivery] else t.freed)
  }

  /** An activity alone on a session, after `n` steps; `f` says what the callbacks, the operating system and the limit
      decide where the activity stands. */
  function Alone(sl: Slot, me: nat, id: nat, p: Pc, f: Pc -> Choice, n: nat): Trail {
    if n == 0 then Trail(sl, p, [], [])
    else
      var t := Alone(sl, me, id, p, f, n - 1);
      Grown(t, Step(t.slot, me, id, t.pc, f(t.pc)))
  }

  ghost predicate Leads(sl: Slot, me: nat, id: nat, p: Pc, f: Pc -> Choice, t: Trail) {
    exists n: nat :: Alone(sl, me, id, p, f, n) == t
  }

  lemma Stay(sl: Slot, me: nat, id: nat, p: Pc, f: Pc -> Choice)
    ensures Leads(sl, me, id, p, f, Trail(sl, p, [], []))
  {
    assert Alone(sl, me, id, p, f, 0) == Trail(sl, p, [], []);
  }

  /** One step more. */
  lemma Goes(sl: Slot, me: nat, id: nat, p: Pc, f: Pc -> Choice, t: Trail, e: Effect)
    requires Leads(sl, me, id, p, f, t) && e == Step(t.slot, me, id, t.pc, f(t.pc))
    ensures Leads(sl, me, id, p, f, Grown(t, e))
  {
    var n: nat :| Alone(sl, me, id, p, f, n) == t;
    assert Alone(sl, me, id, p, f, n + 1) == Grown(t, e);
  }

  lemma LockGoes(sl: Slot, me: nat, id: nat, p: Pc, f: Pc -> Choice, t: Trail, e: Effect)
    requires Leads(sl, me, id, p, f, t) && LockPc(t.pc) && e == LockStep(t.slot, me, id, t.pc, f(t.pc))
    ensures Leads(sl, me, id, p, f, Grown(t, e))
  {
    Goes(sl, me, id, p, f, t, e);
  }

  lemma DropGoes(sl: Slot, me: nat, id: nat, p: Pc, f: Pc -> Choice, t: Trail, e: Effect)
    requires Leads(sl, me, id, p, f, t) && DropPc(t.pc) && e == DropStep(t.slot, me, id, t.pc, f(t.pc))
    ensures Leads(sl, me, id, p, f, Grown(t, e))
  {
    Goes(sl, me, id, p, f, t, e);
  }

  lemma PushGoes(sl: Slot, me: nat, id: nat, p: Pc, f: Pc -> Choice, t: Trail, e: Effect)
    requires Leads(sl, me, id, p, f, t) && PushPc(t.pc) && e == PushStep(t.slot, me, id, t.pc, f(t.pc))
    ensures Leads(sl, me, id, p, f, Grown(t, e))
  {
    Goes(sl, me, id, p, f, t, e);
  }

  lemma SendIsStep(sl: Slot, me: nat, id: nat, p: Pc, c: Choice, e: Effect)
    requires SendPc(p) && e == SendStep(sl, me, id, p, c)
    ensures e == Step(sl, me, id, p, c)
  {
  }

  lemma SendGoes(sl: Slot, me: nat, id: nat, p: Pc, f: Pc -> Choice, t: Trail, e: Effect)
    requires Leads(sl, me, id, p, f, t) && SendPc(t.pc) && e == SendStep(t.slot, me, id, t.pc, f(t.pc))
    ensures Leads(sl, me, id, p, f, Grown(t, e))
  {
    SendIsStep(t.slot, me, id, t.pc, f(t.pc), e);
    Goes(sl, me, id, p, f, t, e);
  }

  lemma BatchIsStep(sl: Slot, me: nat, id: nat, p: Pc, c: Choice, e: Effect)
    requires BatchPc(p) && e == BatchStep(sl, me, id, p, c)
    ensures e == Step(sl, me, id, p, c)
  {
  }

  lemma BatchGoes(sl: Slot, me: nat, id: nat, p: Pc, f: Pc -> Choice, t: Trail, e: Effect)
    requires Leads(sl, me, id, p, f, t) && BatchPc(t.pc) && e == BatchStep(t.slot, me, id, t.pc, f(t.pc))
    ensures Leads(sl, me, id, p, f, Grown(t, e))
  {
    BatchIsStep(t.slot, me, id, t.pc, f(t.pc), e);
    Goes(sl, me, id, p, f, t, e);
  }

  function Posts(posted: bool): seq<Pc> { if posted then [ReleasePosted] else [] }

  /** The release CAS, and the post if it is won. */
  lemma TriesRelease(sl: Slot, me: nat, id: nat, p: Pc, f: Pc -> Choice, t: Trail) returns (t': Trail)
    requires Leads(sl, me, id, p, f, t) && t.pc.TryRelease?
    ensures Leads(sl, me, id, p, f, t')
    ensures var won := t.slot.ioCount == 0;
      t' == Trail(if won then Released(t.slot).(staleZero := t.slot.staleZero) else t.slot, After(t.pc.next),
                  t.spawned + Posts(won), t.freed)
  {
    if t.slot.ioCount == 0 {
      var closed := t.slot.(ioCount := BIT47, stage := Closed);
      DropGoes(sl, me, id, p, f, t, To(closed, PostRelease(t.pc.next)));
      t' := t.(slot := closed, pc := PostRelease(t.pc.next));
      DropGoes(sl, me, id, p, f, t',
               Effect(closed.(posts := closed.posts + 1), After(t.pc.next), Spawn(ReleasePosted), None));
      t' := Trail(closed.(posts := closed.posts + 1), After(t.pc.next), t.spawned + [ReleasePosted], t.freed);
    } else {
      DropGoes(sl, me, id, p, f, t, To(t.slot, After(t.pc.next)));
      t' := t.(pc := After(t.pc.next));
      assert t.spawned + [] == t.spawned;
    }
  }

  function Less(sl: Slot): Slot { sl.(ioCount := Dec(sl.ioCount), staleZero := false) }

  lemma DropsRef(sl: Slot, me: nat, id: nat, p: Pc, f: Pc -> Choice, t: Trail)
    requires Leads(sl, me, id, p, f, t) && t.pc.DropRef?
    ensures Leads(sl, me, id, p, f,
                  t.(slot := Less(t.slot), pc := if t.pc.always || Dec(t.slot.ioCount) == 0 then TryRelease(t.pc.next)
                                                 else After(t.pc.next)))
  {
    DropGoes(sl, me, id, p, f, t,
             To(Less(t.slot),
                if t.pc.always || Dec(t.slot.ioCount) == 0 then TryRelease(t.pc.next) else After(t.pc.next)));
  }

  /** Giving up a reference, whether or not the code looks at the count before its CAS. */
  lemma GivesUp(sl: Slot, me: nat, id: nat, p: Pc, f: Pc -> Choice, t: Trail) returns (t': Trail)
    requires Leads(sl, me, id, p, f, t) && t.pc.DropRef? && t.slot.ioCount < WORD
    ensures Leads(sl, me, id, p, f, t') && t'.freed == t.freed && t'.pc == After(t.pc.next)
    ensures var posted := t.slot.ioCount == 1;
      t'.spawned == t.spawned + Posts(posted) && Unlocks(t.slot, posted, t'.slot)
  {
    DropsRef(sl, me, id, p, f, t);
    if t.pc.always || Dec(t.slot.ioCount) == 0 {
      t' := TriesRelease(sl, me, id, p, f, t.(slot := Less(t.slot), pc := TryRelease(t.pc.next)));
    } else {
      t' := t.(slot := Less(t.slot), pc := After(t.pc.next));
      assert t.spawned + [] == t.spawned;
    }
  }

  lemma LockEnters(sl: Slot, me: nat, id: nat, f: Pc -> Choice)
    ensures var v := Inc(sl.ioCount);
      Leads(sl, me, id, LockInc, f,
            Trail(sl.(ioCount := v), if Flagged(v) then RejectMsg else LockCheck(v == 1), [], []))
  {
    Stay(sl, me, id, LockInc, f);
    var v := Inc(sl.ioCount);
    LockGoes(sl, me, id, LockInc, f, Trail(sl, LockInc, [], []),
             To(sl.(ioCount := v), if Flagged(v) then RejectMsg else LockCheck(v == 1)));
  }

  lemma LockAnswers(sl: Slot, me: nat, id: nat, f: Pc -> Choice, t: Trail)
    requires Leads(sl, me, id, LockInc, f, t) && t.pc.LockCheck?
    ensures Leads(sl, me, id, LockInc, f,
                  t.(pc := if t.slot.seqID != id || t.pc.one then DropRef(Reject, true) else Push))
  {
    LockGoes(sl, me, id, LockInc, f, t,
             To(t.slot, if t.slot.seqID != id || t.pc.one then DropRef(Reject, true) else Push));
  }

  /** The increment taken back: the release is posted exactly if there was no reference before it. */
  lemma LockGivesUp(sl: Slot, me: nat, id: nat, f: Pc -> Choice, t: Trail) returns (t': Trail)
    requires sl.ioCount < WORD && Leads(sl, me, id, LockInc, f, t) && t.pc == DropRef(Reject, true)
    requires t.slot == sl.(ioCount := Inc(sl.ioCount))
    ensures Leads(sl, me, id, LockInc, f, t') && t'.pc == RejectMsg && t'.freed == t.freed
    ensures t'.spawned == t.spawned + Posts(sl.ioCount == 0)
    ensures t'.slot == if sl.ioCount == 0 then Released(sl) else sl.(staleZero := false)
  {
    t' := GivesUp(sl, me, id, LockInc, f, t);
  }

  /** The steps of SessionLock alone are SessionLock. */
  lemma LockAlone(sl: Slot, me: nat, id: nat, f: Pc -> Choice) returns (t: Trail)
    requires sl.ioCount < WORD
    ensures Leads(sl, me, id, LockInc, f, t) && t.freed == []
    ensures t.pc == if Lockable(sl, id) then Push else RejectMsg
    ensures t.spawned == Posts(sl.ioCount == 0) && Locks(sl, id, t.pc == Push, sl.ioCount == 0, t.slot)
  {
    var v := Inc(sl.ioCount);
    var more := sl.(ioCount := v);
    LockEnters(sl, me, id, f);
    if Flagged(v) {
      t := Trail(more, RejectMsg, [], []);
    } else {
      LockAnswers(sl, me, id, f, Trail(more, LockCheck(v == 1), [], []));
      t := Trail(more, if sl.seqID != id || v == 1 then DropRef(Reject, true) else Push, [], []);
      if t.pc.DropRef? { t := LockGivesUp(sl, me, id, f, t); }
    }
  }

  lemma DisconnectEnters(sl: Slot, me: nat, id: nat, f: Pc -> Choice)
    ensures var v := Inc(sl.ioCount);
      Leads(sl, me, id, DiscInc, f, Trail(sl.(ioCount := v), if Flagged(v) then Done else DiscCheck, [], []))
  {
    Stay(sl, me, id, DiscInc, f);
    var v := Inc(sl.ioCount);
    LockGoes(sl, me, id, DiscInc, f, Trail(sl, DiscInc, [], []),
             To(sl.(ioCount := v), if Flagged(v) then Done else DiscCheck));
  }

  lemma DisconnectLeaves(sl: Slot, me: nat, id: nat, f: Pc -> Choice, t: Trail)
    requires Leads(sl, me, id, DiscInc, f, t) && t.pc.DiscCheck? && t.slot.seqID != id
    ensures var v := Dec(t.slot.ioCount);
      Leads(sl, me, id, DiscInc, f, t.(slot := t.slot.(ioCount := v, staleZero := v == 0), pc := Done))
  {
    var v := Dec(t.slot.ioCount);
    LockGoes(sl, me, id, DiscInc, f, t, To(t.slot, StaleDrop));
    DropGoes(sl, me, id, DiscInc, f, t.(pc := StaleDrop), To(t.slot.(ioCount := v, staleZero := v == 0), Done));
  }

  lemma DisconnectGoesOn(sl: Slot, me: nat, id: nat, f: Pc -> Choice, t: Trail)
    requires Leads(sl, me, id, DiscInc, f, t) && t.pc.DiscCheck? && t.slot.seqID == id
    ensures Leads(sl, me, id, DiscInc, f, t.(slot := t.slot.(live := false), pc := DropRef(Finish, true)))
  {
    LockGoes(sl, me, id, DiscInc, f, t, To(t.slot, DiscKill));
    LockGoes(sl, me, id, DiscInc, f, t.(pc := DiscKill), To(t.slot.(live := false), DropRef(Finish, true)));
  }

  /** The steps of Disconnect alone are Disconnect. */
  lemma DisconnectAlone(sl: Slot, me: nat, id: nat, f: Pc -> Choice) returns (t: Trail)
    requires sl.ioCount < WORD
    ensures Leads(sl, me, id, DiscInc, f, t) && t.pc == Done && t.freed == []
    ensures var ok := !Flagged(Inc(sl.ioCount)) && sl.seqID == id;
      var posted := ok && sl.ioCount == 0;
      t.spawned == Posts(posted) && Disconnects(sl, id, ok, posted, t.slot)
  {
    var v := Inc(sl.ioCount);
    var more := sl.(ioCount := v);
    DisconnectEnters(sl, me, id, f);
    if Flagged(v) {
      t := Trail(more, Done, [], []);
    } else if sl.seqID != id {
      DisconnectLeaves(sl, me, id, f, Trail(more, DiscCheck, [], []));
      t := Trail(more.(ioCount := Dec(v), staleZero := Dec(v) == 0), Done, [], []);
    } else {
      DisconnectGoesOn(sl, me, id, f, Trail(more, DiscCheck, [], []));
      t := GivesUp(sl, me, id, DiscInc, f, Trail(more.(live := false), DropRef(Finish, true), [], []));
    }
  }

  /** The steps of SessionUnLock alone are SessionUnLock. */
  lemma UnlockAlone(sl: Slot, me: nat, id: nat, f: Pc -> Choice) returns (t: Trail)
    requires sl.ioCount < WORD
    ensures Leads(sl, me, id, Unlock, f, t) && t.pc == Done && t.freed == []
    ensures t.spawned == Posts(sl.ioCount == 1) && Unlocks(sl, sl.ioCount == 1, t.slot)
  {
    Stay(sl, me, id, Unlock, f);
    var less := sl.(ioCount := Dec(sl.ioCount), staleZero := false);
    PushGoes(sl, me, id, Unlock, f, Trail(sl, Unlock, [], []), To(less, TryRelease(Finish)));
    t := TriesRelease(sl, me, id, Unlock, f, Trail(less, TryRelease(Finish), [], []));
  }

  lemma Rejects(sl: Slot, me: nat, id: nat, f: Pc -> Choice, t: Trail)
    requires Leads(sl, me, id, LockInc, f, t) && t.pc.RejectMsg?
    ensures Leads(sl, me, id, LockInc, f, t.(pc := Done, freed := t.freed + [me]))
  {
    LockGoes(sl, me, id, LockInc, f, t, Effect(t.slot, Done, Nothing, Freed(me)));
  }

  function Queued(sl: Slot, me: nat): Slot { sl.(queue := sl.queue + [me], pushed := sl.pushed + [me]) }

  /** The push, and the post if the flag was down. */
  lemma Pushes(sl: Slot, me: nat, id: nat, f: Pc -> Choice, t: Trail) returns (t': Trail)
    requires Leads(sl, me, id, LockInc, f, t) && t.pc.Push?
    ensures Leads(sl, me, id, LockInc, f, t')
    ensures var more := Queued(t.slot, me);
      t' == Trail(if more.sendFlag then more else more.(sendFlag := true, ioCount := Inc(more.ioCount)), CheckLimit,
                  if more.sendFlag then t.spawned else t.spawned + [SendPosted], t.freed)
  {
    var more := Queued(t.slot, me);
    PushGoes(sl, me, id, LockInc, f, t, To(more, ClaimFlag));
    t' := t.(slot := more, pc := ClaimFlag);
    if more.sendFlag {
      PushGoes(sl, me, id, LockInc, f, t', To(more, CheckLimit));
      t' := t'.(pc := CheckLimit);
    } else {
      t' := PostsSend(sl, me, id, f, t');
    }
  }

  lemma PostsSend(sl: Slot, me: nat, id: nat, f: Pc -> Choice, t: Trail) returns (t': Trail)
    requires Leads(sl, me, id, LockInc, f, t) && t.pc.ClaimFlag? && !t.slot.sendFlag
    ensures Leads(sl, me, id, LockInc, f, t')
    ensures t' == Trail(t.slot.(sendFlag := true, ioCount := Inc(t.slot.ioCount)), CheckLimit, t.spawned + [SendPosted],
                        t.freed)
  {
    var up := t.slot.(sendFlag := true);
    var more := up.(ioCount := Inc(up.ioCount));
    PushGoes(sl, me, id, LockInc, f, t, To(up, PostInc));
    PushGoes(sl, me, id, LockInc, f, t.(slot := up, pc := PostInc), To(more, PostSend));
    PushGoes(sl, me, id, LockInc, f, t.(slot := more, pc := PostSend),
             Effect(more, CheckLimit, Spawn(SendPosted), None));
    t' := t.(slot := more, pc := CheckLimit, spawned := t.spawned + [SendPosted]);
  }

  /** The limit and SessionUnLock, which is not the last to leave. */
  lemma Finishes(sl: Slot, me: nat, id: nat, f: Pc -> Choice, t: Trail) returns (t': Trail)
    requires Leads(sl, me, id, LockInc, f, t) && t.pc.CheckLimit? && 1 < t.slot.ioCount < WORD
    ensures Leads(sl, me, id, LockInc, f, t')
    ensures t' == Trail(Less(t.slot), Done, if f(CheckLimit) == First then t.spawned else t.spawned + [DiscInc],
                        t.freed)
  {
    if f(CheckLimit) == First {
      PushGoes(sl, me, id, LockInc, f, t, To(t.slot, Unlock));
      t' := t.(pc := Unlock);
    } else {
      PushGoes(sl, me, id, LockInc, f, t, Effect(t.slot, Unlock, Spawn(DiscInc), None));
      t' := t.(pc := Unlock, spawned := t.spawned + [DiscInc]);
    }
    PushGoes(sl, me, id, LockInc, f, t', To(Less(t.slot), TryRelease(Finish)));
    t' := t'.(slot := Less(t.slot), pc := TryRelease(Finish));
    var spawned := t'.spawned;
    t' := TriesRelease(sl, me, id, LockInc, f, t');
    assert spawned + [] == spawned;
  }

  /** A queued message up to the end of the call, when SessionLock has succeeded. */
  lemma QueuesAlone(sl: Slot, me: nat, id: nat, f: Pc -> Choice, t: Trail) returns (t': Trail)
    requires Leads(sl, me, id, LockInc, f, t) && t.pc.Push? && 1 < t.slot.ioCount < BIT47
    ensures Leads(sl, me, id, LockInc, f, t') && t'.pc == Done && t'.freed == t.freed
    ensures var posts := if t.slot.sendFlag then [] else [SendPosted];
      && t'.spawned == t.spawned + posts + (if f(CheckLimit) == First then [] else [DiscInc])
      && t'.slot == Queued(t.slot, me).(sendFlag := true, staleZero := false,
                                        ioCount := if t.slot.sendFlag then t.slot.ioCount - 1 else t.slot.ioCount)
  {
    t' := Pushes(sl, me, id, f, t);
    t' := Finishes(sl, me, id, f, t');
  }

  /** The Disconnect of a send that has reached the limit, behind it. */
  lemma LimitAlone(sl: Slot, you: nat, id: nat, f: Pc -> Choice) returns (t: Trail)
    requires sl.seqID == id && 0 < sl.ioCount < BIT47 - 1
    ensures Leads(sl, you, id, DiscInc, f, t) && t.pc == Done && t.spawned == [] && t.freed == []
    ensures t.slot == sl.(live := false, staleZero := false)
  {
    t := DisconnectAlone(sl, you, id, f);
  }

  /** The steps of Unicast alone, and those of the Disconnect it starts at the limit, are Unicast. */
  lemma UnicastAlone(sl: Slot, me: nat, id: nat, limit: nat, f: Pc -> Choice, you: nat) returns (t: Trail, t': Trail)
    requires Roomy(sl) && (f(CheckLimit) == First <==> |sl.queue| + 1 < limit)
    ensures Leads(sl, me, id, LockInc, f, t) && t.pc == Done
    ensures var ok := Lockable(sl, id);
      && t.freed == (if ok then [] else [me])
      && t.spawned == (if !ok then Posts(sl.ioCount == 0)
                       else (if sl.sendFlag then [] else [SendPosted])
                            + (if f(CheckLimit) == First then [] else [DiscInc]))
      && (if ok && f(CheckLimit) != First then Leads(t.slot, you, id, DiscInc, f, t') && t'.pc == Done else t' == t)
      && Unicasts(sl, me, id, limit, !ok, ok && !sl.sendFlag, sl.ioCount == 0, t'.slot)
  {
    t := LockAlone(sl, me, id, f);
    if t.pc.Push? {
      t := QueuesAlone(sl, me, id, f, t);
      t' := t;
      if f(CheckLimit) != First { t' := LimitAlone(t.slot, you, id, f); }
    } else {
      Rejects(sl, me, id, f, t);
      t := t.(pc := Done, freed := t.freed + [me]);
      t' := t;
    }
  }

  // ---- SendComplete alone

  /** A send that was posted and one that has completed both begin by giving the last batch back. */
  lemma SendBegins(sl: Slot, me: nat, id: nat, p: Pc, f: Pc -> Choice)
    requires p.SendPosted? || p.SendInFlight?
    ensures Leads(sl, me, id, p, f, Trail(sl, SendFree, [], []))
  {
    Stay(sl, me, id, p, f);
    SendGoes(sl, me, id, p, f, Trail(sl, p, [], []), To(sl, SendFree));
  }

  lemma FreesOne(sl: Slot, me: nat, id: nat, f: Pc -> Choice, t: Trail)
    requires Leads(sl, me, id, SendFree, f, t) && t.pc.SendFree? && t.slot.batch != []
    ensures Leads(sl, me, id, SendFree, f,
                  t.(slot := t.slot.(batch := t.slot.batch[1..]), freed := t.freed + [t.slot.batch[0]]))
  {
    SendGoes(sl, me, id, SendFree, f, t,
             Effect(t.slot.(batch := t.slot.batch[1..]), SendFree, Nothing, Freed(t.slot.batch[0])));
  }

  lemma FreesNone(sl: Slot, me: nat, id: nat, f: Pc -> Choice, t: Trail)
    requires Leads(sl, me, id, SendFree, f, t) && t.pc.SendFree? && t.slot.batch == []
    ensures Leads(sl, me, id, SendFree, f, t.(pc := SendSize))
  {
    SendGoes(sl, me, id, SendFree, f, t, To(t.slot, SendSize));
  }

  lemma FirstAndRest(freed: seq<nat>, batch: seq<nat>)
    ensures freed + [] == freed
    ensures batch != [] ==> freed + [batch[0]] + batch[1..] == freed + batch
  {
  }

  /** The loop that gives the last batch back. */
  lemma {:induction false} FreesBatch(sl: Slot, me: nat, id: nat, f: Pc -> Choice, t: Trail)
    requires Leads(sl, me, id, SendFree, f, t) && t.pc.SendFree?
    ensures Leads(sl, me, id, SendFree, f,
                  t.(slot := t.slot.(batch := []), pc := SendSize, freed := t.freed + t.slot.batch))
    decreases |t.slot.batch|
  {
    var batch := t.slot.batch;
    FirstAndRest(t.freed, batch);
    if batch == [] {
      FreesNone(sl, me, id, f, t);
    } else {
      FreesOne(sl, me, id, f, t);
      FreesBatch(sl, me, id, f, t.(slot := t.slot.(batch := batch[1..]), freed := t.freed + [batch[0]]));
    }
  }

  function Popped(sl: Slot, k: nat): Slot
    requires k <= |sl.queue|
  {
    sl.(queue := sl.queue[k..], batch := sl.batch + sl.queue[..k], popped := sl.popped + sl.queue[..k])
  }

  lemma PopsOne(sl: Slot, me: nat, id: nat, f: Pc -> Choice, t: Trail)
    requires Leads(sl, me, id, SendFree, f, t) && t.pc.SendCollect? && t.slot.queue != []
    ensures Leads(sl, me, id, SendFree, f,
                  t.(slot := Popped(t.slot, 1), pc := if |t.slot.batch| + 1 == BATCH then SendLive else SendCollect))
  {
    assert t.slot.queue[..1] == [t.slot.queue[0]];
    BatchGoes(sl, me, id, SendFree, f, t,
              To(Popped(t.slot, 1), if |t.slot.batch| + 1 == BATCH then SendLive else SendCollect));
  }

  lemma PoppedTwice(sl: Slot, k: nat)
    requires 1 <= k <= |sl.queue|
    ensures Popped(Popped(sl, 1), k - 1) == Popped(sl, k)
  {
    assert sl.queue[..1] + sl.queue[1..][..k - 1] == sl.queue[..k];
    assert sl.batch + sl.queue[..1] + sl.queue[1..][..k - 1] == sl.batch + sl.queue[..k];
    assert sl.popped + sl.queue[..1] + sl.queue[1..][..k - 1] == sl.popped + sl.queue[..k];
  }

  /** The pop loop: everything queued, but no more than the batch has room for. */
  lemma {:induction false} Collects(sl: Slot, me: nat, id: nat, f: Pc -> Choice, t: Trail, k: nat)
    requires Leads(sl, me, id, SendFree, f, t) && t.pc.SendCollect? && |t.slot.batch| < BATCH
    requires k == if |t.slot.queue| < BATCH - |t.slot.batch| then |t.slot.queue| else BATCH - |t.slot.batch|
    ensures Leads(sl, me, id, SendFree, f, t.(slot := Popped(t.slot, k), pc := SendLive))
    decreases k
  {
    if k == 0 {
      BatchGoes(sl, me, id, SendFree, f, t, To(t.slot, SendLive));
      assert Popped(t.slot, 0) == t.slot;
    } else {
      PopsOne(sl, me, id, f, t);
      PoppedTwice(t.slot, k);
      if |t.slot.batch| + 1 < BATCH {
        Collects(sl, me, id, f, t.(slot := Popped(t.slot, 1)), k - 1);
      } else {
        assert Popped(t.slot, 1) == Popped(t.slot, k);
      }
    }
  }

  /** WSASend and what follows it; SendComplete's own reference is dropped behind it. */
  lemma HandsOver(sl: Slot, me: nat, id: nat, f: Pc -> Choice, t: Trail) returns (t': Trail)
    requires Leads(sl, me, id, SendFree, f, t) && t.pc.SendLive? && t.slot.ioCount < WORD
    ensures Leads(sl, me, id, SendFree, f, t')
    ensures var pending := t.slot.live && f(SendCall) == First;
      && t' == Trail(t'.slot, DropRef(Finish, false),
                     if pending then t.spawned + [SendInFlight] else t.spawned, t.freed)
      && t'.slot == (if !t.slot.live then t.slot.(orphan := true)
                     else t.slot.(handed := t.slot.handed + t.slot.batch, unsent := false, live := pending,
                                  orphan := t.slot.orphan || !pending,
                                  ioCount := if pending then Inc(t.slot.ioCount) else t.slot.ioCount))
  {
    if !t.slot.live {
      BatchGoes(sl, me, id, SendFree, f, t, To(t.slot.(orphan := true), DropRef(Finish, false)));
      t' := t.(slot := t.slot.(orphan := true), pc := DropRef(Finish, false));
    } else {
      t' := Calls(sl, me, id, f, t);
    }
  }

  lemma Counts(sl: Slot, me: nat, id: nat, f: Pc -> Choice, t: Trail)
    requires Leads(sl, me, id, SendFree, f, t) && t.pc.SendLive? && t.slot.live
    ensures Leads(sl, me, id, SendFree, f, t.(slot := t.slot.(ioCount := Inc(t.slot.ioCount)), pc := SendCall))
  {
    BatchGoes(sl, me, id, SendFree, f, t, To(t.slot, SendInc));
    BatchGoes(sl, me, id, SendFree, f, t.(pc := SendInc), To(t.slot.(ioCount := Inc(t.slot.ioCount)), SendCall));
  }

  function Given(sl: Slot): Slot { sl.(handed := sl.handed + sl.batch, unsent := false) }

  lemma Succeeds(sl: Slot, me: nat, id: nat, f: Pc -> Choice, t: Trail)
    requires Leads(sl, me, id, SendFree, f, t) && t.pc.SendCall? && f(SendCall) == First
    ensures Leads(sl, me, id, SendFree, f,
                  Trail(Given(t.slot), DropRef(Finish, false), t.spawned + [SendInFlight], t.freed))
  {
    BatchGoes(sl, me, id, SendFree, f, t, Effect(Given(t.slot), DropRef(Finish, false), Spawn(SendInFlight), None));
  }

  lemma Fails(sl: Slot, me: nat, id: nat, f: Pc -> Choice, t: Trail) returns (t': Trail)
    requires Leads(sl, me, id, SendFree, f, t) && t.pc.SendCall? && f(SendCall) != First
    ensures Leads(sl, me, id, SendFree, f, t')
    ensures t' == t.(slot := Given(t.slot).(live := false, orphan := true, ioCount := Dec(t.slot.ioCount)),
                     pc := DropRef(Finish, false))
  {
    BatchGoes(sl, me, id, SendFree, f, t, To(Given(t.slot), SendErr));
    t' := Cleans(sl, me, id, f, t.(slot := Given(t.slot), pc := SendErr));
  }

  lemma Calls(sl: Slot, me: nat, id: nat, f: Pc -> Choice, t: Trail) returns (t': Trail)
    requires Leads(sl, me, id, SendFree, f, t) && t.pc.SendLive? && t.slot.live && t.slot.ioCount < WORD
    ensures Leads(sl, me, id, SendFree, f, t')
    ensures t' == Trail(Given(t.slot).(live := f(SendCall) == First, orphan := t.slot.orphan || f(SendCall) != First,
                                       ioCount := if f(SendCall) == First then Inc(t.slot.ioCount) else t.slot.ioCount),
                        DropRef(Finish, false), if f(SendCall) == First then t.spawned + [SendInFlight] else t.spawned,
                        t.freed)
  {
    Counts(sl, me, id, f, t);
    t' := t.(slot := t.slot.(ioCount := Inc(t.slot.ioCount)), pc := SendCall);
    if f(SendCall) == First {
      Succeeds(sl, me, id, f, t');
      t' := Trail(Given(t'.slot), DropRef(Finish, false), t.spawned + [SendInFlight], t.freed);
    } else {
      t' := Fails(sl, me, id, f, t');
    }
  }

  lemma Cleans(sl: Slot, me: nat, id: nat, f: Pc -> Choice, t: Trail) returns (t': Trail)
    requires Leads(sl, me, id, SendFree, f, t) && t.pc.SendErr?
    ensures Leads(sl, me, id, SendFree, f, t')
    ensures t' == t.(slot := t.slot.(live := false, orphan := true, ioCount := Dec(t.slot.ioCount)),
                     pc := DropRef(Finish, false))
  {
    var dead := t.slot.(live := false, orphan := true);
    BatchGoes(sl, me, id, SendFree, f, t, To(dead, SendErrDec));
    BatchGoes(sl, me, id, SendFree, f, t.(slot := dead, pc := SendErrDec),
              To(dead.(ioCount := Dec(dead.ioCount)), DropRef(Finish, false)));
    t' := t.(slot := dead.(ioCount := Dec(dead.ioCount)), pc := DropRef(Finish, false));
  }

  function Bare(sl: Slot): Trail { Trail(sl.(batch := []), SendSize, [], sl.batch) }

  lemma BareTrail(sl: Slot, t: Trail)
    requires t == Trail(sl, SendFree, [], [])
    ensures t.(slot := t.slot.(batch := []), pc := SendSize, freed := t.freed + t.slot.batch) == Bare(sl)
  {
    assert t.freed + sl.batch == sl.batch;
  }

  lemma Begins(sl: Slot, me: nat, id: nat, f: Pc -> Choice)
    ensures Leads(sl, me, id, SendFree, f, Bare(sl))
  {
    var t := Trail(sl, SendFree, [], []);
    BareTrail(sl, t);
    Stay(sl, me, id, SendFree, f);
    FreesBatch(sl, me, id, f, t);
  }

  function Filled(sl: Slot, n: nat): Slot
    requires n <= |sl.queue|
  {
    sl.(batch := sl.queue[..n], queue := sl.queue[n..], popped := sl.popped + sl.queue[..n], unsent := true)
  }

  lemma StartsFilling(sl: Slot, me: nat, id: nat, f: Pc -> Choice)
    requires sl.queue != []
    ensures Leads(sl, me, id, SendFree, f, Trail(sl.(batch := [], unsent := true), SendCollect, [], sl.batch))
  {
    Begins(sl, me, id, f);
    SendGoes(sl, me, id, SendFree, f, Bare(sl), To(sl.(batch := [], unsent := true), SendCollect));
  }

  lemma FilledIs(sl: Slot, n: nat, filling: Slot)
    requires n <= |sl.queue| && filling == sl.(batch := [], unsent := true)
    ensures Popped(filling, n) == Filled(sl, n)
  {
    assert [] + sl.queue[..n] == sl.queue[..n];
  }

  lemma Fills(sl: Slot, me: nat, id: nat, f: Pc -> Choice, n: nat)
    requires sl.queue != [] && n == if |sl.queue| < BATCH then |sl.queue| else BATCH
    ensures Leads(sl, me, id, SendFree, f, Trail(Filled(sl, n), SendLive, [], sl.batch))
  {
    var filling := sl.(batch := [], unsent := true);
    StartsFilling(sl, me, id, f);
    FilledIs(sl, n, filling);
    Collects(sl, me, id, f, Trail(filling, SendCollect, [], sl.batch), n);
  }

  /** SendComplete that finds messages: its steps alone are the call. */
  lemma SendsAlone(sl: Slot, me: nat, id: nat, f: Pc -> Choice) returns (t: Trail)
    requires sl.ioCount < WORD && sl.queue != []
    ensures Leads(sl, me, id, SendFree, f, t) && t.pc == DropRef(Finish, false)
    ensures var pending := sl.live && f(SendCall) == First;
      && t.spawned == (if pending then [SendInFlight] else [])
      && SendCompletes(sl, [], f(SendCall) == First, t.freed, false, pending, t.slot)
  {
    var n := if |sl.queue| < BATCH then |sl.queue| else BATCH;
    Fills(sl, me, id, f, n);
    t := HandsOver(sl, me, id, f, Trail(Filled(sl, n), SendLive, [], sl.batch));
  }

  /** SendComplete that finds none: its steps up to the flag, then those from the flag on with `late` pushed in
      between, are the call. */
  lemma DropsFlagAlone(sl: Slot, late: seq<nat>, me: nat, id: nat, f: Pc -> Choice) returns (t: Trail, t': Trail)
    requires sl.queue == []
    ensures Leads(sl, me, id, SendFree, f, t) && t.pc == SendDrop && t.spawned == []
    ensures Leads(t.slot.(queue := late, pushed := t.slot.pushed + late), me, id, SendDrop, f, t')
    ensures t'.pc == DropRef(Finish, false) && t'.freed == []
    ensures var again := sl.sendFlag && late != [];
      && t'.spawned == (if again then [SendPosted] else [])
      && SendCompletes(sl, late, f(SendCall) == First, t.freed, again, false, t'.slot)
  {
    Begins(sl, me, id, f);
    var bare := sl.(batch := []);
    SendGoes(sl, me, id, SendFree, f, Trail(bare, SendSize, [], sl.batch), To(bare, SendDrop));
    t := Trail(bare, SendDrop, [], sl.batch);
    t' := LooksAgain(bare.(queue := late, pushed := sl.pushed + late), me, id, f);
  }

  lemma LooksAgain(sl: Slot, me: nat, id: nat, f: Pc -> Choice) returns (t: Trail)
    ensures Leads(sl, me, id, SendDrop, f, t) && t.pc == DropRef(Finish, false) && t.freed == []
    ensures var again := sl.sendFlag && sl.queue != [];
      && t.spawned == (if again then [SendPosted] else [])
      && t.slot == sl.(sendFlag := again, ioCount := if again then Inc(sl.ioCount) else sl.ioCount)
  {
    Stay(sl, me, id, SendDrop, f);
    t := Trail(sl, SendDrop, [], []);
    if !sl.sendFlag {
      SendGoes(sl, me, id, SendDrop, f, t, To(sl, DropRef(Finish, false)));
      t := t.(pc := DropRef(Finish, false));
    } else {
      var down := sl.(sendFlag := false);
      SendGoes(sl, me, id, SendDrop, f, t, To(down, SendRecheck));
      t := Regains(sl, me, id, f, t.(slot := down, pc := SendRecheck));
    }
  }

  lemma Regains(sl: Slot, me: nat, id: nat, f: Pc -> Choice, t: Trail) returns (t': Trail)
    requires Leads(sl, me, id, SendDrop, f, t) && t.pc.SendRecheck? && !t.slot.sendFlag
    ensures Leads(sl, me, id, SendDrop, f, t')
    ensures t' == if t.slot.queue == [] then t.(pc := DropRef(Finish, false))
                  else t.(slot := t.slot.(sendFlag := true, ioCount := Inc(t.slot.ioCount)),
                          pc := DropRef(Finish, false), spawned := t.spawned + [SendPosted])
  {
    if t.slot.queue == [] {
      SendGoes(sl, me, id, SendDrop, f, t, To(t.slot, DropRef(Finish, false)));
      t' := t.(pc := DropRef(Finish, false));
    } else {
      var up := t.slot.(sendFlag := true);
      SendGoes(sl, me, id, SendDrop, f, t, To(t.slot, SendRegain));
      SendGoes(sl, me, id, SendDrop, f, t.(pc := SendRegain), To(up, SendRepostInc));
      t' := Reposts(sl, me, id, f, t.(slot := up, pc := SendRepostInc));
    }
  }

  lemma Reposts(sl: Slot, me: nat, id: nat, f: Pc -> Choice, t: Trail) returns (t': Trail)
    requires Leads(sl, me, id, SendDrop, f, t) && t.pc.SendRepostInc?
    ensures Leads(sl, me, id, SendDrop, f, t')
    ensures t' == t.(slot := t.slot.(ioCount := Inc(t.slot.ioCount)), pc := DropRef(Finish, false),
                     spawned := t.spawned + [SendPosted])
  {
    var more := t.slot.(ioCount := Inc(t.slot.ioCount));
    SendGoes(sl, me, id, SendDrop, f, t, To(more, SendRepost));
    SendGoes(sl, me, id, SendDrop, f, t.(slot := more, pc := SendRepost),
             Effect(more, DropRef(Finish, false), Spawn(SendPosted), None));
    t' := t.(slot := more, pc := DropRef(Finish, false), spawned := t.spawned + [SendPosted]);
  }
}
