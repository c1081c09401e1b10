/** Wake-ups, the order of messages, their conservation, and the index stack, in every state of every run. */
module MessageGuarantees {
  import opened Frames
  import opened Sequences
  import opened SessionStep
  import opened Server
  import opened ServerInv
  import opened ServerMove
  import opened ServerRun
  import opened CountGuarantees

  // ---- somebody holds what a sum counts

  lemma {:induction false} WhoWakes(i: nat, acts: seq<Act>) returns (a: nat)
    requires Total(i, acts).wake >= 1
    ensures a < |acts| && acts[a].slot == i && Wake(acts[a].pc) == 1
  {
    var n := |acts| - 1;
    if acts[n].slot == i && Wake(acts[n].pc) == 1 { a := n; } else { a := WhoWakes(i, acts[..n]); }
  }

  lemma {:induction false} WhoSends(i: nat, acts: seq<Act>) returns (a: nat)
    requires Total(i, acts).token >= 1
    ensures a < |acts| && acts[a].slot == i && Token(acts[a].pc) == 1
  {
    var n := |acts| - 1;
    if acts[n].slot == i && Token(acts[n].pc) == 1 { a := n; } else { a := WhoSends(i, acts[..n]); }
  }

  ghost predicate HasWaker(s: State, i: nat) {
    exists a :: 0 <= a < |s.acts| && s.acts[a].slot == i
                && (s.acts[a].pc.ClaimFlag? || s.acts[a].pc.SendRecheck? || s.acts[a].pc.SendRegain?)
  }

  ghost predicate HasSender(s: State, i: nat) {
    exists a :: 0 <= a < |s.acts| && s.acts[a].slot == i && Token(s.acts[a].pc) == 1
  }

  // ---- the send flag

  /** At most one activity per session is about to post a send, posted, collecting, or in WSASend. */
  lemma OneSender(s: State, a: nat, b: nat)
    requires Reachable(s) && a < |s.acts| && b < |s.acts| && a != b && s.acts[a].slot == s.acts[b].slot
    ensures Token(s.acts[a].pc) == 0 || Token(s.acts[b].pc) == 0
  {
    ReachableInv(s);
    var i := s.acts[a].slot;
    assert SlotInv(s.slots[i], Total(i, s.acts));
    var rest := TwoOf(s, i, a, b);
  }

  /** No lost wake-up: a queued message of an open session has a sender, or a pusher before its CAS, or
      a SendComplete before its second look; only a dead session may lack all of them. */
  lemma NoLostWakeup(s: State, i: nat)
    requires Reachable(s) && WasAccepted(s, i) && !Flagged(s.slots[i].ioCount) && s.slots[i].queue != []
    ensures !s.slots[i].sendFlag ==> HasWaker(s, i)
    ensures s.slots[i].sendFlag && s.slots[i].live ==> HasSender(s, i)
  {
    ReachableInv(s);
    var sl := s.slots[i];
    assert SlotInv(sl, Total(i, s.acts));
    TotalCoherent(i, s.acts);
    if !sl.sendFlag {
      var a := WhoWakes(i, s.acts);
    } else if sl.live {
      var a := WhoSends(i, s.acts);
    }
  }

  // ---- order

  /** A generation's push record names each delivery once, and only deliveries that were given. */
  ghost predicate PushedInv(s: State) {
    forall i :: 0 <= i < |s.slots| ==> PushedOnce(s.slots[i].pushed, s.acts)
  }

  ghost predicate PushedOnce(pushed: seq<nat>, acts: seq<Act>) {
    Distinct(pushed) && forall k :: 0 <= k < |pushed| ==> pushed[k] < |acts| && acts[pushed[k]].given
  }

  /** Delivery `a` is given by its push, so it was not in the record before. */
  lemma PushedMore(pushed: seq<nat>, acts: seq<Act>, acts': seq<Act>, a: nat)
    requires PushedOnce(pushed, acts) && |acts| <= |acts'| && a < |acts'| && acts'[a].given
    requires a < |acts| ==> !acts[a].given
    requires forall b :: 0 <= b < |acts| && acts[b].given ==> acts'[b].given
    ensures PushedOnce(pushed + [a], acts')
  {
  }

  lemma PushedSame(pushed: seq<nat>, acts: seq<Act>, acts': seq<Act>)
    requires PushedOnce(pushed, acts) && |acts| <= |acts'|
    requires forall b :: 0 <= b < |acts| && acts[b].given ==> acts'[b].given
    ensures PushedOnce(pushed, acts')
  {
  }

  /** A move takes no gift back, and a push is one. */
  lemma MoveGives(acts: seq<Act>, a: nat, e: Effect)
    requires a < |acts|
    ensures var acts' := Applied(acts, a, e);
      && |acts| <= |acts'|
      && (forall b :: 0 <= b < |acts| && acts[b].given ==> acts'[b].given)
      && (acts[a].load.Msg? && acts[a].pc.Push? ==> acts'[a].given)
  {
    AppliedShape(acts, a, e);
  }

  lemma MoveKeepsPushed(s: State, a: nat, c: Choice)
    requires Can(s, Move(a, c)) && Inv(s) && PushedInv(s)
    ensures PushedInv(DoMove(s, a, c))
  {
    var act := s.acts[a];
    var e := EffectOf(s, a, c);
    MoveGives(s.acts, a, e);
    StepFrame(s.slots[act.slot], a, act.id, act.pc, c, e);
    assert LoadInv(act);
    var s' := DoMove(s, a, c);
    assert s'.acts == Applied(s.acts, a, e) && s'.slots == s.slots[act.slot := e.slot];
    forall i | 0 <= i < |s'.slots| ensures PushedOnce(s'.slots[i].pushed, s'.acts) {
      assert PushedOnce(s.slots[i].pushed, s.acts);
      if i == act.slot && act.pc.Push? {
        PushedMore(s.slots[i].pushed, s.acts, s'.acts, a);
      } else {
        PushedSame(s.slots[i].pushed, s.acts, s'.acts);
      }
    }
  }

  lemma AcceptKeepsPushed(s: State)
    requires Can(s, AcceptMove) && PushedInv(s)
    ensures PushedInv(DoAccept(s))
  {
    AcceptShape(s);
    var s' := DoAccept(s);
    forall i | 0 <= i < |s'.slots| ensures PushedOnce(s'.slots[i].pushed, s'.acts) {
      assert PushedOnce(s.slots[i].pushed, s.acts);
      assert s'.slots[i].pushed == s.slots[i].pushed || s'.slots[i].pushed == [];
    }
  }

  lemma CallKeepsPushed(s: State, x: Action)
    requires Can(s, x) && (x.Send? || x.Disconnect?) && PushedInv(s)
    ensures PushedInv(Do(s, x))
  {
    var s' := Do(s, x);
    forall i | 0 <= i < |s'.slots| ensures PushedOnce(s'.slots[i].pushed, s'.acts) {
      assert PushedOnce(s.slots[i].pushed, s.acts);
    }
  }

  lemma {:induction false} RunKeepsPushed(s: State, w: seq<Action>)
    requires Init(s) && Path(s, w)
    ensures PushedInv(Exec(s, w))
  {
    if w != [] {
      var n := |w| - 1;
      RunKeepsPushed(s, w[..n]);
      InitInv(s);
      RunKeepsInv(s, w[..n]);
      var s' := Exec(s, w[..n]);
      match w[n]
      case Move(a, c) => MoveKeepsPushed(s', a, c);
      case AcceptMove => AcceptKeepsPushed(s');
      case Send(_, _) => CallKeepsPushed(s', w[n]);
      case Disconnect(_) => CallKeepsPushed(s', w[n]);
    }
  }

  /** Per generation, the messages handed to WSASend, in order over all batches of at most 500, are a
      prefix of the messages pushed; no delivery is pushed twice. While the session is open, what was
      pushed is what was handed over, then a popped batch that was not, then the queue. */
  lemma SendsInOrder(s: State, i: nat)
    requires Reachable(s) && i < |s.slots|
    ensures var sl := s.slots[i];
      && sl.handed <= sl.pushed && Distinct(sl.pushed) && |sl.batch| <= 500
      && (sl.accepts > 0 && !Flagged(sl.ioCount) ==>
            sl.pushed == sl.handed + (if sl.unsent then sl.batch else []) + sl.queue)
  {
    var s0: State, w: seq<Action> :| Init(s0) && Path(s0, w) && Exec(s0, w) == s;
    RunKeepsPushed(s0, w);
    ReachableInv(s);
    TotalCoherent(i, s.acts);
    assert SlotInv(s.slots[i], Total(i, s.acts));
    assert PushedOnce(s.slots[i].pushed, s.acts);
  }

  // ---- conservation

  lemma OnePlace(s: State, d: nat)
    requires Inv(s) && d < |s.acts| && s.acts[d].load.Msg?
    ensures s.acts[d].slot < |s.slots| && s.acts[d].freed <= 1
    ensures InHand(s.slots[s.acts[d].slot], d) + s.acts[d].freed == (if Carrying(s.acts[d].pc) then 0 else 1)
    ensures forall i :: 0 <= i < |s.slots| && i != s.acts[d].slot ==> InHand(s.slots[i], d) == 0
  {
    assert LoadInv(s.acts[d]);
    assert InHand(s.slots[s.acts[d].slot], d) == Owed(s.acts, s.acts[d].slot, d);
    forall i | 0 <= i < |s.slots| && i != s.acts[d].slot ensures InHand(s.slots[i], d) == 0 {
      assert InHand(s.slots[i], d) == Owed(s.acts, i, d);
    }
  }

  /** A delivery's share of its message is released at most once; while it is not, the message is with
      the call, or exactly once in the queue or the batch of its slot. */
  lemma NothingLostOrDoubled(s: State, d: nat)
    requires Reachable(s) && d < |s.acts| && s.acts[d].load.Msg?
    ensures s.acts[d].slot < |s.slots| && s.acts[d].freed <= 1
    ensures InHand(s.slots[s.acts[d].slot], d) + s.acts[d].freed == (if Carrying(s.acts[d].pc) then 0 else 1)
    ensures forall i :: 0 <= i < |s.slots| && i != s.acts[d].slot ==> InHand(s.slots[i], d) == 0
  {
    ReachableInv(s);
    OnePlace(s, d);
  }

  /** When a slot's index is back on the stack, its queue and batch are empty, and every delivery that
      was made to it has been released exactly once: nothing reaches the next connection. */
  lemma ReleasedWithTheSession(s: State, i: nat)
    requires Reachable(s) && i < |s.slots| && s.slots[i].returned == s.slots[i].accepts
    ensures s.slots[i].queue == [] && s.slots[i].batch == []
    ensures forall d :: 0 <= d < |s.acts| && s.acts[d].slot == i && s.acts[d].load.Msg? && !Carrying(s.acts[d].pc) ==>
              s.acts[d].freed == 1
  {
    ReachableInv(s);
    assert SlotInv(s.slots[i], Total(i, s.acts));
    forall d | 0 <= d < |s.acts| && s.acts[d].slot == i && s.acts[d].load.Msg? && !Carrying(s.acts[d].pc)
      ensures s.acts[d].freed == 1
    {
      NothingLostOrDoubled(s, d);
    }
  }

  /** What was released stays so, and deliveries stay where they are. */
  ghost predicate StillFreed(acts: seq<Act>, acts': seq<Act>) {
    |acts| <= |acts'| && forall d :: 0 <= d < |acts| ==> FreedAfter(acts[d], acts'[d])
  }

  ghost predicate FreedAfter(x: Act, y: Act) { y.slot == x.slot && y.load == x.load && y.freed >= x.freed }

  lemma ActionKeepsFreed(s: State, x: Action)
    requires Can(s, x)
    ensures StillFreed(s.acts, Do(s, x).acts)
  {
    if x.Move? { AppliedShape(s.acts, x.a, EffectOf(s, x.a, x.c)); }
    if x.AcceptMove? { AcceptShape(s); }
  }

  lemma {:induction false} RunKeepsFreed(s: State, w: seq<Action>)
    requires Path(s, w)
    ensures StillFreed(s.acts, Exec(s, w).acts)
  {
    if w != [] {
      var n := |w| - 1;
      var m := Exec(s, w[..n]);
      RunKeepsFreed(s, w[..n]);
      ActionKeepsFreed(m, w[n]);
      forall d | 0 <= d < |s.acts| ensures FreedAfter(s.acts[d], Exec(s, w).acts[d]) {
        assert FreedAfter(s.acts[d], m.acts[d]) && FreedAfter(m.acts[d], Exec(s, w).acts[d]);
      }
    }
  }

  /** And it stays so: in every later state, whoever has the slot by then, each delivery made to the earlier connection
      has been released exactly once, and is in no queue and no batch. */
  lemma ReleasedForGood(s: State, w: seq<Action>, i: nat, d: nat)
    requires Reachable(s) && i < |s.slots| && s.slots[i].returned == s.slots[i].accepts
    requires d < |s.acts| && s.acts[d].slot == i && s.acts[d].load.Msg? && !Carrying(s.acts[d].pc)
    requires Path(s, w)
    ensures d < |Exec(s, w).acts| && Exec(s, w).acts[d].freed == 1
    ensures forall j :: 0 <= j < |Exec(s, w).slots| ==> InHand(Exec(s, w).slots[j], d) == 0
  {
    ReleasedWithTheSession(s, i);
    RunKeepsFreed(s, w);
    assert FreedAfter(s.acts[d], Exec(s, w).acts[d]);
    ReachableInv(s);
    RunKeepsInv(s, w);
    OnePlace(Exec(s, w), d);
  }

  lemma {:induction false} SharesCount(m: nat, acts: seq<Act>)
    requires forall a :: 0 <= a < |acts| ==> LoadInv(acts[a])
    ensures Shares(m, acts) >= 0
    ensures Shares(m, acts) == 0 <==> forall a :: 0 <= a < |acts| && acts[a].load == Msg(m) ==> acts[a].freed == 1
  {
    if acts != [] {
      var n := |acts| - 1;
      SharesCount(m, acts[..n]);
      assert LoadInv(acts[n]);
      forall a | 0 <= a < n ensures acts[a] == acts[..n][a] {}
    }
  }

  /** `iUseCnt` never goes below zero, and is zero exactly when every target's share was released. */
  lemma UseCountIsShares(s: State, m: nat)
    requires Reachable(s) && m in s.uses
    ensures s.uses[m] == Shares(m, s.acts) >= 0
    ensures s.uses[m] == 0 <==> forall a :: 0 <= a < |s.acts| && s.acts[a].load == Msg(m) ==> s.acts[a].freed == 1
  {
    ReachableInv(s);
    SharesCount(m, s.acts);
  }

  // ---- the index stack

  /** No index is on the stack twice; the stack, the accept thread and the open or closing sessions share out
      the indices; and the two counters differ from MaxSessions only inside their windows. */
  lemma IndicesAreConserved(s: State)
    requires Reachable(s)
    ensures Distinct(s.free)
    ensures forall i :: 0 <= i < |s.slots| ==>
              var used := s.slots[i].accepts == s.slots[i].returned + 1;
              var taken := !s.accept.Waiting? && s.accept.idx == i;
              && !(i in s.free && taken) && (used <==> i !in s.free && !taken)
    ensures |s.free| + s.sessionCount + Window(s.acts) + (if s.accept.Waiting? then 0 else 1) == |s.slots|
  {
    ReachableInv(s);
    forall i | 0 <= i < |s.slots|
      ensures s.slots[i].accepts == s.slots[i].returned + 1 <==> s.slots[i].stage == Open || s.slots[i].stage == Closed
    {
      assert SlotInv(s.slots[i], Total(i, s.acts));
    }
  }
}
