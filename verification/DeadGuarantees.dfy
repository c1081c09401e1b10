/** What clearing the live bit does: a dead session stays dead, and no new receive or send is started on it. */
module DeadGuarantees {
  import opened Frames
  import opened SessionStep
  import opened Server
  import opened ServerInv
  import opened ServerMove
  import opened ServerRun
  import opened CountGuarantees

  /** Slot `i` is in a connection whose live bit is clear. */
  ghost predicate Dead(s: State, i: nat) {
    i < |s.slots| && (s.slots[i].stage == Open || s.slots[i].stage == Closed) && !s.slots[i].live
  }

  /** Every activity starting an operation on slot `i` in `s'` was doing so in `s`. */
  ghost predicate NoneStarted(s: State, s': State, i: nat) {
    forall b :: 0 <= b < |s'.acts| && s'.acts[b].slot == i && Starting(s'.acts[b].pc) ==>
      b < |s.acts| && s.acts[b].slot == i && Starting(s.acts[b].pc)
  }

  lemma MoveKeepsDead(s: State, a: nat, c: Choice, i: nat)
    requires Inv(s) && Fits(s) && Can(s, Move(a, c)) && Dead(s, i)
    requires DoMove(s, a, c).slots[i].returned == s.slots[i].returned
    ensures Dead(DoMove(s, a, c), i)
  {
    var act := s.acts[a];
    var e := EffectOf(s, a, c);
    StepFrame(s.slots[act.slot], a, act.id, act.pc, c, e);
    MoveStage(s, a, c, e);
  }

  lemma MoveStartsNone(s: State, a: nat, c: Choice, i: nat)
    requires Can(s, Move(a, c)) && Dead(s, i)
    ensures NoneStarted(s, DoMove(s, a, c), i)
  {
    var act := s.acts[a];
    var e := EffectOf(s, a, c);
    AppliedShape(s.acts, a, e);
    StepFrame(s.slots[act.slot], a, act.id, act.pc, c, e);
  }

  lemma StepKeepsDead(s: State, x: Action, i: nat)
    requires Inv(s) && Fits(s) && Can(s, x) && Dead(s, i)
    requires Do(s, x).slots[i].returned == s.slots[i].returned
    ensures Dead(Do(s, x), i) && NoneStarted(s, Do(s, x), i)
  {
    if x.Move? {
      MoveKeepsDead(s, x.a, x.c, i);
      MoveStartsNone(s, x.a, x.c, i);
    } else if x.AcceptMove? {
      AcceptLeaves(s, i);
      AcceptShape(s);
    }
  }

  lemma ReturnedGrows(s: State, x: Action, i: nat)
    requires Can(s, x) && i < |s.slots|
    ensures i < |Do(s, x).slots| && s.slots[i].returned <= Do(s, x).slots[i].returned
  {
    if x.Move? {
      var act := s.acts[x.a];
      StepFrame(s.slots[act.slot], x.a, act.id, act.pc, x.c, EffectOf(s, x.a, x.c));
    }
  }

  lemma {:induction false} RunReturned(s: State, w: seq<Action>, i: nat)
    requires Path(s, w) && i < |s.slots|
    ensures i < |Exec(s, w).slots| && s.slots[i].returned <= Exec(s, w).slots[i].returned
  {
    if w != [] {
      var n := |w| - 1;
      RunReturned(s, w[..n], i);
      ReturnedGrows(Exec(s, w[..n]), w[n], i);
    }
  }

  /** Through any run that does not return its index a dead session stays dead, and every operation then being
      started on it was already past its test of the live bit. */
  lemma {:induction false} DeadStays(s: State, w: seq<Action>, i: nat)
    requires Inv(s) && Path(s, w) && Dead(s, i)
    requires i < |Exec(s, w).slots| && Exec(s, w).slots[i].returned == s.slots[i].returned
    ensures Dead(Exec(s, w), i) && NoneStarted(s, Exec(s, w), i)
  {
    if w != [] {
      var n := |w| - 1;
      var m := Exec(s, w[..n]);
      RunReturned(s, w[..n], i);
      ReturnedGrows(m, w[n], i);
      DeadStays(s, w[..n], i);
      RunKeepsInv(s, w[..n]);
      StepKeepsDead(m, w[n], i);
    }
  }

  /** Disconnect of the current ID: from its exchange on the session is dead until its index is returned. */
  lemma DisconnectKills(s: State, a: nat, c: Choice, w: seq<Action>, i: nat)
    requires Reachable(s) && Can(s, Move(a, c)) && s.acts[a].pc == DiscKill && s.acts[a].slot == i
    requires Path(DoMove(s, a, c), w) && i < |Exec(DoMove(s, a, c), w).slots|
    requires Exec(DoMove(s, a, c), w).slots[i].returned == s.slots[i].returned
    ensures s.slots[i].seqID == s.acts[a].id
    ensures !Exec(DoMove(s, a, c), w).slots[i].live && NoneStarted(s, Exec(DoMove(s, a, c), w), i)
  {
    ReachableInv(s);
    LockPins(s, a);
    KillStep(s, a, c, i);
    StepKeepsInv(s, Move(a, c));
    DeadStays(DoMove(s, a, c), w, i);
  }

  lemma KillStep(s: State, a: nat, c: Choice, i: nat)
    requires Inv(s) && Fits(s) && Can(s, Move(a, c)) && s.acts[a].pc == DiscKill && s.acts[a].slot == i
    ensures var s' := DoMove(s, a, c);
            && Dead(s', i) && s'.slots[i].returned == s.slots[i].returned && NoneStarted(s, s', i)
  {
    AppliedShape(s.acts, a, EffectOf(s, a, c));
    TakenIsUnpinned(s, a);
  }
}
