/** What the server promises in every state of every run. */
module CountGuarantees {
  import opened Frames
  import opened SessionStep
  import opened Server
  import opened ServerInv
  import opened ServerMove
  import opened ServerRun

  /** `s` is reached by some schedule of atomic actions after Start. */
  ghost predicate Reachable(s: State) {
    Fits(s) && exists s0: State, w: seq<Action> :: Init(s0) && Path(s0, w) && Exec(s0, w) == s
  }

  lemma ReachableInv(s: State)
    requires Reachable(s)
    ensures Inv(s)
  {
    var s0: State, w: seq<Action> :| Init(s0) && Path(s0, w) && Exec(s0, w) == s;
    InitInv(s0);
    RunKeepsInv(s0, w);
  }

  predicate WasAccepted(s: State, i: nat) { i < |s.slots| && s.slots[i].accepts > 0 }

  /** The activities of slot `i` are those of `rest` and number `a`. */
  lemma OneOf(s: State, i: nat, a: nat) returns (rest: Sums)
    requires a < |s.acts| && s.acts[a].slot == i
    ensures Total(i, s.acts) == Plus(rest, s.acts[a].pc) && Coherent(rest, |s.acts|)
  {
    rest := Total(i, Without(s.acts, a));
    TotalSplit(i, s.acts, a);
    TotalCoherent(i, Without(s.acts, a));
  }

  lemma TwoOf(s: State, i: nat, a: nat, b: nat) returns (rest: Sums)
    requires a < |s.acts| && b < |s.acts| && a != b && s.acts[a].slot == i && s.acts[b].slot == i
    ensures Total(i, s.acts) == Plus(Plus(rest, s.acts[b].pc), s.acts[a].pc) && Coherent(rest, |s.acts|)
  {
    var others := Without(s.acts, a);
    var b' := if b < a then b else b - 1;
    assert others[b'] == s.acts[b];
    rest := Total(i, Without(others, b'));
    TotalSplit(i, s.acts, a);
    TotalSplit(i, others, b');
    TotalCoherent(i, Without(others, b'));
  }

  // ---- the reference count

  /** While bit 47 is clear, `m_ioCount` is the number of references and no release is under way; once
      it is set there are no references. */
  lemma CountIsReferences(s: State, i: nat)
    requires Reachable(s) && WasAccepted(s, i)
    ensures var n := s.slots[i].ioCount; var t := Total(i, s.acts);
      && n < 2 * BIT47
      && (!Flagged(n) ==> n == t.refs && t.chain == 0)
      && (Flagged(n) ==> t.refs == 0)
  {
    ReachableInv(s);
    TotalCoherent(i, s.acts);
    assert SlotInv(s.slots[i], Total(i, s.acts));
  }

  /** ReleaseComplete and clsSession::Release run alone: while an activity is between a won release CAS
      and the index push, no other activity holds a reference or is releasing too. */
  lemma ReleaseRunsAlone(s: State, a: nat, b: nat)
    requires Reachable(s) && a < |s.acts| && b < |s.acts| && a != b && s.acts[a].slot == s.acts[b].slot
    requires Chain(s.acts[a].pc) == 1
    ensures Refs(s.acts[b].pc) == 0 && Chain(s.acts[b].pc) == 0
  {
    ReachableInv(s);
    var i := s.acts[a].slot;
    assert SlotInv(s.slots[i], Total(i, s.acts));
    var rest := TwoOf(s, i, a, b);
  }

  /** A decrement never wraps, and those of WSARecvError and WSASendError never reach zero. */
  lemma DecrementsAreSafe(s: State, a: nat)
    requires Reachable(s) && a < |s.acts| && Refs(s.acts[a].pc) >= 1
    ensures s.acts[a].slot < |s.slots|
    ensures var n := s.slots[s.acts[a].slot].ioCount; var p := s.acts[a].pc;
      && !Flagged(n) && n >= Refs(p) && Dec(n) == n - 1
      && (p.RecvErrDec? || p.SendErrDec? ==> Dec(n) >= 1)
  {
    ReachableInv(s);
    var i := s.acts[a].slot;
    assert SlotInv(s.slots[i], Total(i, s.acts));
    TotalCoherent(i, s.acts);
    var rest := OneOf(s, i, a);
  }

  /** The receive buffer of a session has one user at a time. */
  lemma OneReader(s: State, a: nat, b: nat)
    requires Reachable(s) && a < |s.acts| && b < |s.acts| && a != b && s.acts[a].slot == s.acts[b].slot
    ensures Reader(s.acts[a].pc) == 0 || Reader(s.acts[b].pc) == 0
  {
    ReachableInv(s);
    var i := s.acts[a].slot;
    assert SlotInv(s.slots[i], Total(i, s.acts));
    var rest := TwoOf(s, i, a, b);
  }

  // ---- generations

  /** After a true SessionLock (and after Disconnect's ID check) the slot belongs to the caller's
      generation and is not being released. */
  lemma LockPins(s: State, a: nat)
    requires Reachable(s) && a < |s.acts| && Pinned(s.acts[a].pc)
    ensures s.acts[a].slot < |s.slots|
    ensures var sl := s.slots[s.acts[a].slot]; var t := Total(s.acts[a].slot, s.acts);
      sl.seqID == s.acts[a].id && !Flagged(sl.ioCount) && t.chain == 0 && sl.posts + 1 == sl.accepts
  {
    ReachableInv(s);
    var i := s.acts[a].slot;
    assert SlotInv(s.slots[i], Total(i, s.acts));
    TotalCoherent(i, s.acts);
    var rest := OneOf(s, i, a);
  }

  ghost predicate SameGeneration(sl: Slot, sl': Slot) {
    sl'.seqID == sl.seqID && sl'.accepts == sl.accepts && sl'.posts == sl.posts && sl'.returned == sl.returned
  }

  lemma MoveKeepsGeneration(s: State, a: nat, b: nat, c: Choice)
    requires Inv(s) && a < |s.acts| && Pinned(s.acts[a].pc) && Can(s, Move(b, c)) && s.acts[b].slot == s.acts[a].slot
    ensures SameGeneration(s.slots[s.acts[a].slot], EffectOf(s, b, c).slot)
  {
    var i := s.acts[a].slot;
    assert SlotInv(s.slots[i], Total(i, s.acts));
    TakenIsUnpinned(s, a);
    var rest := OneOf(s, i, b);
    assert Chain(s.acts[b].pc) == 0;
    StepFrame(s.slots[i], b, s.acts[b].id, s.acts[b].pc, c, EffectOf(s, b, c));
  }

  lemma AcceptLeaves(s: State, i: nat)
    requires IndexInv(s) && Can(s, AcceptMove) && i < |s.slots|
    requires s.slots[i].stage == Open || s.slots[i].stage == Closed
    ensures i < |DoAccept(s).slots| && DoAccept(s).slots[i] == s.slots[i]
  {
    if s.accept.Waiting? && s.free != [] { assert s.free[0] in s.free; }
  }

  lemma ActionKeepsGeneration(s: State, a: nat, x: Action)
    requires Inv(s) && a < |s.acts| && Pinned(s.acts[a].pc) && Can(s, x)
    ensures var i := s.acts[a].slot; i < |s.slots| == |Do(s, x).slots|
    ensures SameGeneration(s.slots[s.acts[a].slot], Do(s, x).slots[s.acts[a].slot])
    ensures |Do(s, x).acts| >= |s.acts| && Do(s, x).acts[a].slot == s.acts[a].slot
  {
    if x.Move? {
      AppliedShape(s.acts, x.a, EffectOf(s, x.a, x.c));
      if s.acts[x.a].slot == s.acts[a].slot { MoveKeepsGeneration(s, a, x.a, x.c); }
    } else if x.AcceptMove? {
      TakenIsUnpinned(s, a);
      AcceptShape(s);
      AcceptLeaves(s, s.acts[a].slot);
    }
  }

  /** Activity `a` is pinned in every state from which `w` acts. */
  ghost predicate PinnedAlong(s: State, w: seq<Action>, a: nat)
    requires Path(s, w)
  {
    w == [] || (var n := |w| - 1;
                PinnedAlong(s, w[..n], a) && a < |Exec(s, w[..n]).acts| && Pinned(Exec(s, w[..n]).acts[a].pc))
  }

  /** The generation stays pinned for as long as the call has not unlocked, whatever else runs. */
  lemma {:induction false} PinLasts(s: State, w: seq<Action>, a: nat)
    requires Inv(s) && Path(s, w) && a < |s.acts| && PinnedAlong(s, w, a)
    ensures a < |Exec(s, w).acts| && Exec(s, w).acts[a].slot == s.acts[a].slot
    ensures s.acts[a].slot < |s.slots| == |Exec(s, w).slots|
    ensures SameGeneration(s.slots[s.acts[a].slot], Exec(s, w).slots[s.acts[a].slot])
  {
    if w != [] {
      var n := |w| - 1;
      PinLasts(s, w[..n], a);
      RunKeepsInv(s, w[..n]);
      ActionKeepsGeneration(Exec(s, w[..n]), a, w[n]);
    }
  }
}
