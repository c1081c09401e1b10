/** How long a stranded session stays so, and which calls bring it back. */
module Rescue {
  import opened SessionStep
  import opened SessionCalls
  import opened Frames
  import opened Server
  import opened ServerInv
  import opened ServerMove
  import opened ServerRun
  import opened CountGuarantees
  import opened SessionGuarantees

  // ---- what cannot bring it back

  /** Calls that hold no reference, and Disconnect up to its exchange. */
  predicate Idle(p: Pc) {
    p.LockInc? || p.RejectMsg? || p.RelCount? || p.Done? || p.DiscInc? || p.DiscCheck? || p.DiscKill? || p.StaleDrop?
  }

  /** Slot `i` is in a connection, and every activity on it is of that kind. */
  ghost predicate Adrift(s: State, i: nat) {
    && i < |s.slots| && s.slots[i].stage == Open
    && forall a :: 0 <= a < |s.acts| && s.acts[a].slot == i ==> Idle(s.acts[a].pc)
  }

  /** The first step of SessionLock, and the exchange of a Disconnect that has found its ID. */
  predicate Rescues(s: State, x: Action, i: nat)
    requires Can(s, x)
  {
    x.Move? && s.acts[x.a].slot == i && (s.acts[x.a].pc.LockInc? || s.acts[x.a].pc.DiscKill?)
  }

  lemma StrandedIsAdrift(s: State, i: nat)
    requires Reachable(s) && StrandedSlot(s, i)
    ensures Adrift(s, i) && s.slots[i].posts + 1 == s.slots[i].accepts
  {
    ReachableInv(s);
    TotalCoherent(i, s.acts);
    assert SlotInv(s.slots[i], Total(i, s.acts));
    forall a | 0 <= a < |s.acts| && s.acts[a].slot == i ensures Idle(s.acts[a].pc) {
      var rest := OneOf(s, i, a);
      HoldsNothing(rest, s.acts[a].pc);
    }
  }

  lemma HoldsNothing(rest: Sums, p: Pc)
    requires Plus(rest, p).refs == Plus(rest, p).due == Plus(rest, p).chain == 0
    ensures Idle(p)
  {
  }

  lemma IdleStep(sl: Slot, me: nat, id: nat, p: Pc, c: Choice, e: Effect)
    requires Idle(p) && !p.LockInc? && !p.DiscKill? && e == Step(sl, me, id, p, c)
    ensures Idle(e.pc) && e.spawn == Nothing
  {
    if LockPc(p) {
      assert e == LockStep(sl, me, id, p, c);
    } else if DropPc(p) {
      assert e == DropStep(sl, me, id, p, c);
    } else {
      assert e == TeardownStep(sl, me, id, p, c);
    }
  }

  lemma MoveKeepsAdrift(s: State, a: nat, c: Choice, i: nat)
    requires Can(s, Move(a, c)) && Adrift(s, i) && !Rescues(s, Move(a, c), i)
    ensures Adrift(DoMove(s, a, c), i) && SameGeneration(s.slots[i], DoMove(s, a, c).slots[i])
  {
    var act := s.acts[a];
    var e := EffectOf(s, a, c);
    AppliedShape(s.acts, a, e);
    if act.slot == i {
      IdleStep(s.slots[i], a, act.id, act.pc, c, e);
      StepFrame(s.slots[i], a, act.id, act.pc, c, e);
    }
  }

  lemma ActionKeepsAdrift(s: State, x: Action, i: nat)
    requires IndexInv(s) && Can(s, x) && Adrift(s, i) && !Rescues(s, x, i)
    ensures Adrift(Do(s, x), i) && SameGeneration(s.slots[i], Do(s, x).slots[i])
  {
    if x.Move? {
      MoveKeepsAdrift(s, x.a, x.c, i);
    } else if x.AcceptMove? {
      AcceptLeaves(s, i);
      AcceptShape(s);
    }
  }

  /** No step along `w` is of the two kinds. */
  ghost predicate NoRescue(s: State, w: seq<Action>, i: nat)
    requires Path(s, w)
  {
    w == [] || (var n := |w| - 1; NoRescue(s, w[..n], i) && !Rescues(Exec(s, w[..n]), w[n], i))
  }

  lemma {:induction false} AdriftLasts(s: State, w: seq<Action>, i: nat)
    requires Inv(s) && Adrift(s, i) && Path(s, w) && NoRescue(s, w, i)
    ensures Adrift(Exec(s, w), i) && SameGeneration(s.slots[i], Exec(s, w).slots[i])
  {
    if w != [] {
      var n := |w| - 1;
      AdriftLasts(s, w[..n], i);
      RunKeepsInv(s, w[..n]);
      ActionKeepsAdrift(Exec(s, w[..n]), w[n], i);
    }
  }

  /** A stranded session stays: along every run in which no SessionLock begins on it and no Disconnect reaches its
      exchange, its release is not posted, its index is not returned, and nobody else gets the slot. */
  lemma StrandedLasts(s: State, w: seq<Action>, i: nat)
    requires Reachable(s) && StrandedSlot(s, i) && Path(s, w) && NoRescue(s, w, i)
    ensures i < |Exec(s, w).slots| && SameGeneration(s.slots[i], Exec(s, w).slots[i])
    ensures Exec(s, w).slots[i].stage == Open && Exec(s, w).slots[i].posts + 1 == Exec(s, w).slots[i].accepts
  {
    ReachableInv(s);
    StrandedIsAdrift(s, i);
    AdriftLasts(s, w, i);
  }

  // ---- what brings it back

  function Only(a: nat, c: Choice, n: nat): seq<Action> { seq(n, _ => Move(a, c)) }

  predicate Born(act: Act, i: nat, p: Pc) { act.slot == i && act.pc == p }

  /** The trail `t` of activity `a` of `s` has become the state `s'`. */
  ghost predicate Shows(s: State, a: nat, t: Trail, s': State) {
    && a < |s.acts| && s.acts[a].slot < |s.slots| == |s'.slots| && s'.issued == s.issued
    && |s'.acts| == |s.acts| + |t.spawned|
    && s'.acts[a].slot == s.acts[a].slot && s'.acts[a].id == s.acts[a].id && s'.acts[a].pc == t.pc
    && s'.slots[s.acts[a].slot] == t.slot
    && forall b :: |s.acts| <= b < |s'.acts| ==> Born(s'.acts[b], s.acts[a].slot, t.spawned[b - |s.acts|])
  }

  lemma MoveShows(s: State, a: nat, c: Choice, t: Trail, s': State, e: Effect)
    requires Shows(s, a, t, s') && Can(s', Move(a, c)) && e == EffectOf(s', a, c)
    ensures Shows(s, a, Grown(t, e), DoMove(s', a, c))
  {
    AppliedShape(s'.acts, a, e);
    var i := s.acts[a].slot;
    var s'' := DoMove(s', a, c);
    forall b | |s.acts| <= b < |s''.acts| ensures Born(s''.acts[b], i, Grown(t, e).spawned[b - |s.acts|]) {
      if b < |s'.acts| { assert Born(s'.acts[b], i, t.spawned[b - |s.acts|]); }
    }
  }

  lemma OnlyMore(s: State, a: nat, c: Choice, n: nat)
    requires Path(s, Only(a, c, n)) && Fits(Exec(s, Only(a, c, n))) && Can(Exec(s, Only(a, c, n)), Move(a, c))
    ensures Path(s, Only(a, c, n + 1))
    ensures Exec(s, Only(a, c, n + 1)) == DoMove(Exec(s, Only(a, c, n)), a, c)
  {
    var w := Only(a, c, n + 1);
    assert w[..n] == Only(a, c, n);
  }

  /** `s'` is reached from `s` by steps of activity `a` alone. */
  ghost predicate Ran(s: State, a: nat, c: Choice, s': State) {
    exists n: nat :: Path(s, Only(a, c, n)) && Exec(s, Only(a, c, n)) == s'
  }

  lemma RanNone(s: State, a: nat, c: Choice)
    ensures Ran(s, a, c, s)
  {
    assert Path(s, Only(a, c, 0)) && Exec(s, Only(a, c, 0)) == s;
  }

  lemma RanMore(s: State, a: nat, c: Choice, s': State)
    requires Ran(s, a, c, s') && Fits(s') && Can(s', Move(a, c))
    ensures Ran(s, a, c, DoMove(s', a, c))
  {
    var n: nat :| Path(s, Only(a, c, n)) && Exec(s, Only(a, c, n)) == s';
    OnlyMore(s, a, c, n);
  }

  function Always(c: Choice): Pc -> Choice { (p: Pc) => c }

  function Slotted(s: State, a: nat, c: Choice, n: nat): Trail
    requires Can(s, Move(a, c))
  {
    Alone(s.slots[s.acts[a].slot], a, s.acts[a].id, s.acts[a].pc, Always(c), n)
  }

  lemma SlottedMore(s: State, a: nat, c: Choice, n: nat, s': State, e: Effect)
    requires Can(s, Move(a, c)) && Shows(s, a, Slotted(s, a, c, n), s')
    requires Can(s', Move(a, c)) && e == EffectOf(s', a, c)
    ensures Slotted(s, a, c, n + 1) == Grown(Slotted(s, a, c, n), e)
  {
  }

  /** In the server `n` steps of one activity do to its slot what they do to the slot alone. */
  lemma {:induction false} RunShows(s: State, a: nat, c: Choice, n: nat) returns (s': State)
    requires Fits(s) && Can(s, Move(a, c)) && |s.acts| + |Slotted(s, a, c, n).spawned| < LIMIT
    ensures Ran(s, a, c, s') && Shows(s, a, Slotted(s, a, c, n), s')
  {
    if n == 0 {
      s' := s;
      RanNone(s, a, c);
    } else {
      s' := RunShows(s, a, c, n - 1);
      var e := EffectOf(s', a, c);
      SlottedMore(s, a, c, n - 1, s', e);
      RanMore(s, a, c, s');
      MoveShows(s, a, c, Slotted(s, a, c, n - 1), s', e);
      s' := DoMove(s', a, c);
    }
  }

  lemma LeadsShows(s: State, a: nat, c: Choice, t: Trail) returns (s': State)
    requires Fits(s) && Can(s, Move(a, c)) && |s.acts| + |t.spawned| < LIMIT
    requires Leads(s.slots[s.acts[a].slot], a, s.acts[a].id, s.acts[a].pc, Always(c), t)
    ensures Ran(s, a, c, s') && Shows(s, a, t, s')
  {
    var n: nat :| Alone(s.slots[s.acts[a].slot], a, s.acts[a].id, s.acts[a].pc, Always(c), n) == t;
    assert Slotted(s, a, c, n) == t;
    s' := RunShows(s, a, c, n);
  }

  /** Slot `i` of `s'` has had one post more than that of `s`, and it is pending. */
  ghost predicate Posted(s: State, s': State, i: nat) {
    && i < |s.slots| && i < |s'.slots| && s'.slots[i].posts == s.slots[i].posts + 1
    && |s'.acts| == |s.acts| + 1 && Born(s'.acts[|s.acts|], i, ReleasePosted)
  }

  lemma LockPosts(sl: Slot, me: nat, id: nat, c: Choice) returns (t: Trail)
    requires sl.ioCount == 0
    ensures Leads(sl, me, id, LockInc, Always(c), t) && t.spawned == [ReleasePosted] && t.slot == Released(sl)
  {
    t := LockAlone(sl, me, id, Always(c));
  }

  lemma DisconnectPosts(sl: Slot, me: nat, id: nat, c: Choice) returns (t: Trail)
    requires sl.ioCount == 0
    ensures Leads(sl, me, id, DiscInc, Always(c), t) && t.pc == Done
    ensures if id == sl.seqID then t.spawned == [ReleasePosted] && t.slot == Released(sl).(live := false)
            else t.spawned == [] && t.slot == sl.(staleZero := true)
  {
    t := DisconnectAlone(sl, me, id, Always(c));
  }

  lemma PostShows(s: State, a: nat, t: Trail, s': State)
    requires Shows(s, a, t, s') && t.spawned == [ReleasePosted] && t.slot.posts == s.slots[s.acts[a].slot].posts + 1
    ensures Posted(s, s', s.acts[a].slot)
  {
  }

  /** A SessionLock that runs undisturbed on a stranded session posts its release, whatever ID it has. */
  lemma LockRescues(s: State, i: nat, a: nat, c: Choice) returns (s': State)
    requires StrandedSlot(s, i) && Fits(s) && Can(s, Move(a, c)) && |s.acts| + 1 < LIMIT
    requires s.acts[a].slot == i && s.acts[a].pc == LockInc
    ensures Ran(s, a, c, s') && Posted(s, s', i)
  {
    var t := LockPosts(s.slots[i], a, s.acts[a].id, c);
    s' := LeadsShows(s, a, c, t);
    PostShows(s, a, t, s');
  }

  /** A Disconnect that runs undisturbed on a stranded session posts its release if and only if it has the session's
      ID; with another it leaves the session as it found it. */
  lemma DisconnectRescues(s: State, i: nat, a: nat, c: Choice) returns (s': State)
    requires StrandedSlot(s, i) && Fits(s) && Can(s, Move(a, c)) && |s.acts| + 1 < LIMIT
    requires s.acts[a].slot == i && s.acts[a].pc == DiscInc
    ensures Ran(s, a, c, s') && |s'.acts| > a && s'.acts[a].pc == Done
    ensures if s.acts[a].id == s.slots[i].seqID then Posted(s, s', i)
            else |s'.acts| == |s.acts| && i < |s'.slots| && s'.slots[i] == s.slots[i].(staleZero := true)
  {
    var t := DisconnectPosts(s.slots[i], a, s.acts[a].id, c);
    s' := LeadsShows(s, a, c, t);
    if s.acts[a].id == s.slots[i].seqID { PostShows(s, a, t, s'); }
  }
}
