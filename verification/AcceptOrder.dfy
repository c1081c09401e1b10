/** Which session an accept takes, and what it makes of it: the index stack gives back last what was returned last. */
module AcceptOrder {
  import opened Frames
  import opened SessionStep
  import opened Server
  import opened ServerInv
  import opened ServerMove
  import opened ServerRun
  import opened CountGuarantees

  /** A waiting accept takes the top of the index stack. */
  lemma TakesTop(s: State, i: nat, rest: seq<nat>)
    requires s.accept == Waiting && s.free == [i] + rest && i < |s.slots|
    ensures var s' := Do(s, AcceptMove); s'.accept == Opening(i) && s'.free == rest
  {
    assert s.free[1..] == rest;
  }

  /** One more step of the accept thread. */
  function Again(s: State): State { if Can(s, AcceptMove) then Do(s, AcceptMove) else s }

  lemma OpensNext(s: State, i: nat)
    requires s.accept == Opening(i) && i < |s.slots|
    ensures Again(s) == s.(accept := Flagging(i), slots := s.slots[i := s.slots[i].(live := true)])
  {
  }

  lemma FlagsNext(s: State, i: nat)
    requires s.accept == Flagging(i) && i < |s.slots|
    ensures Again(s) ==
            s.(accept := Naming(i), slots := s.slots[i := s.slots[i].(sendFlag := false, orphan := false)])
  {
  }

  lemma NamesNext(s: State, i: nat, id: nat)
    requires Fits(s) && s.accept == Naming(i) && i < |s.slots| && id == i * 0x8000_0000_0000 + |s.issued|
    ensures Again(s) ==
            s.(accept := Counting(i), slots := s.slots[i := s.slots[i].(seqID := id)], issued := s.issued + [id])
  {
    NewIdParts(s, i);
  }

  /** `m_ioCount = 1`, in a new generation. */
  function Counted(sl: Slot): Slot {
    sl.(ioCount := 1, stage := Open, accepts := sl.accepts + 1, unsent := false, staleZero := false, pushed := [],
        popped := [], handed := [])
  }

  lemma CountsNext(s: State, i: nat, id: nat)
    requires s.accept == Counting(i) && i < |s.slots| && s.slots[i].seqID == id
    ensures Again(s) == s.(accept := Waiting, slots := s.slots[i := Counted(s.slots[i])],
                           acts := s.acts + [Act(i, AcceptCount, id, NoMsg, false, 0)])
  {
  }

  lemma TakesNext(s: State, i: nat, rest: seq<nat>)
    requires s.accept == Waiting && s.free == [i] + rest && i < |s.slots|
    ensures Again(s) == s.(free := rest, accept := Opening(i), slots := s.slots[i := s.slots[i].(stage := Taken)])
  {
    assert s.free[1..] == rest;
  }

  /** The whole accept, with nothing in between: the session that the top of the stack names comes alive with its flag
      down, under the next ID, with one reference, and its first receive about to be posted. */
  lemma AcceptAlone(s: State, i: nat, rest: seq<nat>, id: nat)
    requires Fits(s) && s.accept == Waiting && s.free == [i] + rest && i < |s.slots|
    requires id == i * 0x8000_0000_0000 + |s.issued|
    ensures Again(Again(Again(Again(Again(s))))) ==
            s.(free := rest, issued := s.issued + [id], acts := s.acts + [Act(i, AcceptCount, id, NoMsg, false, 0)],
               slots := s.slots[i := Counted(s.slots[i]).(live := true, sendFlag := false, orphan := false,
                                                          seqID := id)])
  {
    TakesNext(s, i, rest);
    var s1 := Again(s);
    OpensNext(s1, i);
    var s2 := Again(s1);
    FlagsNext(s2, i);
    var s3 := Again(s2);
    NamesNext(s3, i, id);
    CountsNext(Again(s3), i, id);
  }

  // ---- last in, first out

  /** The index push puts the session's index on top. */
  lemma PushesIndex(s: State, a: nat, c: Choice)
    requires Reachable(s) && Can(s, Move(a, c)) && s.acts[a].pc == RelPush
    ensures Do(s, Move(a, c)).free == [s.acts[a].slot] + s.free && Do(s, Move(a, c)).accept == s.accept
  {
    ReachableInv(s);
  }

  /** The lowest part of the stack is `low`. */
  predicate Rests(low: seq<nat>, free: seq<nat>) {
    |low| <= |free| && free[|free| - |low|..] == low
  }

  /** One action takes the top, or puts one on it, or leaves the stack alone. */
  lemma OneAtTheTop(s: State, x: Action)
    requires Can(s, x)
    ensures var f := Do(s, x).free;
      f == s.free || (s.free != [] && f == s.free[1..]) || (f != [] && f[1..] == s.free)
  {
  }

  lemma RestsOn(low: seq<nat>, f: seq<nat>, g: seq<nat>)
    requires Rests(low, f) && |low| <= |g| && (g == f || (f != [] && g == f[1..]) || (g != [] && g[1..] == f))
    ensures Rests(low, g)
  {
    if g != f && f != [] && g == f[1..] {
      assert g[|g| - |low|..] == f[|f| - |low|..];
    } else if g != f {
      assert g[|g| - |low|..] == g[1..][|f| - |low|..];
    }
  }

  /** The stack never falls below `depth` along `w`. */
  ghost predicate StaysAbove(s: State, w: seq<Action>, depth: nat)
    requires Path(s, w)
  {
    |Exec(s, w).free| >= depth && (w == [] || StaysAbove(s, w[..|w| - 1], depth))
  }

  /** What is on the stack stays there, in order, along every run that does not fall below it. */
  lemma {:induction false} StackRests(s: State, w: seq<Action>)
    requires Path(s, w) && StaysAbove(s, w, |s.free|)
    ensures Rests(s.free, Exec(s, w).free)
  {
    if w != [] {
      var n := |w| - 1;
      StackRests(s, w[..n]);
      OneAtTheTop(Exec(s, w[..n]), w[n]);
      RestsOn(s.free, Exec(s, w[..n]).free, Exec(s, w).free);
    }
  }

  /** `s1` is `s` after activity `a` has returned its session's index. */
  ghost predicate Returned(s: State, a: nat, s1: State) {
    exists c :: Can(s, Move(a, c)) && s.acts[a].pc == RelPush && s1 == Do(s, Move(a, c))
  }

  /** Some run leads from `s1` to `s2`, and the stack is never below what it is in both. */
  ghost predicate Level(s1: State, s2: State) {
    |s1.free| == |s2.free| && exists w :: Path(s1, w) && Exec(s1, w) == s2 && StaysAbove(s1, w, |s1.free|)
  }

  /** An index that is returned is the next one taken, by the first accept that finds the stack as high as the return
      has left it; whatever runs in between. */
  lemma LastReturnedFirst(s: State, a: nat, s1: State, s2: State)
    requires Reachable(s) && a < |s.acts| && Returned(s, a, s1) && Level(s1, s2) && s2.accept == Waiting
    ensures Do(s2, AcceptMove).accept == Opening(s.acts[a].slot) && Do(s2, AcceptMove).free == s.free
  {
    ReachableInv(s);
    var c :| Can(s, Move(a, c)) && s.acts[a].pc == RelPush && s1 == Do(s, Move(a, c));
    var w :| Path(s1, w) && Exec(s1, w) == s2 && StaysAbove(s1, w, |s1.free|);
    PushesIndex(s, a, c);
    StackRests(s1, w);
    SameSize(s1, w);
    SizeStays(s, Move(a, c));
    TakesTop(s2, s.acts[a].slot, s.free);
  }

  lemma SizeStays(s: State, x: Action)
    requires Can(s, x)
    ensures |Do(s, x).slots| == |s.slots|
  {
  }

  lemma {:induction false} SameSize(s: State, w: seq<Action>)
    requires Path(s, w)
    ensures |Exec(s, w).slots| == |s.slots|
  {
    if w != [] {
      var n := |w| - 1;
      SameSize(s, w[..n]);
      SizeStays(Exec(s, w[..n]), w[n]);
    }
  }

  // ---- from Start

  /** No index has been returned yet. */
  ghost predicate NoneBack(s: State) { forall i :: 0 <= i < |s.slots| ==> s.slots[i].returned == 0 }

  /** Indices taken so far; each gets an ID, but one may still be waiting for it. */
  function TakenSoFar(s: State): nat {
    |s.issued| + (if s.accept.Opening? || s.accept.Flagging? || s.accept.Naming? then 1 else 0)
  }

  /** The stack holds what Start has pushed, less what was taken from its top. */
  ghost predicate Untouched(s: State) {
    && TakenSoFar(s) + |s.free| == |s.slots|
    && forall k :: 0 <= k < |s.free| ==> s.free[k] == |s.free| - 1 - k
  }

  lemma MoveLeavesStack(s: State, a: nat, c: Choice)
    requires Can(s, Move(a, c)) && NoneBack(Do(s, Move(a, c)))
    ensures NoneBack(s) && Do(s, Move(a, c)).free == s.free && TakenSoFar(Do(s, Move(a, c))) == TakenSoFar(s)
    ensures |Do(s, Move(a, c)).slots| == |s.slots|
  {
    var i, p := s.acts[a].slot, s.acts[a].pc;
    ReturnsOne(s.slots[i], a, s.acts[a].id, p, c);
    var s' := Do(s, Move(a, c));
    assert s'.slots[i].returned == 0;
    forall k | 0 <= k < |s.slots| ensures s.slots[k].returned == 0 { assert s'.slots[k].returned == 0; }
  }

  lemma ReturnsOne(sl: Slot, me: nat, id: nat, p: Pc, c: Choice)
    ensures Step(sl, me, id, p, c).slot.returned == sl.returned + (if p.RelPush? then 1 else 0)
  {
    StepFrame(sl, me, id, p, c, Step(sl, me, id, p, c));
  }

  lemma AcceptLeavesStack(s: State)
    requires Can(s, AcceptMove) && Untouched(s) && NoneBack(Do(s, AcceptMove))
    ensures NoneBack(s) && Untouched(Do(s, AcceptMove))
  {
    var s' := Do(s, AcceptMove);
    forall k | 0 <= k < |s.slots| ensures s.slots[k].returned == 0 { assert s'.slots[k].returned == 0; }
  }

  /** As long as nothing has been returned. */
  lemma {:induction false} StackFromStart(s: State, w: seq<Action>)
    requires Init(s) && Path(s, w) && NoneBack(Exec(s, w))
    ensures Untouched(Exec(s, w))
  {
    if w != [] {
      var n := |w| - 1;
      var t := Exec(s, w[..n]);
      match w[n]
      case Move(a, c) =>
        MoveLeavesStack(t, a, c);
        StackFromStart(s, w[..n]);
      case AcceptMove =>
        AcceptBack(t);
        StackFromStart(s, w[..n]);
        AcceptLeavesStack(t);
      case Send(_, _) => StackFromStart(s, w[..n]);
      case Disconnect(_) => StackFromStart(s, w[..n]);
    }
  }

  lemma AcceptBack(s: State)
    requires Can(s, AcceptMove) && NoneBack(Do(s, AcceptMove))
    ensures NoneBack(s)
  {
    var s' := Do(s, AcceptMove);
    forall k | 0 <= k < |s.slots| ensures s.slots[k].returned == 0 { assert s'.slots[k].returned == 0; }
  }

  /** From Start with `max` sessions accept number `k`, counted from 0, takes index `max` - 1 - `k`, as long as nothing
      has been returned; and then there is such an index until all are taken. */
  lemma FirstAccepts(s: State, w: seq<Action>, k: nat)
    requires Init(s) && Path(s, w) && NoneBack(Exec(s, w))
    requires Exec(s, w).accept == Waiting && |Exec(s, w).issued| == k
    ensures var t := Exec(s, w);
      if k < |s.slots| then Do(t, AcceptMove).accept == Opening(|s.slots| - 1 - k)
      else k == |s.slots| && Do(t, AcceptMove) == t
  {
    StackFromStart(s, w);
    SameSize(s, w);
    var t := Exec(s, w);
    if k < |s.slots| { TakesTop(t, |s.slots| - 1 - k, t.free[1..]); }
  }
}
