/** A run of a one-slot server that strands its session: an ID of the slot's first connection reaches
    Disconnect while the second connection is being given up. */
module StrandedRun {
  import opened SessionStep
  import opened Server
  import opened ServerRun
  import opened CountGuarantees
  import opened SessionGuarantees

  ghost predicate Reaches(s: State, w: seq<Action>, s': State) { Path(s, w) && Exec(s, w) == s' }

  lemma Extend(s: State, w: seq<Action>, s1: State, x: Action, s2: State) returns (w': seq<Action>)
    requires Reaches(s, w, s1) && Fits(s1) && Can(s1, x) && Do(s1, x) == s2
    ensures Reaches(s, w', s2)
  {
    w' := w + [x];
    assert w'[..|w|] == w;
  }

  function Quiet(ioCount: nat, id: nat, stage: Stage, accepts: nat, posts: nat, returned: nat): Slot {
    NEWSLOT.(ioCount := ioCount, seqID := id, live := true, stage := stage, accepts := accepts, posts := posts,
             returned := returned)
  }

  function A(pc: Pc, id: nat): Act { Act(0, pc, id, NoMsg, false, 0) }

  function World(sl: Slot, acts: seq<Act>, count: int, issued: seq<nat>): State {
    State([sl], acts, [], Waiting, count, issued, map[])
  }

  /** A step that starts nothing and frees nothing, of activity `a` at `p`. */
  lemma Go(s0: State, w: seq<Action>, s: State, a: nat, p: Pc, c: Choice, sl: Slot, q: Pc) returns (w': seq<Action>)
    requires Reaches(s0, w, s) && Fits(s) && |s.slots| == 1 && s.uses == map[]
    requires a < |s.acts| && s.acts[a] == A(p, s.acts[a].id) && !p.RelPush?
    requires Step(s.slots[0], a, s.acts[a].id, p, c) == To(sl, q)
    ensures Reaches(s0, w', s.(slots := [sl], acts := s.acts[a := A(q, s.acts[a].id)],
                               sessionCount := s.sessionCount + Pending(p)))
  {
    var s' := s.(slots := [sl], acts := s.acts[a := A(q, s.acts[a].id)], sessionCount := s.sessionCount + Pending(p));
    assert s.acts[a := A(q, s.acts[a].id)] + [] == s.acts[a := A(q, s.acts[a].id)];
    w' := Extend(s0, w, s, Move(a, c), s');
  }

  /** A slot that is parked and has seen nothing but accepts and releases. */
  predicate Rested(s: State, sl: Slot) {
    && s.slots == [sl] && |s.issued| < 2 && |s.acts| < 3
    && sl == NEWSLOT.(ioCount := sl.ioCount, live := sl.live, seqID := sl.seqID, accepts := sl.accepts,
                      posts := sl.posts, returned := sl.returned)
  }

  /** The accept thread about to write the session ID. */
  function Nearly(s: State, sl: Slot): State {
    s.(free := [], accept := Naming(0), slots := [sl.(stage := Taken, live := true)])
  }

  /** The accept thread takes the only index. */
  lemma TakenUp(s0: State, w: seq<Action>, s: State, sl: Slot) returns (w': seq<Action>)
    requires Reaches(s0, w, s) && s.free == [0] && s.accept == Waiting && Rested(s, sl)
    ensures Reaches(s0, w', Nearly(s, sl))
  {
    var s1 := s.(free := [], accept := Opening(0), slots := [sl.(stage := Taken)]);
    var s2 := s1.(accept := Flagging(0), slots := [sl.(stage := Taken, live := true)]);
    w' := Extend(s0, w, s, AcceptMove, s1);
    w' := Extend(s0, w', s1, AcceptMove, s2);
    w' := Extend(s0, w', s2, AcceptMove, Nearly(s, sl));
  }

  /** And opens a session with it. */
  lemma Opened(s0: State, w: seq<Action>, s: State, sl: Slot) returns (w': seq<Action>)
    requires Reaches(s0, w, s) && s.free == [0] && s.accept == Waiting && Rested(s, sl)
    ensures var k := |s.issued|;
      Reaches(s0, w', World(Quiet(1, k, Open, sl.accepts + 1, sl.posts, sl.returned), s.acts + [A(AcceptCount, k)],
                            s.sessionCount, s.issued + [k]).(uses := s.uses))
  {
    var k := |s.issued|;
    var s3 := Nearly(s, sl);
    assert NewId(s3, 0) == k;
    var s4 := s3.(accept := Counting(0), slots := [sl.(stage := Taken, live := true, seqID := k)],
                  issued := s.issued + [k]);
    w' := TakenUp(s0, w, s, sl);
    w' := Extend(s0, w', s3, AcceptMove, s4);
    w' := Extend(s0, w', s4, AcceptMove,
                 World(Quiet(1, k, Open, sl.accepts + 1, sl.posts, sl.returned), s.acts + [A(AcceptCount, k)],
                       s.sessionCount, s.issued + [k]).(uses := s.uses));
  }

  /** OnAccept refuses the first connection: its only reference is dropped, */
  lemma Refused(s0: State, w: seq<Action>) returns (w': seq<Action>)
    requires Reaches(s0, w, World(Quiet(1, 0, Open, 1, 0, 0), [A(AcceptCount, 0)], 0, [0]))
    ensures Reaches(s0, w', World(Quiet(0, 0, Open, 1, 0, 0), [A(TryRelease(Finish), 0)], 1, [0]))
  {
    var open := Quiet(1, 0, Open, 1, 0, 0);
    w' := Go(s0, w, World(open, [A(AcceptCount, 0)], 0, [0]), 0, AcceptCount, First, open, Accepted);
    w' := Go(s0, w', World(open, [A(Accepted, 0)], 1, [0]), 0, Accepted, Second, open, DropRef(Finish, false));
    w' := Go(s0, w', World(open, [A(DropRef(Finish, false), 0)], 1, [0]), 0, DropRef(Finish, false), First,
             open.(ioCount := 0), TryRelease(Finish));
  }

  /** and the release posted. */
  lemma GivenUp(s0: State, w: seq<Action>) returns (w': seq<Action>)
    requires Reaches(s0, w, World(Quiet(0, 0, Open, 1, 0, 0), [A(TryRelease(Finish), 0)], 1, [0]))
    ensures Reaches(s0, w', World(Quiet(BIT47, 0, Closed, 1, 1, 0), [A(Done, 0), A(ReleasePosted, 0)], 1, [0]))
  {
    var closed := Quiet(BIT47, 0, Closed, 1, 0, 0);
    w' := Go(s0, w, World(Quiet(0, 0, Open, 1, 0, 0), [A(TryRelease(Finish), 0)], 1, [0]), 0, TryRelease(Finish), First,
             closed, PostRelease(Finish));
    w' := Extend(s0, w', World(closed, [A(PostRelease(Finish), 0)], 1, [0]), Move(0, First),
                 World(closed.(posts := 1), [A(Done, 0), A(ReleasePosted, 0)], 1, [0]));
  }

  lemma NothingToRelease(sl: Slot, me: nat, id: nat)
    requires sl.queue == [] && sl.batch == []
    ensures Step(sl, me, id, ReleasePosted, First) == To(sl, RelQueue)
    ensures Step(sl, me, id, RelQueue, First) == To(sl, RelBatch)
    ensures Step(sl, me, id, RelBatch, First) == To(sl, RelPush)
  {
  }

  /** ReleaseComplete finds nothing to release, */
  lemma Drained(s0: State, w: seq<Action>) returns (w': seq<Action>)
    requires Reaches(s0, w, World(Quiet(BIT47, 0, Closed, 1, 1, 0), [A(Done, 0), A(ReleasePosted, 0)], 1, [0]))
    ensures Reaches(s0, w', World(Quiet(BIT47, 0, Closed, 1, 1, 0), [A(Done, 0), A(RelPush, 0)], 1, [0]))
  {
    var closed := Quiet(BIT47, 0, Closed, 1, 1, 0);
    NothingToRelease(closed, 1, 0);
    w' := Go(s0, w, World(closed, [A(Done, 0), A(ReleasePosted, 0)], 1, [0]), 1, ReleasePosted, First, closed,
             RelQueue);
    w' := Go(s0, w', World(closed, [A(Done, 0), A(RelQueue, 0)], 1, [0]), 1, RelQueue, First, closed, RelBatch);
    w' := Go(s0, w', World(closed, [A(Done, 0), A(RelBatch, 0)], 1, [0]), 1, RelBatch, First, closed, RelPush);
  }

  /** and pushes the index back. */
  lemma Returned(s0: State, w: seq<Action>) returns (w': seq<Action>)
    requires Reaches(s0, w, World(Quiet(BIT47, 0, Closed, 1, 1, 0), [A(Done, 0), A(RelPush, 0)], 1, [0]))
    ensures Reaches(s0, w', World(Quiet(BIT47, 0, Parked, 1, 1, 1), [A(Done, 0), A(RelCount, 0)], 1, [0]).(free := [0]))
  {
    w' := Extend(s0, w, World(Quiet(BIT47, 0, Closed, 1, 1, 0), [A(Done, 0), A(RelPush, 0)], 1, [0]), Move(1, First),
                 World(Quiet(BIT47, 0, Parked, 1, 1, 1), [A(Done, 0), A(RelCount, 0)], 1, [0]).(free := [0]));
  }

  function Four(p: Pc, q: Pc): seq<Act> { [A(Done, 0), A(RelCount, 0), A(p, 1), A(q, 0)] }

  /** Disconnect(0) meets the second connection. */
  lemma Met(s0: State, w: seq<Action>) returns (w': seq<Action>)
    requires Reaches(s0, w, World(Quiet(1, 1, Open, 2, 1, 1), [A(Done, 0), A(RelCount, 0), A(AcceptCount, 1)], 1,
                                  [0, 1]))
    ensures Reaches(s0, w', World(Quiet(2, 1, Open, 2, 1, 1), Four(Accepted, StaleDrop), 2, [0, 1]))
  {
    var sl := Quiet(1, 1, Open, 2, 1, 1);
    var both := sl.(ioCount := 2);
    w' := Extend(s0, w, World(sl, [A(Done, 0), A(RelCount, 0), A(AcceptCount, 1)], 1, [0, 1]), Disconnect(0),
                 World(sl, Four(AcceptCount, DiscInc), 1, [0, 1]));
    w' := Go(s0, w', World(sl, Four(AcceptCount, DiscInc), 1, [0, 1]), 3, DiscInc, First, both, DiscCheck);
    w' := Go(s0, w', World(both, Four(AcceptCount, DiscCheck), 1, [0, 1]), 3, DiscCheck, First, both, StaleDrop);
    w' := Go(s0, w', World(both, Four(AcceptCount, StaleDrop), 1, [0, 1]), 2, AcceptCount, First, both, Accepted);
  }

  /** OnAccept refuses that one too, before Disconnect drops its reference. */
  lemma Dropped(s0: State, w: seq<Action>) returns (w': seq<Action>)
    requires Reaches(s0, w, World(Quiet(2, 1, Open, 2, 1, 1), Four(Accepted, StaleDrop), 2, [0, 1]))
    ensures Reaches(s0, w', World(Quiet(0, 1, Open, 2, 1, 1).(staleZero := true), Four(Done, Done), 2, [0, 1]))
  {
    var one := Quiet(1, 1, Open, 2, 1, 1);
    var both := one.(ioCount := 2);
    w' := Go(s0, w, World(both, Four(Accepted, StaleDrop), 2, [0, 1]), 2, Accepted, Second, both,
             DropRef(Finish, false));
    w' := Go(s0, w', World(both, Four(DropRef(Finish, false), StaleDrop), 2, [0, 1]), 2, DropRef(Finish, false), First,
             one, Done);
    w' := Go(s0, w', World(one, Four(Done, StaleDrop), 2, [0, 1]), 3, StaleDrop, First,
             one.(ioCount := 0, staleZero := true), Done);
  }

  lemma StrandedSchedule(s0: State) returns (w: seq<Action>)
    requires s0 == State([NEWSLOT], [], [0], Waiting, 0, [], map[])
    ensures Reaches(s0, w, World(Quiet(0, 1, Open, 2, 1, 1).(staleZero := true), Four(Done, Done), 2, [0, 1]))
  {
    assert Reaches(s0, [], s0);
    w := Opened(s0, [], s0, NEWSLOT);
    w := Refused(s0, w);
    w := GivenUp(s0, w);
    w := Drained(s0, w);
    w := Returned(s0, w);
    w := Opened(s0, w, World(Quiet(BIT47, 0, Parked, 1, 1, 1), [A(Done, 0), A(RelCount, 0)], 1, [0]).(free := [0]),
                Quiet(BIT47, 0, Parked, 1, 1, 1));
    w := Met(s0, w);
    w := Dropped(s0, w);
  }

  function Abandoned(): State { World(Quiet(0, 1, Open, 2, 1, 1).(staleZero := true), Four(Done, Done), 2, [0, 1]) }

  lemma AbandonedIsStranded()
    ensures StrandedSlot(Abandoned(), 0)
  {
    NobodyDue(0, Abandoned().acts);
  }

  /** Sessions can be stranded: Disconnect does not attempt the release in its mismatched-ID branch. */
  lemma SomeRunStrands() returns (s: State)
    ensures Reachable(s) && StrandedSlot(s, 0)
    ensures forall a :: 0 <= a < |s.acts| ==> s.acts[a].pc == Done || s.acts[a].pc == RelCount
  {
    var s0 := State([NEWSLOT], [], [0], Waiting, 0, [], map[]);
    var w := StrandedSchedule(s0);
    s := Abandoned();
    StartIsReached(s0, w, s);
    AbandonedIsStranded();
  }

  lemma StartIsReached(s0: State, w: seq<Action>, s: State)
    requires Init(s0) && Reaches(s0, w, s) && Fits(s)
    ensures Reachable(s)
  {
  }
}
