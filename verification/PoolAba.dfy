/** The 17 tag bits are exactly enough for 2^17 - 1 overtaking tickets: one more and a stale Alloc CAS can win. */
module PoolAba {
  import opened Pool
  import opened PoolInv
  import opened PoolRun

  ghost predicate Reaches(w: seq<Action>, s: State, bound: nat) {
    Path(Init(1, 2), w, bound) && Exec(Init(1, 2), w, bound) == s
  }

  lemma Extend(w: seq<Action>, s: State, x: Action, s': State, bound: nat) returns (w': seq<Action>)
    requires Reaches(w, s, bound) && Can(s, x) && Timely(s, x, bound) && Do(s, x) == s'
    ensures Reaches(w', s', bound)
  {
    w' := w + [x];
    assert w'[..|w|] == w;
  }

  // ---- a thread that nobody disturbs

  /** Alloc on an empty stack makes the node `made`. */
  function Made(s: State, made: nat): State {
    s.(next := s.next[made := 0], seqAddr := s.seqAddr[made := Word(made, 0)], allocCnt := s.allocCnt + 1,
       activeCnt := s.activeCnt + 1, held := s.held + {made})
  }

  lemma SoloMake(w: seq<Action>, s: State, t: nat, made: nat, bound: nat) returns (w': seq<Action>)
    requires Reaches(w, s, bound) && t < |s.threads| && s.threads[t] == Idle && s.top.address == s.dummy
    requires 0 < made < ADDRESSES && made !in s.next
    ensures Reaches(w', Made(s, made), bound)
  {
    var s2 := At(s, t, AllocMade(made)).(next := s.next[made := 0], seqAddr := s.seqAddr[made := Word(made, 0)]);
    var s3 := At(s2, t, AllocCount(made)).(allocCnt := s.allocCnt + 1);
    w' := Extend(w, s, CallAlloc(t), At(s, t, AllocLoad), bound);
    w' := Extend(w', At(s, t, AllocLoad), Run(t, 0), At(s, t, AllocMake), bound);
    w' := Extend(w', At(s, t, AllocMake), Run(t, made), s2, bound);
    w' := Extend(w', s2, Run(t, 0), s3, bound);
    w' := Extend(w', s3, Run(t, 0), Made(s, made), bound);
  }

  /** Alloc looks at the head: everything up to its CAS. */
  function Looking(s: State): Pc
    requires s.top.address in s.next && s.next[s.top.address] in s.seqAddr
  {
    var m := s.next[s.top.address];
    AllocCas(s.top, TopTicket(s), m, s.seqAddr[m])
  }

  lemma SoloLook(w: seq<Action>, s: State, t: nat, bound: nat) returns (w': seq<Action>)
    requires Reaches(w, s, bound) && t < |s.threads| && s.threads[t] == Idle && s.top.address != s.dummy
    requires s.top.address in s.next && s.next[s.top.address] in s.seqAddr
    ensures Reaches(w', At(s, t, Looking(s)), bound)
  {
    var m := s.next[s.top.address];
    w' := Extend(w, s, CallAlloc(t), At(s, t, AllocLoad), bound);
    w' := Extend(w', At(s, t, AllocLoad), Run(t, 0), At(s, t, AllocNext(s.top, TopTicket(s))), bound);
    w' := Extend(w', At(s, t, AllocNext(s.top, TopTicket(s))), Run(t, 0), At(s, t, AllocTop(s.top, TopTicket(s), m)),
                 bound);
    w' := Extend(w', At(s, t, AllocTop(s.top, TopTicket(s), m)), Run(t, 0), At(s, t, Looking(s)), bound);
  }

  function Popped(s: State): State
    requires s.top.address in s.next && s.next[s.top.address] in s.seqAddr
  {
    s.(top := s.seqAddr[s.next[s.top.address]], lifo := if s.lifo == [] then [] else s.lifo[1..],
       activeCnt := s.activeCnt + 1, held := s.held + {s.top.address})
  }

  lemma SoloAlloc(w: seq<Action>, s: State, t: nat, bound: nat) returns (w': seq<Action>)
    requires Reaches(w, s, bound) && t < |s.threads| && s.threads[t] == Idle && s.top.address != s.dummy
    requires s.top.address in s.next && s.next[s.top.address] in s.seqAddr && s.issued < TopTicket(s) + bound
    ensures Reaches(w', Popped(s), bound)
  {
    w' := SoloLook(w, s, t, bound);
    var s1 := At(s, t, AllocCount(s.top.address)).(top := Popped(s).top, lifo := Popped(s).lifo);
    w' := Extend(w', At(s, t, Looking(s)), Run(t, 0), s1, bound);
    w' := Extend(w', s1, Run(t, 0), Popped(s), bound);
  }

  /** Release of `node` under the next ticket. */
  function Pushed(s: State, node: nat): State {
    var n := s.issued + 1;
    s.(top := Word(node, Tag(n)), next := s.next[node := s.top.address],
       seqAddr := s.seqAddr[node := Word(node, Tag(n))], lifo := [node] + s.lifo,
       seqNumber := (s.seqNumber + 1) % SEQ, issued := n, pushed := s.pushed[node := n],
       activeCnt := s.activeCnt - 1, held := s.held - {node})
  }

  /** Release up to its CAS. */
  function Linked(s: State, t: nat, node: nat): State
    requires t < |s.threads|
  {
    var n := s.issued + 1;
    At(s, t, RelCas(node, n, s.top, Word(node, Tag(n)))).(
      next := s.next[node := s.top.address], seqAddr := s.seqAddr[node := Word(node, Tag(n))],
      seqNumber := (s.seqNumber + 1) % SEQ, issued := n, held := s.held - {node})
  }

  lemma SoloTicket(w: seq<Action>, s: State, t: nat, node: nat, bound: nat) returns (w': seq<Action>)
    requires Reaches(w, s, bound) && t < |s.threads| && s.threads[t] == Idle && node in s.held
    ensures Reaches(w', At(s, t, RelLink(node, s.issued + 1, s.top)).(
                          seqNumber := (s.seqNumber + 1) % SEQ, issued := s.issued + 1, held := s.held - {node}), bound)
  {
    var s1 := At(s, t, RelTicket(node)).(held := s.held - {node});
    var s2 := At(s1, t, RelLoad(node, s.issued + 1)).(seqNumber := (s.seqNumber + 1) % SEQ, issued := s.issued + 1);
    w' := Extend(w, s, CallRelease(t, node), s1, bound);
    w' := Extend(w', s1, Run(t, 0), s2, bound);
    w' := Extend(w', s2, Run(t, 0), At(s2, t, RelLink(node, s.issued + 1, s.top)), bound);
  }

  lemma SoloLink(w: seq<Action>, s: State, t: nat, node: nat, bound: nat) returns (w': seq<Action>)
    requires Reaches(w, s, bound) && t < |s.threads| && s.threads[t] == Idle && node in s.held
    requires node in s.seqAddr && s.seqAddr[node].address == node
    ensures Reaches(w', Linked(s, t, node), bound)
  {
    w' := SoloTicket(w, s, t, node, bound);
    var n := s.issued + 1;
    var s3 := At(s, t, RelLink(node, n, s.top)).(
      seqNumber := (s.seqNumber + 1) % SEQ, issued := n, held := s.held - {node});
    var s4 := At(s3, t, RelTag(node, n, s.top)).(next := s.next[node := s.top.address]);
    var s5 := At(s4, t, RelRead(node, n, s.top)).(seqAddr := s.seqAddr[node := Word(node, Tag(n))]);
    w' := Extend(w', s3, Run(t, 0), s4, bound);
    w' := Extend(w', s4, Run(t, 0), s5, bound);
    w' := Extend(w', s5, Run(t, 0), Linked(s, t, node), bound);
  }

  lemma SoloRelease(w: seq<Action>, s: State, t: nat, node: nat, bound: nat) returns (w': seq<Action>)
    requires Reaches(w, s, bound) && t < |s.threads| && s.threads[t] == Idle && node in s.held
    requires node in s.seqAddr && s.seqAddr[node].address == node
    ensures Reaches(w', Pushed(s, node), bound)
  {
    w' := SoloLink(w, s, t, node, bound);
    var s1 := At(Pushed(s, node), t, RelCount).(activeCnt := s.activeCnt);
    w' := Extend(w', Linked(s, t, node), Run(t, 0), s1, bound);
    w' := Extend(w', s1, Run(t, 0), Pushed(s, node), bound);
  }

  // ---- the overtaken Alloc

  /** Thread 0 has copied the head while the stack was [3, 2], and is about to CAS. */
  const STALE := AllocCas(Word(3, 2), 2, 2, Word(2, 1))

  /** The dummy is at 1; node 2 is held by a caller; node 3 is the whole stack, last pushed with ticket `n`. */
  function World(n: nat): State {
    State(1, Word(3, Tag(n)), 2, 1, n % SEQ, map[1 := 0, 2 := 1, 3 := 1],
          map[1 := Word(1, 0), 2 := Word(2, 1), 3 := Word(3, Tag(n))], [STALE, Idle], {2}, [3], n, map[2 := 1, 3 := n])
  }

  lemma RoundTrip(n: nat)
    requires n >= 3
    ensures Pushed(Popped(World(n)), 3) == World(n + 1)
  {
    CountWraps(n);
  }

  /** Thread 1 allocates and releases node 3 once more. */
  lemma Round(w: seq<Action>, n: nat, bound: nat) returns (w': seq<Action>)
    requires bound > TAGS && n >= 3 && Reaches(w, World(n), bound)
    ensures Reaches(w', World(n + 1), bound)
  {
    w' := SoloAlloc(w, World(n), 1, bound);
    w' := SoloRelease(w', Popped(World(n)), 1, 3, bound);
    RoundTrip(n);
  }

  ghost predicate Overtaken(n: nat, bound: nat) { exists w: seq<Action> :: Reaches(w, World(n), bound) }

  lemma OneMore(n: nat, bound: nat)
    requires bound > TAGS && n >= 3 && Overtaken(n, bound)
    ensures Overtaken(n + 1, bound)
  {
    var w: seq<Action> :| Reaches(w, World(n), bound);
    var w' := Round(w, n, bound);
  }

  lemma {:induction false} Rounds(n: nat, bound: nat)
    requires bound > TAGS && n >= 3 && Overtaken(3, bound)
    ensures Overtaken(n, bound)
  {
    if n > 3 {
      Rounds(n - 1, bound);
      OneMore(n - 1, bound);
    }
  }

  /** Thread 1 makes nodes 2 and 3 and releases both. */
  function Filled(): State {
    State(1, Word(3, 2), 2, 0, 2, map[1 := 0, 2 := 1, 3 := 2], map[1 := Word(1, 0), 2 := Word(2, 1), 3 := Word(3, 2)],
          [Idle, Idle], {}, [3, 2], 2, map[2 := 1, 3 := 2])
  }

  function Two(): State {
    State(1, Word(1, 0), 2, 2, 0, map[1 := 0, 2 := 0, 3 := 0], map[1 := Word(1, 0), 2 := Word(2, 0), 3 := Word(3, 0)],
          [Idle, Idle], {2, 3}, [], 0, map[])
  }

  lemma MakeTwo(bound: nat) returns (w: seq<Action>)
    ensures Reaches(w, Two(), bound)
  {
    var s0 := Init(1, 2);
    assert Reaches([], s0, bound) && s0.threads == [Idle, Idle];
    w := SoloMake([], s0, 1, 2, bound);
    w := SoloMake(w, Made(s0, 2), 1, 3, bound);
    assert Made(Made(s0, 2), 3) == Two();
  }

  lemma BothPushed()
    ensures Pushed(Pushed(Two(), 2), 3) == Filled()
  {
  }

  lemma Fill(bound: nat) returns (w: seq<Action>)
    ensures Reaches(w, Filled(), bound)
  {
    w := MakeTwo(bound);
    w := SoloRelease(w, Two(), 1, 2, bound);
    w := SoloRelease(w, Pushed(Two(), 2), 1, 3, bound);
    BothPushed();
  }

  lemma BothPopped(s: State)
    requires s == At(Filled(), 0, STALE)
    ensures Popped(Popped(s)).threads == [STALE, Idle] && Popped(Popped(s)).held == {2, 3}
    ensures Pushed(Popped(Popped(s)), 3) == World(3)
  {
  }

  /** Thread 0 looks; thread 1 takes both nodes and releases node 3. */
  lemma Overtake(w: seq<Action>, bound: nat) returns (w': seq<Action>)
    requires bound > TAGS && Reaches(w, Filled(), bound)
    ensures Reaches(w', World(3), bound)
  {
    w' := SoloLook(w, Filled(), 0, bound);
    var s := At(Filled(), 0, STALE);
    w' := SoloAlloc(w', s, 1, bound);
    w' := SoloAlloc(w', Popped(s), 1, bound);
    BothPopped(s);
    w' := SoloRelease(w', Popped(Popped(s)), 1, 3, bound);
  }

  /** Some run within the bound ends with the head of the free stack in a caller's hands. */
  ghost predicate Breaks(bound: nat) {
    exists w: seq<Action>, s: State :: Reaches(w, s, bound) && s.top.address in s.held
  }

  lemma BreaksBeyond(bound: nat)
    requires bound > TAGS
    ensures Breaks(bound)
  {
    var w := Fill(bound);
    w := Overtake(w, bound);
    Rounds(2 + TAGS, bound);
    var s := World(2 + TAGS);
    w :| Reaches(w, s, bound);
    StaleWins(bound);
    w := Extend(w, s, Run(0, 0), PopCas(s, 0, STALE), bound);
  }

  /** After 2^17 - 1 rounds the head word is again the one that thread 0 has copied. */
  lemma StaleWins(bound: nat)
    requires bound > TAGS
    ensures var s := World(2 + TAGS);
            && Can(s, Run(0, 0)) && Timely(s, Run(0, 0), bound) && Do(s, Run(0, 0)) == PopCas(s, 0, STALE)
            && PopCas(s, 0, STALE).top.address in PopCas(s, 0, STALE).held
  {
    assert Tag(2 + TAGS) == 2;
  }

  /** The bound is exact: a free node can end up in a caller's hands if and only if Allocs may be overtaken by
      2^17 tickets or more. */
  lemma BoundIsExact(bound: nat)
    ensures Breaks(bound) <==> bound > 0x2_0000
  {
    if bound > TAGS {
      BreaksBeyond(bound);
    } else if Breaks(bound) {
      var w: seq<Action>, s: State :| Reaches(w, s, bound) && s.top.address in s.held;
      InitInv(1, 2);
      RunKeepsInv(Init(1, 2), w, bound);
    }
  }
}
