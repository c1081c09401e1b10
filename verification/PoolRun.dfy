/** What the pool promises over whole runs. */
module PoolRun {
  import opened Pool
  import opened Sequences
  import opened PoolInv

  // ---- runs

  /** `w` can be executed from `s`, every winning Alloc CAS timely for `bound`. */
  ghost predicate Path(s: State, w: seq<Action>, bound: nat)
    decreases |w|, 0
  {
    w == [] || (var n := |w| - 1;
                && Path(s, w[..n], bound)
                && Can(Exec(s, w[..n], bound), w[n]) && Timely(Exec(s, w[..n], bound), w[n], bound))
  }

  ghost function Exec(s: State, w: seq<Action>, bound: nat): State
    requires Path(s, w, bound)
    decreases |w|, 1
  {
    if w == [] then s else var n := |w| - 1; Do(Exec(s, w[..n], bound), w[n])
  }

  lemma InitInv(dummy: nat, threads: nat)
    requires 0 < dummy < ADDRESSES
    ensures Inv(Init(dummy, threads))
  {
  }

  lemma {:induction false} RunKeepsInv(s: State, w: seq<Action>, bound: nat)
    requires Inv(s) && Path(s, w, bound) && bound <= TAGS
    ensures Inv(Exec(s, w, bound))
  {
    if w != [] {
      var n := |w| - 1;
      RunKeepsInv(s, w[..n], bound);
      StepKeepsInv(Exec(s, w[..n], bound), w[n]);
    }
  }

  /** Reached from a new pool by a schedule in which no Alloc of a node that was pushed again is overtaken by 2^17
      tickets. */
  ghost predicate Reachable(s: State) {
    exists dummy: nat, threads: nat, w: seq<Action> ::
      0 < dummy < ADDRESSES && Path(Init(dummy, threads), w, TAGS) && Exec(Init(dummy, threads), w, TAGS) == s
  }

  lemma ReachableInv(s: State)
    requires Reachable(s)
    ensures Inv(s)
  {
    var dummy: nat, threads: nat, w: seq<Action> :|
      0 < dummy < ADDRESSES && Path(Init(dummy, threads), w, TAGS) && Exec(Init(dummy, threads), w, TAGS) == s;
    InitInv(dummy, threads);
    RunKeepsInv(Init(dummy, threads), w, TAGS);
  }

  // ---- the memory is an atomic stack

  /** `q` is what following `_next` from `_top` finds before `_dummy`. Memory alone decides this. */
  ghost predicate IsChain(s: State, q: seq<nat>) { ChainFrom(s, s.top.address, q) }

  ghost predicate ChainFrom(s: State, a: nat, q: seq<nat>)
    decreases |q|
  {
    if q == [] then a == s.dummy else a == q[0] && a != s.dummy && a in s.next && ChainFrom(s, s.next[a], q[1..])
  }

  lemma {:induction false} LifoIsChain(s: State, k: nat)
    requires Inv(s) && k <= |s.lifo|
    ensures ChainFrom(s, if k < |s.lifo| then s.lifo[k] else s.dummy, s.lifo[k..])
    decreases |s.lifo| - k
  {
    if k < |s.lifo| { LifoIsChain(s, k + 1); }
  }

  lemma {:induction false} ChainsAgree(s: State, a: nat, q: seq<nat>, r: seq<nat>)
    requires ChainFrom(s, a, q) && ChainFrom(s, a, r)
    ensures q == r
    decreases |q|
  {
    if q != [] { ChainsAgree(s, s.next[a], q[1..], r[1..]); }
  }

  /** There is exactly one chain, and it is the abstract stack. */
  lemma TheChain(s: State, q: seq<nat>)
    requires Inv(s)
    ensures IsChain(s, q) <==> q == s.lifo
  {
    LifoIsChain(s, 0);
    assert s.lifo[0..] == s.lifo;
    if IsChain(s, q) { ChainsAgree(s, s.top.address, q, s.lifo); }
  }

  predicate Wins(s: State, x: Action)
    requires Can(s, x)
  {
    x.Run? && (s.threads[x.t].AllocCas? || s.threads[x.t].RelCas?) && s.top.Val() == s.threads[x.t].seen.Val()
  }

  lemma StepLifo(s: State, x: Action)
    requires Can(s, x)
    ensures var s' := Do(s, x);
      s'.lifo == if !Wins(s, x) then s.lifo
                 else if s.threads[x.t].RelCas? then [s.threads[x.t].node] + s.lifo
                 else if s.lifo == [] then [] else s.lifo[1..]
    ensures Wins(s, x) && s.threads[x.t].AllocCas? ==> Do(s, x).threads[x.t] == AllocCount(s.threads[x.t].seen.address)
  {
  }

  /** The same of the abstract stack. */
  lemma RefinesLifo(s: State, x: Action, s': State)
    requires Inv(s) && Can(s, x) && Timely(s, x, TAGS) && s' == Do(s, x)
    ensures Wins(s, x) && s.threads[x.t].AllocCas? ==> s.lifo == [s.threads[x.t].seen.address] + s'.lifo
    ensures Wins(s, x) && s.threads[x.t].RelCas? ==> s'.lifo == [s.threads[x.t].node] + s.lifo
    ensures !Wins(s, x) ==> s'.lifo == s.lifo
  {
    StepLifo(s, x);
    if Wins(s, x) && s.threads[x.t].AllocCas? { NoAba(s, x.t); }
  }

  /** Every step does to the chain in memory what an atomic stack does: a winning Alloc CAS takes exactly the head
      it returns and leaves the rest, a winning Release CAS puts its node on top, nothing else changes it. */
  lemma RefinesStack(s: State, x: Action, q: seq<nat>, q': seq<nat>)
    requires Reachable(s) && Can(s, x) && Timely(s, x, TAGS) && IsChain(s, q) && IsChain(Do(s, x), q')
    ensures Wins(s, x) && s.threads[x.t].AllocCas? ==>
              && q == [s.threads[x.t].seen.address] + q'
              && Do(s, x).threads[x.t] == AllocCount(s.threads[x.t].seen.address)
    ensures Wins(s, x) && s.threads[x.t].RelCas? ==> q' == [s.threads[x.t].node] + q
    ensures !Wins(s, x) ==> q' == q
  {
    ReachableInv(s);
    StepKeepsInv(s, x);
    TheChain(s, q);
    TheChain(Do(s, x), q');
    StepLifo(s, x);
    RefinesLifo(s, x, Do(s, x));
  }

  /** No CAS wins along `w`. */
  ghost predicate NobodyWins(s: State, w: seq<Action>, bound: nat)
    requires Path(s, w, bound)
  {
    w == [] || (var n := |w| - 1; NobodyWins(s, w[..n], bound) && !Wins(Exec(s, w[..n], bound), w[n]))
  }

  lemma {:induction false} TopStays(s: State, w: seq<Action>, bound: nat)
    requires Path(s, w, bound) && NobodyWins(s, w, bound)
    ensures Exec(s, w, bound).top == s.top
  {
    if w != [] { TopStays(s, w[..|w| - 1], bound); }
  }

  /** A CAS is repeated only because another one has won: when a thread's CAS is about to fail, some CAS won since
      the head that the thread holds was in `_top`. */
  lemma SomeoneWon(s: State, w: seq<Action>, bound: nat, t: nat)
    requires Path(s, w, bound) && t < |Exec(s, w, bound).threads|
    requires var p := Exec(s, w, bound).threads[t]; (p.AllocCas? || p.RelCas?) && p.seen == s.top
    ensures Exec(s, w, bound).top.Val() != s.top.Val() ==> !NobodyWins(s, w, bound)
  {
    if NobodyWins(s, w, bound) { TopStays(s, w, bound); }
  }

  /** An Alloc makes a new node only when it saw the stack empty. */
  lemma NewNodeMeansEmpty(s: State, t: nat)
    requires Reachable(s) && t < |s.threads| && s.threads[t] == AllocLoad
    ensures LoadTop(s, t).threads[t] == AllocMake <==> IsChain(s, [])
  {
    ReachableInv(s);
    TheChain(s, []);
  }

  // ---- ownership

  /** The free chain is acyclic, ends at the dummy, and shares no node with a caller or a thread in transit;
      no node has two owners and none is lost. */
  lemma OneOwner(s: State, q: seq<nat>, n: nat)
    requires Reachable(s) && IsChain(s, q) && n in s.next && n != s.dummy
    ensures Distinct(q)
    ensures n in q ==> n !in s.held && forall t :: 0 <= t < |s.threads| ==> !Owns(s.threads[t], n)
    ensures n in s.held ==> forall t :: 0 <= t < |s.threads| ==> !Owns(s.threads[t], n)
    ensures forall t, u :: 0 <= t < u < |s.threads| && Owns(s.threads[t], n) ==> !Owns(s.threads[u], n)
    ensures n in q || n in s.held || exists t :: 0 <= t < |s.threads| && Owns(s.threads[t], n)
  {
    ReachableInv(s);
    TheChain(s, q);
  }

  /** A stale Alloc never follows a null `_next` or reads the word of something that is not a node. */
  lemma NeverFollowsNull(s: State, t: nat, made: nat)
    requires Reachable(s) && t < |s.threads| && (s.threads[t].AllocMake? ==> 0 < made < ADDRESSES && made !in s.next)
    ensures Can(s, Run(t, made))
    ensures s.threads[t].AllocNext? ==> s.next[s.threads[t].seen.address] != 0
    ensures s.threads[t].AllocTop? ==> s.threads[t].next != 0 && s.threads[t].next in s.seqAddr
  {
    ReachableInv(s);
    assert LookInv(s, s.threads[t]) && ReleaseInv(s, s.threads[t]);
    if s.threads[t].RelTag? || s.threads[t].RelRead? { assert Owns(s.threads[t], s.threads[t].node); }
  }

  // ---- accounting

  /** New nodes not yet counted in `_AllocNodeCnt`. */
  function Uncounted(p: Pc): nat { if p.AllocMade? then 1 else 0 }

  /** Released nodes still counted in `_ActiveNodeCnt`. */
  function Leaving(p: Pc): nat {
    if p.RelTicket? || p.RelLoad? || p.RelLink? || p.RelTag? || p.RelRead? || p.RelCas? || p.RelCount? then 1 else 0
  }

  /** Nodes in a thread's hands. */
  function Carrying(p: Pc): nat {
    if p.AllocMade? || p.AllocCount? || (Leaving(p) == 1 && !p.RelCount?) then 1 else 0
  }

  datatype Tally = Tally(uncounted: nat, leaving: nat, carrying: nat)

  function Sum(ts: seq<Pc>): Tally {
    if ts == [] then Tally(0, 0, 0)
    else
      var r := Sum(ts[..|ts| - 1]); var p := ts[|ts| - 1];
      Tally(r.uncounted + Uncounted(p), r.leaving + Leaving(p), r.carrying + Carrying(p))
  }

  lemma {:induction false} SumPut(ts: seq<Pc>, t: nat, p: Pc)
    requires t < |ts|
    ensures var a := Sum(ts); var b := Sum(ts[t := p]);
      && b.uncounted == a.uncounted - Uncounted(ts[t]) + Uncounted(p)
      && b.leaving == a.leaving - Leaving(ts[t]) + Leaving(p)
      && b.carrying == a.carrying - Carrying(ts[t]) + Carrying(p)
  {
    var n := |ts| - 1;
    if t < n {
      SumPut(ts[..n], t, p);
      assert ts[t := p][..n] == ts[..n][t := p];
    } else {
      assert ts[t := p][..n] == ts[..n];
    }
  }

  ghost predicate TallyInv(s: State) {
    var c := Sum(s.threads);
    && s.allocCnt == |s.next| - 1 - c.uncounted
    && s.activeCnt == |s.held| + c.leaving
    && |s.next| - 1 == |s.lifo| + |s.held| + c.carrying
  }

  /** One thread moves and the counters move with it. */
  ghost predicate Counted(s: State, s': State, t: nat) {
    && t < |s.threads| == |s'.threads| && s'.threads == s.threads[t := s'.threads[t]]
    && var p := s.threads[t]; var q := s'.threads[t]; var made := |s'.next| - |s.next|;
       && s'.allocCnt - s.allocCnt == made + Uncounted(p) - Uncounted(q)
       && s'.activeCnt - s.activeCnt == |s'.held| - |s.held| + Leaving(q) - Leaving(p)
       && made == |s'.lifo| - |s.lifo| + |s'.held| - |s.held| + Carrying(q) - Carrying(p)
  }

  lemma TallyMoves(s: State, s': State, t: nat)
    requires TallyInv(s) && Counted(s, s', t)
    ensures TallyInv(s')
  {
    SumPut(s.threads, t, s'.threads[t]);
  }

  lemma CallCounts(s: State, x: Action)
    requires Can(s, x) && !x.Run?
    ensures Counted(s, Do(s, x), x.t)
  {
  }

  lemma MakeCounts(s: State, t: nat, made: nat)
    requires Can(s, Run(t, made)) && s.threads[t].AllocMake?
    ensures Counted(s, MakeNode(s, t, made), t)
  {
    OneMore(s.next, made);
  }

  lemma OneMore(next: map<nat, nat>, made: nat)
    requires made !in next
    ensures |next[made := 0]| == |next| + 1
  {
    assert next[made := 0].Keys == next.Keys + {made};
  }

  lemma GiveCounts(s: State, t: nat, made: nat)
    requires Can(s, Run(t, made)) && s.threads[t].AllocCount? && s.threads[t].node !in s.held
    ensures Counted(s, Step(s, t, made), t)
  {
  }

  lemma PopCounts(s: State, t: nat)
    requires t < |s.threads| && s.threads[t].AllocCas?
    requires s.top.Val() == s.threads[t].seen.Val() ==> s.lifo != []
    ensures Counted(s, PopCas(s, t, s.threads[t]), t)
  {
  }

  lemma PushCounts(s: State, t: nat)
    requires t < |s.threads| && s.threads[t].RelCas?
    ensures Counted(s, PushCas(s, t, s.threads[t]), t)
  {
  }

  lemma LinkCounts(s: State, t: nat, made: nat)
    requires Can(s, Run(t, made)) && s.threads[t].RelLink? && s.threads[t].node in s.next
    ensures Counted(s, Step(s, t, made), t)
  {
    assert Step(s, t, made).next.Keys == s.next.Keys;
    assert |Step(s, t, made).next.Keys| == |s.next.Keys|;
  }

  lemma LookCounts(s: State, t: nat, made: nat)
    requires Can(s, Run(t, made))
    requires var p := s.threads[t]; p.Idle? || p.AllocLoad? || p.AllocNext? || p.AllocTop? || p.AllocMade?
    ensures Counted(s, Step(s, t, made), t)
  {
  }

  lemma LeaveCounts(s: State, t: nat, made: nat)
    requires Can(s, Run(t, made))
    requires var p := s.threads[t]; p.RelTicket? || p.RelLoad? || p.RelTag? || p.RelRead? || p.RelCount?
    ensures Counted(s, Step(s, t, made), t)
  {
  }

  lemma RunCounts(s: State, t: nat, made: nat, s': State)
    requires Inv(s) && Can(s, Run(t, made)) && Timely(s, Run(t, made), TAGS) && s' == Step(s, t, made)
    ensures Counted(s, s', t)
  {
    var p := s.threads[t];
    if p.AllocMake? {
      MakeCounts(s, t, made);
    } else if p.AllocCount? {
      assert Owns(p, p.node);
      GiveCounts(s, t, made);
    } else if p.AllocCas? {
      if s.top.Val() == p.seen.Val() { NoAba(s, t); }
      PopCounts(s, t);
    } else if p.RelCas? {
      PushCounts(s, t);
    } else if p.RelLink? {
      assert Owns(p, p.node);
      LinkCounts(s, t, made);
    } else if p.RelTicket? || p.RelLoad? || p.RelTag? || p.RelRead? || p.RelCount? {
      LeaveCounts(s, t, made);
    } else {
      LookCounts(s, t, made);
    }
  }

  lemma StepKeepsTally(s: State, x: Action)
    requires Inv(s) && Can(s, x) && Timely(s, x, TAGS) && TallyInv(s)
    ensures TallyInv(Do(s, x))
  {
    if x.Run? { RunCounts(s, x.t, x.made, Do(s, x)); } else { CallCounts(s, x); }
    TallyMoves(s, Do(s, x), x.t);
  }

  lemma {:induction false} NobodyMoves(ts: seq<Pc>)
    requires forall t :: 0 <= t < |ts| ==> ts[t] == Idle
    ensures Sum(ts) == Tally(0, 0, 0)
  {
    if ts != [] { NobodyMoves(ts[..|ts| - 1]); }
  }

  lemma {:induction false} RunKeepsTally(s: State, w: seq<Action>)
    requires Inv(s) && TallyInv(s) && Path(s, w, TAGS)
    ensures TallyInv(Exec(s, w, TAGS))
  {
    if w != [] {
      var n := |w| - 1;
      RunKeepsTally(s, w[..n]);
      RunKeepsInv(s, w[..n], TAGS);
      StepKeepsTally(Exec(s, w[..n], TAGS), w[n]);
    }
  }

  /** `_AllocNodeCnt` counts the nodes made, `_ActiveNodeCnt` the nodes out with callers, each up to the updates still
      pending; neither goes below zero; and the nodes are the free ones, those held, and those in transit. */
  lemma CountersAreRight(s: State)
    requires Reachable(s)
    ensures TallyInv(s) && s.activeCnt >= 0 && s.allocCnt >= 0
  {
    var dummy: nat, threads: nat, w: seq<Action> :|
      0 < dummy < ADDRESSES && Path(Init(dummy, threads), w, TAGS) && Exec(Init(dummy, threads), w, TAGS) == s;
    InitInv(dummy, threads);
    NobodyMoves(Init(dummy, threads).threads);
    RunKeepsTally(Init(dummy, threads), w);
    SumBounds(s.threads);
  }

  lemma {:induction false} SumBounds(ts: seq<Pc>)
    ensures Sum(ts).uncounted <= Sum(ts).carrying
  {
    if ts != [] { SumBounds(ts[..|ts| - 1]); }
  }

  /** When every thread has returned and every node was released, the destructor finds no active node and
      as many nodes on the chain as were allocated. */
  lemma ReadyToDestroy(s: State, q: seq<nat>)
    requires Reachable(s) && (forall t :: 0 <= t < |s.threads| ==> s.threads[t] == Idle)
    requires s.held == {} && IsChain(s, q)
    ensures s.activeCnt == 0 && s.allocCnt == |q|
    ensures forall n :: n in s.next && n != s.dummy <==> n in q
  {
    CountersAreRight(s);
    NobodyMoves(s.threads);
    AllOnTheChain(s, q);
  }

  lemma AllOnTheChain(s: State, q: seq<nat>)
    requires Reachable(s) && (forall t :: 0 <= t < |s.threads| ==> s.threads[t] == Idle)
    requires s.held == {} && IsChain(s, q)
    ensures q == s.lifo && forall n :: n in s.next && n != s.dummy <==> n in q
  {
    ReachableInv(s);
    TheChain(s, q);
  }
}
