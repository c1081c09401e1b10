/** The lock-free object pool: a stack of free nodes whose head word packs an address and a ticket.

    Any number of threads run `Alloc` and `Release`. Each step below is one shared read, one shared write, one
    compare-and-swap, or one interlocked counter update; between two steps of a thread the others may run. */
module Pool {
  import opened Sequences

  /** Bits of the address in the head word, and the number of distinct tickets in the 17 bits above it. */
  const ADDRESSES: nat := 0x8000_0000_0000
  const TAGS: nat := 0x2_0000

  /** `_seqNumber` is a 32-bit counter. */
  const SEQ: nat := 0x1_0000_0000

  /** `stSeqAddress`. */
  datatype Word = Word(address: nat, seqNumber: nat) {
    predicate Fits() { address < ADDRESSES && seqNumber < TAGS }

    /** `_val`. */
    function Val(): nat { seqNumber * ADDRESSES + address }
  }

  /** Comparing `_val` compares both fields, so the CAS sees a change of either. */
  lemma ValIsInjective(v: Word, w: Word)
    requires v.Fits() && w.Fits()
    ensures v.Val() == w.Val() <==> v == w
    ensures v.Val() % 0x8000_0000_0000 == v.address && v.Val() / 0x8000_0000_0000 == v.seqNumber < 0x2_0000
  {
  }

  /** Where a thread is. `seen` is its copy of `_top`; `ticket` is history: the ticket under which the node that
      `seen` names had been pushed when `seen` was read. */
  datatype Pc =
    | Idle
    | AllocLoad
    | AllocNext(seen: Word, ticket: nat)
    | AllocTop(seen: Word, ticket: nat, next: nat)
    | AllocCas(seen: Word, ticket: nat, next: nat, newTop: Word)
    | AllocMake
    | AllocMade(node: nat)
    | AllocCount(node: nat)
    | RelTicket(node: nat)
    | RelLoad(node: nat, n: nat)
    | RelLink(node: nat, n: nat, seen: Word)
    | RelTag(node: nat, n: nat, seen: Word)
    | RelRead(node: nat, n: nat, seen: Word)
    | RelCas(node: nat, n: nat, seen: Word, newTop: Word)
    | RelCount

  /** The fields of the pool and of its nodes, the threads, the nodes in callers' hands; then history: the
      abstract stack, the number of tickets ever issued, and the ticket of each node's last push. */
  datatype State = State(
    dummy: nat,
    top: Word,
    allocCnt: int,
    activeCnt: int,
    seqNumber: nat,
    next: map<nat, nat>,         // stNode::_next; 0 is nullptr
    seqAddr: map<nat, Word>,     // stNode::_seqAddress
    threads: seq<Pc>,
    held: set<nat>,
    lifo: seq<nat>,
    issued: nat,
    pushed: map<nat, nat>)

  function Init(dummy: nat, threads: nat): State {
    State(dummy, Word(dummy, 0), 0, 0, 0, map[dummy := 0], map[dummy := Word(dummy, 0)],
          seq(threads, _ => Idle), {}, [], 0, map[])
  }

  datatype Action =
    | CallAlloc(t: nat)
    | CallRelease(t: nat, node: nat)
    | Run(t: nat, made: nat)          // the next step of `t`; `made` is what `new stNode` returns, if it is reached

  predicate Can(s: State, x: Action) {
    && x.t < |s.threads|
    && match x
       case CallAlloc(t) => s.threads[t] == Idle
       case CallRelease(t, node) => s.threads[t] == Idle && node in s.held
       case Run(t, made) =>
         var p := s.threads[t];
         && (p.AllocMake? ==> 0 < made < ADDRESSES && made !in s.next)
         && (p.AllocNext? ==> p.seen.address in s.next)
         && (p.AllocTop? ==> p.next in s.seqAddr)
         && (p.RelTag? || p.RelRead? ==> p.node in s.seqAddr)
  }

  /** The ticket under which the node named by the head was pushed. */
  function TopTicket(s: State): nat { if s.top.address in s.pushed then s.pushed[s.top.address] else 0 }

  function At(s: State, t: nat, p: Pc): State
    requires t < |s.threads|
  {
    s.(threads := s.threads[t := p])
  }

  // ---- CObjectPool::Alloc

  function LoadTop(s: State, t: nat): State
    requires t < |s.threads|
  {
    At(s, t, if s.top.address == s.dummy then AllocMake else AllocNext(s.top, TopTicket(s)))
  }

  function MakeNode(s: State, t: nat, made: nat): State
    requires t < |s.threads|
  {
    At(s, t, AllocMade(made)).(next := s.next[made := 0], seqAddr := s.seqAddr[made := Word(made, 0)])
  }

  /** The compare-and-swap of Alloc. The abstract stack is popped. */
  function PopCas(s: State, t: nat, p: Pc): State
    requires t < |s.threads| && p.AllocCas?
  {
    if s.top.Val() != p.seen.Val() then At(s, t, AllocLoad)
    else
      At(s, t, AllocCount(p.seen.address)).(top := p.newTop, lifo := if s.lifo == [] then [] else s.lifo[1..])
  }

  // ---- CObjectPool::Release

  function TakeTicket(s: State, t: nat, node: nat): State
    requires t < |s.threads|
  {
    var n := (s.seqNumber + 1) % SEQ;
    At(s, t, RelLoad(node, s.issued + 1)).(seqNumber := n, issued := s.issued + 1)
  }

  /** The compare-and-swap of Release. The abstract stack is pushed. */
  function PushCas(s: State, t: nat, p: Pc): State
    requires t < |s.threads| && p.RelCas?
  {
    if s.top.Val() != p.seen.Val() then At(s, t, RelLoad(p.node, p.n))
    else At(s, t, RelCount).(top := p.newTop, lifo := [p.node] + s.lifo, pushed := s.pushed[p.node := p.n])
  }

  /** The bit-field store of a ticket: its low 32 bits are the counter's value, its low 17 the tag. */
  function Tag(n: nat): nat { n % SEQ % TAGS }

  function Step(s: State, t: nat, made: nat): State
    requires Can(s, Run(t, made))
  {
    var p := s.threads[t];
    match p
    case Idle => s
    case AllocLoad => LoadTop(s, t)
    case AllocNext(seen, ticket) => At(s, t, AllocTop(seen, ticket, s.next[seen.address]))
    case AllocTop(seen, ticket, next) => At(s, t, AllocCas(seen, ticket, next, s.seqAddr[next]))
    case AllocCas(_, _, _, _) => PopCas(s, t, p)
    case AllocMake => MakeNode(s, t, made)
    case AllocMade(node) => At(s, t, AllocCount(node)).(allocCnt := s.allocCnt + 1)
    case AllocCount(node) => At(s, t, Idle).(activeCnt := s.activeCnt + 1, held := s.held + {node})
    case RelTicket(node) => TakeTicket(s, t, node)
    case RelLoad(node, n) => At(s, t, RelLink(node, n, s.top))
    case RelLink(node, n, seen) => At(s, t, RelTag(node, n, seen)).(next := s.next[node := seen.address])
    case RelTag(node, n, seen) =>
      At(s, t, RelRead(node, n, seen)).(seqAddr := s.seqAddr[node := s.seqAddr[node].(seqNumber := Tag(n))])
    case RelRead(node, n, seen) => At(s, t, RelCas(node, n, seen, s.seqAddr[node]))
    case RelCas(_, _, _, _) => PushCas(s, t, p)
    case RelCount => At(s, t, Idle).(activeCnt := s.activeCnt - 1)
  }

  function Do(s: State, x: Action): State
    requires Can(s, x)
  {
    match x
    case CallAlloc(t) => At(s, t, AllocLoad)
    case CallRelease(t, node) => At(s, t, RelTicket(node)).(held := s.held - {node})
    case Run(t, made) => Step(s, t, made)
  }

  // ---- the invariant

  function Below(s: State, k: nat): nat
    requires k < |s.lifo|
  {
    if k + 1 < |s.lifo| then s.lifo[k + 1] else s.dummy
  }

  /** The nodes in memory realise the abstract stack: from `_top` the `_next` chain runs through exactly its
      nodes, once each, and ends at `_dummy`. */
  ghost predicate ChainInv(s: State) {
    && Distinct(s.lifo)
    && (forall k :: 0 <= k < |s.lifo| ==> s.lifo[k] in s.next && s.lifo[k] != s.dummy)
    && (forall k :: 0 <= k < |s.lifo| ==> s.next[s.lifo[k]] == Below(s, k))
    && s.dummy in s.seqAddr && (s.lifo != [] ==> s.lifo[0] in s.seqAddr)
    && s.top == (if s.lifo == [] then s.seqAddr[s.dummy] else s.seqAddr[s.lifo[0]])
  }

  /** Every node's word holds its own address; a pushed node's word holds the tag of its last ticket. */
  ghost predicate WordInv(s: State) {
    && 0 < s.dummy < ADDRESSES && s.dummy !in s.pushed
    && s.next.Keys == s.seqAddr.Keys && s.dummy in s.next
    && s.pushed.Keys <= s.next.Keys
    && s.seqNumber == s.issued % SEQ
    && s.seqAddr[s.dummy] == Word(s.dummy, 0)
    && (forall n :: n in s.seqAddr ==> 0 < n && s.seqAddr[n].address == n && s.seqAddr[n].Fits())
    && (forall k :: 0 <= k < |s.lifo| ==>
          s.lifo[k] in s.pushed && s.lifo[k] in s.seqAddr && s.seqAddr[s.lifo[k]].seqNumber == Tag(s.pushed[s.lifo[k]]))
    && (forall n :: n in s.pushed ==> s.pushed[n] <= s.issued && s.next[n] in s.next)
  }

  /** The node a thread is moving between the stack and a caller. */
  predicate Owns(p: Pc, n: nat) {
    || ((p.AllocMade? || p.AllocCount?) && p.node == n)
    || ((p.RelTicket? || p.RelLoad? || p.RelLink? || p.RelTag? || p.RelRead? || p.RelCas?) && p.node == n)
  }

  /** Every node has exactly one owner: the stack, a caller, or one thread. */
  ghost predicate OwnerInv(s: State) {
    && (forall n :: n in s.held ==> n in s.next && n != s.dummy && n !in s.lifo)
    && (forall t, n :: 0 <= t < |s.threads| && Owns(s.threads[t], n) ==>
          n in s.next && n != s.dummy && n !in s.lifo && n !in s.held)
    && (forall t, u, n :: 0 <= t < u < |s.threads| && Owns(s.threads[t], n) ==> !Owns(s.threads[u], n))
    && (forall n :: n in s.next && n != s.dummy ==>
          n in s.lifo || n in s.held || exists t :: 0 <= t < |s.threads| && Owns(s.threads[t], n))
  }

  /** `n` has stayed in the stack since a thread saw it there under `ticket`. */
  ghost predicate Unmoved(s: State, n: nat, ticket: nat) { n in s.lifo && n in s.pushed && s.pushed[n] == ticket }

  /** What a thread's copies say. */
  ghost predicate LookInv(s: State, p: Pc)
    requires WordInv(s)
  {
    && (p.AllocNext? || p.AllocTop? || p.AllocCas? ==>
          && p.seen.address in s.pushed && p.ticket <= s.pushed[p.seen.address]
          && p.seen == Word(p.seen.address, Tag(p.ticket)) && p.seen.address < ADDRESSES)
    && (p.AllocTop? || p.AllocCas? ==> p.next in s.next)
    && (p.AllocTop? && Unmoved(s, p.seen.address, p.ticket) ==> s.next[p.seen.address] == p.next)
    && (p.AllocCas? && Unmoved(s, p.seen.address, p.ticket) ==>
          s.next[p.seen.address] == p.next && s.seqAddr[p.next] == p.newTop)
    && (p.AllocCas? ==> p.newTop.Fits())
  }

  /** What a releasing thread has written. */
  ghost predicate ReleaseInv(s: State, p: Pc)
    requires WordInv(s)
  {
    && (p.RelLoad? || p.RelLink? || p.RelTag? || p.RelRead? || p.RelCas? ==>
          p.n <= s.issued && (p.node in s.pushed ==> s.pushed[p.node] < p.n))
    && (p.RelLink? || p.RelTag? || p.RelRead? || p.RelCas? ==> p.seen.address in s.next && p.seen.Fits())
    && (p.RelTag? || p.RelRead? || p.RelCas? ==> p.node in s.next && s.next[p.node] == p.seen.address)
    && (p.RelRead? || p.RelCas? ==> p.node in s.seqAddr && s.seqAddr[p.node].seqNumber == Tag(p.n))
    && (p.RelCas? ==> p.newTop == s.seqAddr[p.node])
    && (p.RelTicket? && p.node in s.pushed ==> s.pushed[p.node] <= s.issued)
  }

  ghost predicate MemInv(s: State) { ChainInv(s) && WordInv(s) && OwnerInv(s) }

  ghost predicate ThreadsInv(s: State)
    requires MemInv(s)
  {
    forall t :: 0 <= t < |s.threads| ==> LookInv(s, s.threads[t]) && ReleaseInv(s, s.threads[t])
  }
}
