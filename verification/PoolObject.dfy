/** CObjectPool as an object: each shared access of Alloc and Release in place, the two calls, and the destructor. */
module PoolObject {
  import opened Pool
  import opened Sequences
  import PoolInv
  import PoolRun
  import PoolAba

  class CObjectPool {
    const dummy: nat
    var top: Word
    var allocCnt: int
    var activeCnt: int
    var seqNumber: nat
    var next: map<nat, nat>
    var seqAddr: map<nat, Word>
    /** Where every thread is; its locals are the arguments of the methods below. */
    ghost var threads: seq<Pc>
    ghost var held: set<nat>
    ghost var lifo: seq<nat>
    ghost var issued: nat
    ghost var pushed: map<nat, nat>

    /** The pool, as a value. */
    ghost function Now(): State
      reads this
    {
      State(dummy, top, allocCnt, activeCnt, seqNumber, next, seqAddr, threads, held, lifo, issued, pushed)
    }

    constructor (d: nat, ghost count: nat)
      ensures Now() == Init(d, count)
    {
      dummy := d;
      top := Word(d, 0);
      allocCnt, activeCnt, seqNumber := 0, 0, 0;
      next, seqAddr := map[d := 0], map[d := Word(d, 0)];
      threads := seq(count, _ => Idle);
      held, lifo, issued, pushed := {}, [], 0, map[];
    }

    // ---- the shared accesses of Alloc

    method LoadTop(ghost t: nat) returns (oldTop: Word, empty: bool)
      requires t < |threads| && threads[t].AllocLoad?
      modifies this`threads
      ensures Now() == Step(old(Now()), t, 0)
      ensures oldTop == top && empty == (top.address == dummy)
    {
      oldTop := top;
      empty := oldTop.address == dummy;
      threads := threads[t := if empty then AllocMake else AllocNext(top, TopTicket(Now()))];
    }

    method ReadNext(ghost t: nat, node: nat) returns (newTopNode: nat)
      requires t < |threads| && threads[t].AllocNext? && threads[t].seen.address == node && node in next
      modifies this`threads
      ensures Now() == Step(old(Now()), t, 0) && newTopNode == next[node]
    {
      newTopNode := next[node];
      threads := threads[t := AllocTop(threads[t].seen, threads[t].ticket, newTopNode)];
    }

    method ReadWord(ghost t: nat, newTopNode: nat) returns (newTop: Word)
      requires t < |threads| && threads[t].AllocTop? && threads[t].next == newTopNode && newTopNode in seqAddr
      modifies this`threads
      ensures Now() == Step(old(Now()), t, 0) && newTop == seqAddr[newTopNode]
    {
      newTop := seqAddr[newTopNode];
      threads := threads[t := AllocCas(threads[t].seen, threads[t].ticket, newTopNode, newTop)];
    }

    /** The compare-and-swap of `_top._val` in Alloc. */
    method PopCas(ghost t: nat, newTop: Word, oldTop: Word) returns (won: bool)
      requires t < |threads| && threads[t].AllocCas? && threads[t].newTop == newTop && threads[t].seen == oldTop
      modifies this`threads, this`top, this`lifo
      ensures Now() == Step(old(Now()), t, 0) && won == (old(top).Val() == oldTop.Val())
    {
      won := top.Val() == oldTop.Val();
      if won {
        top := newTop;
        lifo := if lifo == [] then [] else lifo[1..];
        threads := threads[t := AllocCount(oldTop.address)];
      } else {
        threads := threads[t := AllocLoad];
      }
    }

    /** `new stNode`. */
    method MakeNode(ghost t: nat, made: nat)
      requires t < |threads| && threads[t].AllocMake? && 0 < made < ADDRESSES && made !in next
      modifies this`threads, this`next, this`seqAddr
      ensures Now() == Step(old(Now()), t, made)
    {
      next, seqAddr := next[made := 0], seqAddr[made := Word(made, 0)];
      threads := threads[t := AllocMade(made)];
    }

    method CountMade(ghost t: nat)
      requires t < |threads| && threads[t].AllocMade?
      modifies this`threads, this`allocCnt
      ensures Now() == Step(old(Now()), t, 0)
    {
      allocCnt := allocCnt + 1;
      threads := threads[t := AllocCount(threads[t].node)];
    }

    method CountActive(ghost t: nat)
      requires t < |threads| && threads[t].AllocCount?
      modifies this`threads, this`activeCnt, this`held
      ensures Now() == Step(old(Now()), t, 0)
    {
      activeCnt := activeCnt + 1;
      held := held + {threads[t].node};
      threads := threads[t := Idle];
    }

    // ---- the shared accesses of Release

    method TakeTicket(ghost t: nat) returns (local: nat)
      requires t < |threads| && threads[t].RelTicket? && seqNumber == issued % SEQ
      modifies this`threads, this`seqNumber, this`issued
      ensures Now() == Step(old(Now()), t, 0) && local == seqNumber == issued % SEQ
    {
      NextTicket(issued);
      seqNumber := (seqNumber + 1) % SEQ;
      local := seqNumber;
      issued := issued + 1;
      threads := threads[t := RelLoad(threads[t].node, issued)];
    }

    method LoadUnder(ghost t: nat) returns (oldTop: Word)
      requires t < |threads| && threads[t].RelLoad?
      modifies this`threads
      ensures Now() == Step(old(Now()), t, 0) && oldTop == top
    {
      oldTop := top;
      threads := threads[t := RelLink(threads[t].node, threads[t].n, oldTop)];
    }

    method Link(ghost t: nat, node: nat, under: nat)
      requires t < |threads| && threads[t].RelLink? && threads[t].node == node && threads[t].seen.address == under
      modifies this`threads, this`next
      ensures Now() == Step(old(Now()), t, 0)
    {
      next := next[node := under];
      threads := threads[t := RelTag(node, threads[t].n, threads[t].seen)];
    }

    /** The store into the 17-bit field `_seqNumber`. */
    method StoreTag(ghost t: nat, node: nat, local: nat)
      requires t < |threads| && threads[t].RelTag? && threads[t].node == node && local == threads[t].n % SEQ
      requires node in seqAddr
      modifies this`threads, this`seqAddr
      ensures Now() == Step(old(Now()), t, 0)
    {
      seqAddr := seqAddr[node := seqAddr[node].(seqNumber := local % TAGS)];
      threads := threads[t := RelRead(node, threads[t].n, threads[t].seen)];
    }

    method ReadOwn(ghost t: nat, node: nat) returns (newTop: Word)
      requires t < |threads| && threads[t].RelRead? && threads[t].node == node && node in seqAddr
      modifies this`threads
      ensures Now() == Step(old(Now()), t, 0) && newTop == seqAddr[node]
    {
      newTop := seqAddr[node];
      threads := threads[t := RelCas(node, threads[t].n, threads[t].seen, newTop)];
    }

    /** The compare-and-swap of `_top._val` in Release. */
    method PushCas(ghost t: nat, newTop: Word, oldTop: Word) returns (won: bool)
      requires t < |threads| && threads[t].RelCas? && threads[t].newTop == newTop && threads[t].seen == oldTop
      modifies this`threads, this`top, this`lifo, this`pushed
      ensures Now() == Step(old(Now()), t, 0) && won == (old(top).Val() == oldTop.Val())
    {
      won := top.Val() == oldTop.Val();
      ghost var p := threads[t];
      if won {
        top := newTop;
        lifo := [p.node] + lifo;
        pushed := pushed[p.node := p.n];
        threads := threads[t := RelCount];
      } else {
        threads := threads[t := RelLoad(p.node, p.n)];
      }
    }

    method CountReleased(ghost t: nat)
      requires t < |threads| && threads[t].RelCount?
      modifies this`threads, this`activeCnt
      ensures Now() == Step(old(Now()), t, 0)
    {
      activeCnt := activeCnt - 1;
      threads := threads[t := Idle];
    }

    // ---- the calls, when no other thread moves meanwhile: each compare-and-swap wins at once

    /** Alloc: the head of the stack, or a new node when there is none. */
    method Alloc(ghost t: nat, made: nat) returns (node: nat)
      requires t < |threads| && threads[t] == Idle
      requires if top.address == dummy then 0 < made < ADDRESSES && made !in next
               else top.address in next && next[top.address] in seqAddr
      modifies this
      ensures Now() == old(if top.address == dummy then PoolAba.Made(Now(), made) else PoolAba.Popped(Now()))
      ensures node == old(if top.address == dummy then made else top.address)
    {
      ghost var s := Now();
      threads := threads[t := AllocLoad];
      var oldTop, empty := LoadTop(t);
      if empty {
        node := made;
        MakeNode(t, node);
        CountMade(t);
      } else {
        node := oldTop.address;
        TakeHead(t, oldTop, s);
      }
      CountActive(t);
      assert threads == s.threads;
    }

    method TakeHead(ghost t: nat, oldTop: Word, ghost s: State)
      requires t < |s.threads| && top == oldTop && Now() == At(s, t, AllocNext(top, TopTicket(s)))
      requires top.address in next && next[top.address] in seqAddr
      modifies this`threads, this`top, this`lifo
      ensures Now() == At(s, t, AllocCount(oldTop.address)).(
                         top := s.seqAddr[s.next[oldTop.address]], lifo := if s.lifo == [] then [] else s.lifo[1..])
    {
      var newTopNode := ReadNext(t, oldTop.address);
      var newTop := ReadWord(t, newTopNode);
      var won := PopCas(t, newTop, oldTop);
    }

    /** Release: the node goes on top under the next ticket. */
    method Release(ghost t: nat, node: nat)
      requires t < |threads| && threads[t] == Idle && node in held && node in seqAddr && seqAddr[node].address == node
      requires seqNumber == issued % SEQ
      modifies this
      ensures Now() == old(PoolAba.Pushed(Now(), node))
    {
      ghost var s := Now();
      var oldTop, newTop := LinkUnder(t, node);
      var won := PushCas(t, newTop, oldTop);
      CountReleased(t);
      assert threads == s.threads;
    }

    /** Release up to its look at the head. */
    method TakeUnder(ghost t: nat, node: nat) returns (local: nat, oldTop: Word)
      requires t < |threads| && threads[t] == Idle && node in held && seqNumber == issued % SEQ
      modifies this`threads, this`held, this`seqNumber, this`issued
      ensures Now() == old(At(Now(), t, RelLink(node, issued + 1, top)).(
                             seqNumber := (seqNumber + 1) % SEQ, issued := issued + 1, held := held - {node}))
      ensures oldTop == top && local == issued % SEQ
    {
      threads, held := threads[t := RelTicket(node)], held - {node};
      local := TakeTicket(t);
      oldTop := LoadUnder(t);
    }

    /** Release up to its compare-and-swap. */
    method LinkUnder(ghost t: nat, node: nat) returns (oldTop: Word, newTop: Word)
      requires t < |threads| && threads[t] == Idle && node in held && node in seqAddr && seqAddr[node].address == node
      requires seqNumber == issued % SEQ
      modifies this`threads, this`held, this`seqNumber, this`issued, this`next, this`seqAddr
      ensures Now() == old(PoolAba.Linked(Now(), t, node)) && oldTop == top && newTop == Word(node, Tag(issued))
    {
      var local;
      local, oldTop := TakeUnder(t, node);
      Link(t, node, oldTop.address);
      StoreTag(t, node, local);
      newTop := ReadOwn(t, node);
    }

    // ---- the destructor

    /** Deletes the free chain node by node; it breaks when nodes are still out, or when the counts disagree. */
    method Destroy() returns (broke: bool, deleted: seq<nat>)
      requires PoolRun.IsChain(Now(), lifo) && Distinct(lifo)
      modifies this`next, this`allocCnt
      ensures deleted == lifo && next == old(next) - (set n | n in lifo)
      ensures allocCnt == old(allocCnt) - |lifo|
      ensures broke == (activeCnt != 0 || allocCnt != 0)
    {
      broke := activeCnt != 0;
      deleted := [];
      ghost var s, rest := Now(), lifo;
      var node := top.address;
      while node != dummy
        invariant lifo == deleted + rest && PoolRun.ChainFrom(s, node, rest)
        invariant next == s.next - (set n | n in deleted)
        invariant allocCnt == s.allocCnt - |deleted|
        decreases |rest|
      {
        var oldTop := node;
        assert lifo[|deleted|] == oldTop && forall k :: 0 <= k < |deleted| ==> deleted[k] == lifo[k];
        node := next[oldTop];
        next := next - {oldTop};
        deleted, rest := deleted + [oldTop], rest[1..];
        allocCnt := allocCnt - 1;
      }
      if allocCnt != 0 { broke := true; }
    }
  }

  lemma NextTicket(n: nat)
    ensures (n % SEQ + 1) % SEQ == (n + 1) % SEQ
  {
  }

  // ---- what the calls mean for the stack

  /** An Alloc by itself takes the head of the free nodes, and makes a node exactly when there is none. */
  lemma AllocIsPop(s: State)
    requires PoolInv.Inv(s)
    ensures s.top.address == s.dummy <==> s.lifo == []
    ensures s.top.address != s.dummy ==>
              && s.top.address in s.next && s.next[s.top.address] in s.seqAddr
              && s.lifo == [s.top.address] + PoolAba.Popped(s).lifo
  {
    if s.lifo != [] {
      assert s.lifo == [s.lifo[0]] + s.lifo[1..];
      HeadsAreNodes(s);
    }
  }

  lemma HeadsAreNodes(s: State)
    requires PoolInv.Inv(s) && s.lifo != []
    ensures s.top.address == s.lifo[0] && s.lifo[0] in s.next && s.next[s.lifo[0]] in s.seqAddr
  {
    assert s.next[s.lifo[0]] == Below(s, 0);
    if |s.lifo| > 1 { assert s.lifo[1] in s.next; }
  }

  /** And gives out the node that was released last. */
  lemma ReleaseThenAlloc(s: State, node: nat)
    requires PoolInv.Inv(s) && node in s.held
    ensures var r := PoolAba.Pushed(s, node);
            && r.top.address == node && r.lifo == [node] + s.lifo
            && node in r.next && r.next[node] in r.seqAddr && PoolAba.Popped(r).lifo == s.lifo
            && PoolAba.Popped(r).held == s.held
  {
  }

  /** The destructor of a pool that no thread uses breaks exactly when a node is still out. */
  lemma DestroyBreaks(s: State, q: seq<nat>)
    requires PoolRun.Reachable(s) && (forall t :: 0 <= t < |s.threads| ==> s.threads[t] == Idle)
    requires PoolRun.IsChain(s, q)
    ensures q == s.lifo
    ensures (s.activeCnt != 0 || s.allocCnt != |q|) <==> s.held != {}
  {
    PoolRun.ReachableInv(s);
    PoolRun.TheChain(s, q);
    PoolRun.CountersAreRight(s);
    PoolRun.NobodyMoves(s.threads);
    assert |s.held| == 0 <==> s.held == {};
  }
}
