/** The pool invariant is kept by every step, as long as no Alloc is overtaken by 2^17 tickets. */
module PoolInv {
  import opened Pool
  import opened Sequences

  ghost predicate Inv(s: State) { MemInv(s) && ThreadsInv(s) }

  /** The head is still there under the ticket it was read with. */
  predicate SamePush(s: State, p: Pc)
    requires p.AllocCas?
  {
    s.top.address in s.pushed && s.pushed[s.top.address] == p.ticket
  }

  /** If the next step of some thread is a winning Alloc CAS, and the head was pushed again since it was read, then
      fewer than `bound` tickets were issued since the ticket in the head word that the thread read. */
  ghost predicate Timely(s: State, x: Action, bound: nat)
    requires Can(s, x)
  {
    x.Run? && s.threads[x.t].AllocCas? && s.top.Val() == s.threads[x.t].seen.Val() && !SamePush(s, s.threads[x.t]) ==>
      s.issued < s.threads[x.t].ticket + bound
  }

  // ---- tickets and tags

  lemma TagIsLow(n: nat)
    ensures Tag(n) == n % TAGS
  {
  }

  /** Within 2^17 tickets the tag tells them apart. */
  lemma TagsTellApart(n: nat, m: nat)
    requires n <= m < n + 0x2_0000 && Tag(n) == Tag(m)
    ensures n == m
  {
    TagIsLow(n);
    TagIsLow(m);
  }

  // ---- steps that leave nodes and stack alone

  /** Only thread `t` and the counters differ. */
  ghost predicate OnlyThread(s: State, s': State, t: nat) {
    && t < |s.threads| == |s'.threads| && s'.threads == s.threads[t := s'.threads[t]]
    && s'.dummy == s.dummy && s'.top == s.top && s'.seqNumber == s.seqNumber && s'.next == s.next
    && s'.seqAddr == s.seqAddr && s'.lifo == s.lifo && s'.issued == s.issued && s'.pushed == s.pushed
  }

  ghost predicate SameOwner(p: Pc, q: Pc) { forall n :: Owns(p, n) <==> Owns(q, n) }

  lemma OwnersStay(s: State, s': State, t: nat)
    requires OwnerInv(s) && OnlyThread(s, s', t) && s'.held == s.held && SameOwner(s.threads[t], s'.threads[t])
    ensures OwnerInv(s')
  {
    forall u, n | 0 <= u < |s'.threads|
      ensures Owns(s'.threads[u], n) <==> Owns(s.threads[u], n)
    {
      if u == t { assert Owns(s.threads[t], n) <==> Owns(s'.threads[t], n); }
    }
    forall u, v, n | 0 <= u < v < |s'.threads| && Owns(s'.threads[u], n)
      ensures !Owns(s'.threads[v], n)
    {
      assert Owns(s.threads[u], n) && !Owns(s.threads[v], n);
    }
    forall n | n in s'.next && n != s'.dummy && n !in s'.lifo && n !in s'.held
      ensures exists u :: 0 <= u < |s'.threads| && Owns(s'.threads[u], n)
    {
      var u :| 0 <= u < |s.threads| && Owns(s.threads[u], n);
      assert Owns(s'.threads[u], n);
    }
  }

  /** Copies taken from memory that has not changed stay right. */
  lemma CopiesStay(s: State, s': State, t: nat)
    requires Inv(s) && OnlyThread(s, s', t) && OwnerInv(s')
    requires LookInv(s, s'.threads[t]) && ReleaseInv(s, s'.threads[t])
    ensures Inv(s')
  {
    assert ChainInv(s') && WordInv(s');
    forall u | 0 <= u < |s'.threads| ensures LookInv(s', s'.threads[u]) && ReleaseInv(s', s'.threads[u]) {
      assert LookInv(s, if u == t then s'.threads[t] else s.threads[u]);
    }
  }

  lemma QuietStep(s: State, s': State, t: nat)
    requires Inv(s) && OnlyThread(s, s', t) && s'.held == s.held && SameOwner(s.threads[t], s'.threads[t])
    requires LookInv(s, s'.threads[t]) && ReleaseInv(s, s'.threads[t])
    ensures Inv(s')
  {
    OwnersStay(s, s', t);
    CopiesStay(s, s', t);
  }

  /** Threads other than `t` own what they owned, and `t` at most `m`. */
  lemma OwnersApart(s: State, s': State, t: nat, m: nat)
    requires OwnerInv(s) && t < |s.threads| == |s'.threads| && s'.threads == s.threads[t := s'.threads[t]]
    requires forall n :: Owns(s'.threads[t], n) ==> n == m
    requires forall u :: 0 <= u < |s.threads| && u != t ==> !Owns(s.threads[u], m)
    ensures forall u, v, n :: 0 <= u < v < |s'.threads| && Owns(s'.threads[u], n) ==> !Owns(s'.threads[v], n)
  {
    forall u, v, n | 0 <= u < v < |s'.threads| && Owns(s'.threads[u], n)
      ensures !Owns(s'.threads[v], n)
    {
      if u == t {
        assert n == m && !Owns(s.threads[v], n);
      } else {
        assert Owns(s.threads[u], n) && !Owns(s.threads[v], n) && n != m;
      }
    }
  }

  /** A thread hands its node to the caller. */
  lemma OwnersGive(s: State, s': State, t: nat, node: nat)
    requires OwnerInv(s) && OnlyThread(s, s', t) && Owns(s.threads[t], node)
    requires s'.threads[t] == Idle && s'.held == s.held + {node}
    ensures OwnerInv(s')
  {
    forall u | 0 <= u < |s.threads| && u != t ensures !Owns(s.threads[u], node) {}
    OwnersApart(s, s', t, node);
    forall u, n | 0 <= u < |s'.threads| && Owns(s'.threads[u], n)
      ensures n in s'.next && n != s'.dummy && n !in s'.lifo && n !in s'.held
    {
      assert u != t && Owns(s.threads[u], n);
    }
    forall n | n in s'.next && n != s'.dummy && n !in s'.lifo && n !in s'.held
      ensures exists u :: 0 <= u < |s'.threads| && Owns(s'.threads[u], n)
    {
      var u :| 0 <= u < |s.threads| && Owns(s.threads[u], n);
      OwnsOther(s, t, u, node, n);
      assert Owns(s'.threads[u], n);
    }
  }

  lemma OwnsOther(s: State, t: nat, u: nat, node: nat, n: nat)
    requires t < |s.threads| && u < |s.threads| && Owns(s.threads[t], node) && Owns(s.threads[u], n) && n != node
    ensures u != t
  {
  }

  /** A caller hands its node to a thread. */
  lemma OwnersTake(s: State, s': State, t: nat, node: nat)
    requires OwnerInv(s) && OnlyThread(s, s', t) && s.threads[t] == Idle && node in s.held
    requires s'.threads[t] == RelTicket(node) && s'.held == s.held - {node}
    ensures OwnerInv(s')
  {
    OwnersApart(s, s', t, node);
    assert Owns(s'.threads[t], node);
    forall u, n | 0 <= u < |s'.threads| && Owns(s'.threads[u], n)
      ensures n in s'.next && n != s'.dummy && n !in s'.lifo && n !in s'.held
    {
      if u != t { assert Owns(s.threads[u], n); }
    }
    forall n | n in s'.next && n != s'.dummy && n !in s'.lifo && n !in s'.held
      ensures exists u :: 0 <= u < |s'.threads| && Owns(s'.threads[u], n)
    {
      if n != node {
        var u :| 0 <= u < |s.threads| && Owns(s.threads[u], n);
        assert Owns(s'.threads[u], n);
      }
    }
  }

  // ---- steps that change a node or the stack

  /** The pool goes from `s` to `s'` and spares what a thread has seen in the stack. */
  ghost predicate Spares(s: State, s': State)
    requires WordInv(s) && WordInv(s')
  {
    && s'.dummy == s.dummy && s.issued <= s'.issued && s.next.Keys <= s'.next.Keys
    && (forall n :: n in s.pushed ==> n in s'.pushed && s.pushed[n] <= s'.pushed[n])
    // a node a thread has seen in the stack is not written before it leaves it
    && (forall n :: n in s'.lifo && n in s'.pushed && n in s.pushed && s'.pushed[n] == s.pushed[n] ==>
          n in s.lifo && s'.next[n] == s.next[n] && s'.seqAddr[s.next[n]] == s.seqAddr[s.next[n]])
  }

  lemma LookSurvives(s: State, s': State, p: Pc)
    requires WordInv(s) && WordInv(s') && LookInv(s, p) && Spares(s, s')
    ensures LookInv(s', p)
  {
    if p.AllocNext? || p.AllocTop? || p.AllocCas? {
      var n := p.seen.address;
      assert n in s.pushed && n in s'.pushed && s.pushed[n] <= s'.pushed[n];
      if Unmoved(s', n, p.ticket) { assert Unmoved(s, n, p.ticket); }
    }
  }

  lemma ReleaseSurvives(s: State, s': State, p: Pc)
    requires WordInv(s) && WordInv(s') && ReleaseInv(s, p) && Spares(s, s')
    // the node a thread is releasing is written by that thread only
    requires forall n :: Owns(p, n) ==>
               && n in s.next && s'.next[n] == s.next[n] && s'.seqAddr[n] == s.seqAddr[n]
               && (n in s'.pushed ==> n in s.pushed && s'.pushed[n] == s.pushed[n])
    ensures ReleaseInv(s', p)
  {
    if p.RelTicket? || p.RelLoad? || p.RelLink? || p.RelTag? || p.RelRead? || p.RelCas? { assert Owns(p, p.node); }
  }

  /** What a thread has copied or written does not change while the nodes it names do not. */
  lemma CopiesSurvive(s: State, s': State, p: Pc)
    requires WordInv(s) && WordInv(s') && LookInv(s, p) && ReleaseInv(s, p) && Spares(s, s')
    requires forall n :: Owns(p, n) ==>
               && n in s.next && s'.next[n] == s.next[n] && s'.seqAddr[n] == s.seqAddr[n]
               && (n in s'.pushed ==> n in s.pushed && s'.pushed[n] == s.pushed[n])
    ensures LookInv(s', p) && ReleaseInv(s', p)
  {
    LookSurvives(s, s', p);
    ReleaseSurvives(s, s', p);
  }

  /** Thread `t` acts on node `node`, which it owns before and after. */
  ghost predicate Writes(s: State, s': State, t: nat, node: nat) {
    && t < |s.threads| == |s'.threads| && s'.threads == s.threads[t := s'.threads[t]]
    && s'.dummy == s.dummy && s'.top == s.top && s'.lifo == s.lifo && s'.pushed == s.pushed && s'.held == s.held
    && Owns(s.threads[t], node) && Owns(s'.threads[t], node)
    && s'.next.Keys == s.next.Keys && s'.seqAddr.Keys == s.seqAddr.Keys
    && (forall n :: n in s.next && n != node ==> s'.next[n] == s.next[n])
    && (forall n :: n in s.seqAddr && n != node ==> s'.seqAddr[n] == s.seqAddr[n])
  }

  lemma OwnsOne(p: Pc, n: nat, m: nat)
    requires Owns(p, n) && Owns(p, m)
    ensures n == m
  {
  }

  /** A thread that owns `node` before and after owns what it owned. */
  lemma WritesOwn(s: State, s': State, t: nat, node: nat, u: nat, n: nat)
    requires Writes(s, s', t, node) && u < |s.threads|
    ensures Owns(s'.threads[u], n) <==> Owns(s.threads[u], n)
  {
    if u == t {
      if Owns(s.threads[t], n) { OwnsOne(s.threads[t], n, node); }
      if Owns(s'.threads[t], n) { OwnsOne(s'.threads[t], n, node); }
    }
  }

  lemma WritesKeepOwners(s: State, s': State, t: nat, node: nat)
    requires OwnerInv(s) && Writes(s, s', t, node)
    ensures OwnerInv(s')
  {
    forall u, n | 0 <= u < |s'.threads| ensures Owns(s'.threads[u], n) <==> Owns(s.threads[u], n) {
      WritesOwn(s, s', t, node, u, n);
    }
    SameOwnersKeep(s, s');
  }

  lemma SameOwnersKeep(s: State, s': State)
    requires OwnerInv(s) && |s'.threads| == |s.threads| && s'.next.Keys == s.next.Keys
    requires s'.dummy == s.dummy && s'.lifo == s.lifo && s'.held == s.held
    requires forall u, n :: 0 <= u < |s.threads| ==> (Owns(s'.threads[u], n) <==> Owns(s.threads[u], n))
    ensures OwnerInv(s')
  {
    forall n | n in s'.next && n != s'.dummy && n !in s'.lifo && n !in s'.held
      ensures exists u :: 0 <= u < |s'.threads| && Owns(s'.threads[u], n)
    {
      assert n in s.next;
      var u :| 0 <= u < |s.threads| && Owns(s.threads[u], n);
      assert Owns(s'.threads[u], n);
    }
    forall u, v, n | 0 <= u < v < |s'.threads| && Owns(s'.threads[u], n)
      ensures !Owns(s'.threads[v], n)
    {
      assert Owns(s.threads[u], n) && !Owns(s.threads[v], n);
    }
  }

  lemma WritesKeepChain(s: State, s': State, t: nat, node: nat)
    requires MemInv(s) && Writes(s, s', t, node)
    ensures ChainInv(s')
  {
    assert node !in s.lifo && node != s.dummy;
  }

  lemma WritesKeepWords(s: State, s': State, t: nat, node: nat)
    requires WordInv(s) && Writes(s, s', t, node) && node !in s.lifo && node in s.next && node != s.dummy
    requires s.issued <= s'.issued && s'.seqNumber == s'.issued % SEQ
    requires s'.next[node] in s.next || (node !in s.pushed && s'.next[node] == s.next[node])
    requires s'.seqAddr[node].address == node && s'.seqAddr[node].Fits()
    ensures WordInv(s')
  {
  }

  lemma WritesKeepMemory(s: State, s': State, t: nat, node: nat)
    requires MemInv(s) && Writes(s, s', t, node)
    requires s.issued <= s'.issued && s'.seqNumber == s'.issued % SEQ
    requires s'.next[node] in s.next || (node !in s.pushed && s'.next[node] == s.next[node])
    requires s'.seqAddr[node].address == node && s'.seqAddr[node].Fits()
    ensures MemInv(s')
  {
    WritesKeepOwners(s, s', t, node);
    WritesKeepChain(s, s', t, node);
    WritesKeepWords(s, s', t, node);
  }

  /** A releasing thread writes its own node. */
  lemma WriteStep(s: State, s': State, t: nat, node: nat)
    requires Inv(s) && Writes(s, s', t, node) && s.issued <= s'.issued && MemInv(s')
    requires LookInv(s', s'.threads[t]) && ReleaseInv(s', s'.threads[t])
    ensures Inv(s')
  {
    WritesSpare(s, s', t, node);
    forall u | 0 <= u < |s'.threads| ensures LookInv(s', s'.threads[u]) && ReleaseInv(s', s'.threads[u]) {
      if u != t {
        assert LookInv(s, s.threads[u]) && ReleaseInv(s, s.threads[u]);
        WriteKeepsCopies(s, s', t, node, s.threads[u]);
      }
    }
  }

  lemma WritesSpare(s: State, s': State, t: nat, node: nat)
    requires ChainInv(s) && WordInv(s) && WordInv(s') && Writes(s, s', t, node) && s.issued <= s'.issued
    requires node !in s.lifo && node != s.dummy
    ensures Spares(s, s')
  {
    forall n | n in s.lifo ensures n in s.next && s.next[n] in s.seqAddr && s.next[n] != node {
      var k :| 0 <= k < |s.lifo| && s.lifo[k] == n;
      assert s.next[n] == Below(s, k);
    }
  }

  lemma WriteKeepsCopies(s: State, s': State, t: nat, node: nat, p: Pc)
    requires WordInv(s) && WordInv(s') && Writes(s, s', t, node) && Spares(s, s')
    requires LookInv(s, p) && ReleaseInv(s, p) && forall n :: Owns(p, n) ==> n in s.next && n != node
    ensures LookInv(s', p) && ReleaseInv(s', p)
  {
    CopiesSurvive(s, s', p);
  }

  lemma MakeKeepsOwners(s: State, t: nat, made: nat)
    requires MemInv(s) && Can(s, Run(t, made)) && s.threads[t] == AllocMake
    ensures OwnerInv(MakeNode(s, t, made))
  {
    var s' := MakeNode(s, t, made);
    assert Owns(s'.threads[t], made);
    OwnersApart(s, s', t, made);
    forall n | n in s'.next && n != s'.dummy && n !in s'.lifo && n !in s'.held
      ensures exists u :: 0 <= u < |s'.threads| && Owns(s'.threads[u], n)
    {
      if n != made {
        var u :| 0 <= u < |s.threads| && Owns(s.threads[u], n);
        assert Owns(s'.threads[u], n);
      }
    }
  }

  lemma MakeKeepsChain(s: State, t: nat, made: nat)
    requires MemInv(s) && Can(s, Run(t, made)) && s.threads[t] == AllocMake
    ensures ChainInv(MakeNode(s, t, made))
  {
  }

  lemma MakeKeepsWords(s: State, t: nat, made: nat)
    requires WordInv(s) && Can(s, Run(t, made)) && s.threads[t] == AllocMake
    ensures WordInv(MakeNode(s, t, made))
  {
  }

  lemma MakeKeepsMemory(s: State, t: nat, made: nat)
    requires MemInv(s) && Can(s, Run(t, made)) && s.threads[t] == AllocMake
    ensures MemInv(MakeNode(s, t, made))
  {
    MakeKeepsOwners(s, t, made);
    MakeKeepsChain(s, t, made);
    MakeKeepsWords(s, t, made);
  }

  lemma MakeKeepsCopies(s: State, made: nat, s': State, p: Pc)
    requires WordInv(s) && WordInv(s') && LookInv(s, p) && ReleaseInv(s, p) && forall n :: Owns(p, n) ==> n in s.next
    requires made !in s.next && s'.next == s.next[made := 0] && s'.seqAddr == s.seqAddr[made := Word(made, 0)]
    requires s'.dummy == s.dummy && s'.issued == s.issued && s'.pushed == s.pushed && s'.lifo == s.lifo
    ensures LookInv(s', p) && ReleaseInv(s', p)
  {
    CopiesSurvive(s, s', p);
  }

  /** `new stNode`: a node nobody else can name. */
  lemma MakeStep(s: State, t: nat, made: nat)
    requires Inv(s) && Can(s, Run(t, made)) && s.threads[t] == AllocMake
    ensures Inv(MakeNode(s, t, made))
  {
    MakeKeepsMemory(s, t, made);
    var s' := MakeNode(s, t, made);
    forall u | 0 <= u < |s'.threads| ensures LookInv(s', s'.threads[u]) && ReleaseInv(s', s'.threads[u]) {
      if u != t { MakeKeepsCopies(s, made, s', s.threads[u]); }
    }
  }

  /** The heart of the pool. If the head word is still the one that was read, and fewer than 2^17 tickets were issued
      in between in case the node was pushed again, then the node was never pushed again, so the copies of its `_next`
      and of the next node's word are still right. */
  lemma NoAba(s: State, t: nat)
    requires Inv(s) && t < |s.threads| && s.threads[t].AllocCas? && Timely(s, Run(t, 0), TAGS)
    requires s.top.Val() == s.threads[t].seen.Val()
    ensures var p := s.threads[t];
      && s.lifo != [] && s.lifo[0] == p.seen.address && s.pushed[s.lifo[0]] == p.ticket
      && p.next == Below(s, 0) && p.newTop == s.seqAddr[p.next]
  {
    var p := s.threads[t];
    assert LookInv(s, p);
    ValIsInjective(s.top, p.seen);
    assert s.lifo != [] && s.lifo[0] == p.seen.address;
    if !SamePush(s, p) { TagsTellApart(p.ticket, s.pushed[s.lifo[0]]); }
    assert Unmoved(s, p.seen.address, p.ticket);
  }

  lemma PopKeepsChain(s: State, t: nat)
    requires Inv(s) && t < |s.threads| && s.threads[t].AllocCas? && Timely(s, Run(t, 0), TAGS)
    requires s.top.Val() == s.threads[t].seen.Val()
    ensures ChainInv(PopCas(s, t, s.threads[t]))
  {
    NoAba(s, t);
    var p := s.threads[t];
    assert LookInv(s, p);
    OneLessOnTop(s, PopCas(s, t, p));
  }

  lemma OneLessOnTop(s: State, s': State)
    requires ChainInv(s) && s.lifo != [] && Below(s, 0) in s.seqAddr
    requires s'.lifo == s.lifo[1..] && s'.next == s.next && s'.seqAddr == s.seqAddr && s'.dummy == s.dummy
    requires s'.top == s.seqAddr[Below(s, 0)]
    ensures ChainInv(s')
  {
    forall k | 0 <= k < |s'.lifo| ensures s'.lifo[k] == s.lifo[k + 1] && Below(s', k) == Below(s, k + 1) {}
  }

  lemma PopKeepsWords(s: State, t: nat)
    requires WordInv(s) && t < |s.threads| && s.threads[t].AllocCas?
    ensures WordInv(PopCas(s, t, s.threads[t]))
  {
  }

  lemma PopKeepsOwners(s: State, s': State, t: nat)
    requires OwnerInv(s) && Distinct(s.lifo) && s.lifo != [] && t < |s.threads| && s.threads[t].AllocCas?
    requires s.lifo[0] in s.next && s.lifo[0] != s.dummy
    requires s' == At(s, t, AllocCount(s.lifo[0])).(top := s'.top, lifo := s.lifo[1..])
    ensures OwnerInv(s')
  {
    assert s.lifo == [s.lifo[0]] + s'.lifo;
    assert Owns(s'.threads[t], s.lifo[0]);
    OwnersApart(s, s', t, s.lifo[0]);
    forall n | n in s'.next && n != s'.dummy && n !in s'.lifo && n !in s'.held
      ensures exists u :: 0 <= u < |s'.threads| && Owns(s'.threads[u], n)
    {
      if n != s.lifo[0] {
        var u :| 0 <= u < |s.threads| && Owns(s.threads[u], n);
        assert Owns(s'.threads[u], n);
      }
    }
  }

  lemma PopKeepsMemory(s: State, t: nat)
    requires Inv(s) && t < |s.threads| && s.threads[t].AllocCas? && Timely(s, Run(t, 0), TAGS)
    requires s.top.Val() == s.threads[t].seen.Val()
    ensures MemInv(PopCas(s, t, s.threads[t]))
  {
    NoAba(s, t);
    PopKeepsChain(s, t);
    PopKeepsWords(s, t);
    PopKeepsOwners(s, PopCas(s, t, s.threads[t]), t);
  }

  lemma PopKeepsCopies(s: State, s': State, p: Pc)
    requires WordInv(s) && WordInv(s') && LookInv(s, p) && ReleaseInv(s, p) && forall n :: Owns(p, n) ==> n in s.next
    requires s'.dummy == s.dummy && s'.issued == s.issued && s'.next == s.next && s'.seqAddr == s.seqAddr
    requires s'.pushed == s.pushed && forall n :: n in s'.lifo ==> n in s.lifo
    ensures LookInv(s', p) && ReleaseInv(s', p)
  {
    CopiesSurvive(s, s', p);
  }

  /** A pop changes the head, the stack and its thread. */
  ghost predicate Pops(s: State, s': State, t: nat) {
    && s'.dummy == s.dummy && s'.issued == s.issued && s'.next == s.next && s'.seqAddr == s.seqAddr
    && s'.pushed == s.pushed && (forall n :: n in s'.lifo ==> n in s.lifo)
    && t < |s.threads| == |s'.threads| && s'.threads == s.threads[t := s'.threads[t]] && s'.threads[t].AllocCount?
  }

  lemma PopCasPops(s: State, t: nat)
    requires t < |s.threads| && s.threads[t].AllocCas? && s.top.Val() == s.threads[t].seen.Val() && s.lifo != []
    ensures Pops(s, PopCas(s, t, s.threads[t]), t)
  {
    assert s.lifo == [s.lifo[0]] + s.lifo[1..];
  }

  lemma PopKeepsThreads(s: State, s': State, t: nat)
    requires Inv(s) && MemInv(s') && Pops(s, s', t)
    ensures ThreadsInv(s')
  {
    forall u | 0 <= u < |s'.threads| ensures LookInv(s', s'.threads[u]) && ReleaseInv(s', s'.threads[u]) {
      if u != t { PopKeepsCopies(s, s', s.threads[u]); }
    }
  }

  lemma PopStep(s: State, t: nat)
    requires Inv(s) && t < |s.threads| && s.threads[t].AllocCas? && Timely(s, Run(t, 0), TAGS)
    requires s.top.Val() == s.threads[t].seen.Val()
    ensures Inv(PopCas(s, t, s.threads[t]))
  {
    NoAba(s, t);
    PopKeepsMemory(s, t);
    PopCasPops(s, t);
    PopKeepsThreads(s, PopCas(s, t, s.threads[t]), t);
  }

  lemma PushIsBelow(s: State, t: nat)
    requires Inv(s) && t < |s.threads| && s.threads[t].RelCas? && s.top.Val() == s.threads[t].seen.Val()
    ensures var p := s.threads[t];
            && p.node in s.next && p.node != s.dummy && p.node !in s.lifo && p.node in s.seqAddr
            && p.newTop == s.seqAddr[p.node]
            && s.next[p.node] == if s.lifo == [] then s.dummy else s.lifo[0]
  {
    var p := s.threads[t];
    assert ReleaseInv(s, p) && Owns(p, p.node);
    ValIsInjective(s.top, p.seen);
  }

  lemma PushKeepsChain(s: State, t: nat)
    requires Inv(s) && t < |s.threads| && s.threads[t].RelCas? && s.top.Val() == s.threads[t].seen.Val()
    ensures ChainInv(PushCas(s, t, s.threads[t]))
  {
    PushIsBelow(s, t);
    OneMoreOnTop(s, PushCas(s, t, s.threads[t]), s.threads[t].node);
  }

  lemma OneMoreOnTop(s: State, s': State, node: nat)
    requires ChainInv(s) && node in s.next && node != s.dummy && node !in s.lifo && node in s.seqAddr
    requires s.next[node] == if s.lifo == [] then s.dummy else s.lifo[0]
    requires s'.lifo == [node] + s.lifo && s'.next == s.next && s'.seqAddr == s.seqAddr && s'.dummy == s.dummy
    requires s'.top == s.seqAddr[node]
    ensures ChainInv(s')
  {
    forall k | 1 <= k < |s'.lifo| ensures s'.lifo[k] == s.lifo[k - 1] && Below(s', k) == Below(s, k - 1) {}
  }

  lemma PushKeepsWords(s: State, t: nat)
    requires Inv(s) && t < |s.threads| && s.threads[t].RelCas? && s.top.Val() == s.threads[t].seen.Val()
    ensures WordInv(PushCas(s, t, s.threads[t]))
  {
    var p := s.threads[t];
    assert ReleaseInv(s, p) && Owns(p, p.node);
  }

  lemma PushKeepsOwners(s: State, t: nat)
    requires Inv(s) && t < |s.threads| && s.threads[t].RelCas? && s.top.Val() == s.threads[t].seen.Val()
    ensures OwnerInv(PushCas(s, t, s.threads[t]))
  {
    var p := s.threads[t];
    assert Owns(p, p.node);
    GivesToStack(s, PushCas(s, t, p), t, p.node);
  }

  /** A thread leaves its node to the stack. */
  lemma GivesToStack(s: State, s': State, t: nat, node: nat)
    requires OwnerInv(s) && t < |s.threads| && s.threads[t].RelCas? && s.threads[t].node == node
    requires Owns(s.threads[t], node) && s'.threads == s.threads[t := RelCount] && s'.lifo == [node] + s.lifo
    requires s'.dummy == s.dummy && s'.next == s.next && s'.held == s.held
    ensures OwnerInv(s')
  {
    assert forall n :: n in s'.lifo <==> n == node || n in s.lifo;
    forall u, n | 0 <= u < |s'.threads| && Owns(s'.threads[u], n) ensures Owns(s.threads[u], n) && n != node {
      if u < t { assert Owns(s.threads[u], n) && !Owns(s.threads[t], n); }
    }
    forall n | n in s'.next && n != s'.dummy && n !in s'.lifo && n !in s'.held
      ensures exists u :: 0 <= u < |s'.threads| && Owns(s'.threads[u], n)
    {
      var u :| 0 <= u < |s.threads| && Owns(s.threads[u], n);
      assert Owns(s'.threads[u], n);
    }
  }

  lemma PushKeepsCopies(s: State, node: nat, n: nat, s': State, p: Pc)
    requires WordInv(s) && WordInv(s') && LookInv(s, p) && ReleaseInv(s, p)
    requires forall m :: Owns(p, m) ==> m in s.next && m != node
    requires s'.dummy == s.dummy && s'.issued == s.issued && s'.next == s.next && s'.seqAddr == s.seqAddr
    requires s'.lifo == [node] + s.lifo && s'.pushed == s.pushed[node := n] && (node in s.pushed ==> s.pushed[node] < n)
    ensures LookInv(s', p) && ReleaseInv(s', p)
  {
    CopiesSurvive(s, s', p);
  }

  lemma PushStep(s: State, t: nat)
    requires Inv(s) && t < |s.threads| && s.threads[t].RelCas? && s.top.Val() == s.threads[t].seen.Val()
    ensures Inv(PushCas(s, t, s.threads[t]))
  {
    PushKeepsChain(s, t);
    PushKeepsWords(s, t);
    PushKeepsOwners(s, t);
    var p := s.threads[t];
    var s' := PushCas(s, t, p);
    assert ReleaseInv(s, p) && Owns(p, p.node);
    forall u | 0 <= u < |s'.threads| ensures LookInv(s', s'.threads[u]) && ReleaseInv(s', s'.threads[u]) {
      if u != t { PushKeepsCopies(s, p.node, p.n, s', s.threads[u]); }
    }
  }

  // ---- every step

  lemma LoadTopStep(s: State, t: nat)
    requires Inv(s) && t < |s.threads| && s.threads[t] == AllocLoad
    ensures Inv(LoadTop(s, t))
  {
    LoadTopLooks(s, t);
    QuietStep(s, LoadTop(s, t), t);
  }

  lemma LoadTopLooks(s: State, t: nat)
    requires Inv(s) && t < |s.threads| && s.threads[t] == AllocLoad
    ensures LookInv(s, LoadTop(s, t).threads[t]) && ReleaseInv(s, LoadTop(s, t).threads[t])
  {
  }

  predicate Copies(p: Pc) {
    p.AllocNext? || p.AllocTop? || p.AllocMade? || p.RelLoad? || p.RelRead? || p.RelCount?
  }

  lemma CopyIsQuiet(s: State, t: nat, made: nat, s': State)
    requires Can(s, Run(t, made)) && s' == Step(s, t, made)
    requires Copies(s.threads[t])
    ensures OnlyThread(s, s', t) && s'.held == s.held && SameOwner(s.threads[t], s'.threads[t])
  {
  }

  lemma CopyStep(s: State, t: nat, made: nat)
    requires Inv(s) && Can(s, Run(t, made))
    requires Copies(s.threads[t])
    ensures Inv(Step(s, t, made))
  {
    CopyLooks(s, t, made);
    CopyIsQuiet(s, t, made, Step(s, t, made));
    QuietStep(s, Step(s, t, made), t);
  }

  lemma CopyLooks(s: State, t: nat, made: nat)
    requires Inv(s) && Can(s, Run(t, made))
    requires Copies(s.threads[t])
    ensures LookInv(s, Step(s, t, made).threads[t]) && ReleaseInv(s, Step(s, t, made).threads[t])
  {
    assert LookInv(s, s.threads[t]) && ReleaseInv(s, s.threads[t]);
  }

  lemma RetryStep(s: State, t: nat)
    requires Inv(s) && t < |s.threads| && (s.threads[t].AllocCas? || s.threads[t].RelCas?)
    requires s.top.Val() != s.threads[t].seen.Val()
    ensures Inv(if s.threads[t].AllocCas? then PopCas(s, t, s.threads[t]) else PushCas(s, t, s.threads[t]))
  {
    assert LookInv(s, s.threads[t]) && ReleaseInv(s, s.threads[t]);
    QuietStep(s, if s.threads[t].AllocCas? then PopCas(s, t, s.threads[t]) else PushCas(s, t, s.threads[t]), t);
  }

  lemma CountWraps(n: nat)
    ensures (n % SEQ + 1) % SEQ == (n + 1) % SEQ
  {
  }

  lemma TicketStep(s: State, t: nat, node: nat)
    requires Inv(s) && t < |s.threads| && s.threads[t] == RelTicket(node)
    ensures Inv(TakeTicket(s, t, node))
  {
    var s' := TakeTicket(s, t, node);
    assert ReleaseInv(s, s.threads[t]) && Owns(s.threads[t], node);
    CountWraps(s.issued);
    WritesKeepMemory(s, s', t, node);
    WriteStep(s, s', t, node);
  }

  lemma LinkStep(s: State, t: nat, made: nat)
    requires Inv(s) && Can(s, Run(t, made)) && (s.threads[t].RelLink? || s.threads[t].RelTag?)
    ensures Inv(Step(s, t, made))
  {
    var s' := Step(s, t, made);
    var node := s.threads[t].node;
    assert ReleaseInv(s, s.threads[t]) && Owns(s.threads[t], node);
    WritesKeepMemory(s, s', t, node);
    WriteStep(s, s', t, node);
  }

  lemma HandStep(s: State, x: Action)
    requires Inv(s) && Can(s, x)
    requires x.CallAlloc? || x.CallRelease? || (x.Run? && (s.threads[x.t].AllocCount? || s.threads[x.t].Idle?))
    ensures Inv(Do(s, x))
  {
    var s' := Do(s, x);
    var p := s.threads[x.t];
    if x.CallAlloc? || (x.Run? && p.Idle?) {
      QuietStep(s, s', x.t);
    } else if x.CallRelease? {
      OwnersTake(s, s', x.t, x.node);
      CopiesStay(s, s', x.t);
    } else {
      OwnersGive(s, s', x.t, p.node);
      CopiesStay(s, s', x.t);
    }
  }

  lemma RunStep(s: State, t: nat, made: nat, s': State)
    requires Inv(s) && Can(s, Run(t, made)) && Timely(s, Run(t, made), TAGS) && s' == Step(s, t, made)
    ensures Inv(s')
  {
    match s.threads[t]
    case Idle => HandStep(s, Run(t, made));
    case AllocCount(_) => HandStep(s, Run(t, made));
    case AllocLoad => LoadTopStep(s, t);
    case AllocMake => MakeStep(s, t, made);
    case AllocCas(_, _, _, _) =>
      if s.top.Val() == s.threads[t].seen.Val() { PopStep(s, t); } else { RetryStep(s, t); }
    case RelTicket(node) => TicketStep(s, t, node);
    case RelLink(_, _, _) => LinkStep(s, t, made);
    case RelTag(_, _, _) => LinkStep(s, t, made);
    case RelCas(_, _, _, _) =>
      if s.top.Val() == s.threads[t].seen.Val() { PushStep(s, t); } else { RetryStep(s, t); }
    case AllocNext(_, _) => CopyStep(s, t, made);
    case AllocTop(_, _, _) => CopyStep(s, t, made);
    case AllocMade(_) => CopyStep(s, t, made);
    case RelLoad(_, _) => CopyStep(s, t, made);
    case RelRead(_, _, _) => CopyStep(s, t, made);
    case RelCount => CopyStep(s, t, made);
  }

  /** Every step keeps the invariant if no winning Alloc CAS was overtaken by 2^17 tickets. */
  lemma StepKeepsInv(s: State, x: Action)
    requires Inv(s) && Can(s, x) && Timely(s, x, TAGS)
    ensures Inv(Do(s, x))
  {
    if x.Run? { RunStep(s, x.t, x.made, Do(s, x)); } else { HandStep(s, x); }
  }
}
