/** The whole server: its slots, the index stack, the accept thread, and every activity in flight. */
module Server {
  import opened SessionStep

  /** A message carried by a delivery, or an activity that carries none. */
  datatype Load = NoMsg | Msg(m: nat)

  /** One activity. `given` and `freed` record that a delivery's message left the call's hands, and how
      often this delivery's share of it was released to the pool. */
  datatype Act = Act(slot: nat, pc: Pc, id: nat, load: Load, given: bool, freed: nat)

  /** The accept thread, from `m_SessionIdxStack.Pop` to `m_ioCount = 1`. */
  datatype Accept = Waiting | Opening(idx: nat) | Flagging(idx: nat) | Naming(idx: nat) | Counting(idx: nat)

  datatype State = State(
    slots: seq<Slot>,
    acts: seq<Act>,
    free: seq<nat>,          // m_SessionIdxStack, top first
    accept: Accept,
    sessionCount: int,       // m_SessionCount
    issued: seq<nat>,        // every session ID built so far, in order
    uses: map<nat, int>)     // iUseCnt of every message handed to Unicast or BroadCast

  const NEWSLOT := Slot(0, 0, false, false, [], [], Parked, false, false, false, [], [], [], 0, 0, 0)

  /** Start: every index is pushed, nothing runs. */
  ghost predicate Init(s: State) {
    && (forall i :: 0 <= i < |s.slots| ==> s.slots[i] == NEWSLOT)
    && s.acts == [] && s.accept == Waiting && s.sessionCount == 0 && s.issued == [] && s.uses == map[]
    && |s.free| == |s.slots| && (forall k :: 0 <= k < |s.free| ==> s.free[k] == |s.slots| - 1 - k)
  }

  datatype Action =
    | Move(a: nat, c: Choice)                // one atomic action of activity `a`
    | AcceptMove                             // one atomic action of the accept thread
    | Send(ids: seq<nat>, m: nat)            // Unicast (one ID) or BroadCast of message `m`
    | Disconnect(id: nat)

  /** The session IDs a caller may pass: their index names a slot that has been accepted before. */
  predicate Known(s: State, id: nat) {
    id / BIT47 < |s.slots| && s.slots[id / BIT47].accepts > 0
  }

  predicate Can(s: State, x: Action) {
    match x
    case Move(a, _) => a < |s.acts| && s.acts[a].slot < |s.slots|
    case AcceptMove => s.accept.Waiting? || s.accept.idx < |s.slots|
    case Send(ids, m) => m !in s.uses && forall k :: 0 <= k < |ids| ==> Known(s, ids[k])
    case Disconnect(id) => Known(s, id)
  }

  // ---- one activity moves

  function Moved(act: Act, e: Effect): Act {
    act.(pc := e.pc, given := act.given || (act.load.Msg? && (act.pc.Push? || act.pc.RejectMsg?)))
  }

  function Spawned(act: Act, e: Effect): seq<Act> {
    if e.spawn.Spawn? then [Act(act.slot, e.spawn.pc, act.id, NoMsg, false, 0)] else []
  }

  /** `stTlsObjectPool<CMessage>::Release` on the share of delivery `d`. */
  function FreeOne(acts: seq<Act>, d: nat): seq<Act>
    requires d < |acts|
  {
    acts[d := acts[d].(freed := acts[d].freed + 1)]
  }

  /** The activities after `e` happened to number `a`. */
  function Applied(acts: seq<Act>, a: nat, e: Effect): seq<Act>
    requires a < |acts|
  {
    var acts' := acts[a := Moved(acts[a], e)] + Spawned(acts[a], e);
    if e.freed.Freed? && e.freed.delivery < |acts| then FreeOne(acts', e.freed.delivery) else acts'
  }

  function UsesAfter(uses: map<nat, int>, acts: seq<Act>, e: Effect): map<nat, int> {
    if e.freed.Freed? && e.freed.delivery < |acts| && acts[e.freed.delivery].load.Msg?
       && acts[e.freed.delivery].load.m in uses
    then
      var m := acts[e.freed.delivery].load.m;
      uses[m := uses[m] - 1]
    else uses
  }

  function EffectOf(s: State, a: nat, c: Choice): Effect
    requires Can(s, Move(a, c))
  {
    Step(s.slots[s.acts[a].slot], a, s.acts[a].id, s.acts[a].pc, c)
  }

  function DoMove(s: State, a: nat, c: Choice): State
    requires Can(s, Move(a, c))
  {
    var act := s.acts[a];
    var sl := s.slots[act.slot];
    var e := EffectOf(s, a, c);
    s.(slots := s.slots[act.slot := e.slot],
       acts := Applied(s.acts, a, e),
       uses := UsesAfter(s.uses, s.acts, e),
       free := if act.pc.RelPush? then [sl.seqID / BIT47] + s.free else s.free,
       sessionCount := s.sessionCount + Pending(act.pc))
  }

  // ---- the accept thread moves

  /** `(idx << 47) + session_id++`. */
  function NewId(s: State, idx: nat): nat { (idx * BIT47 + |s.issued|) % WORD }

  function DoAccept(s: State): State
    requires Can(s, AcceptMove)
  {
    match s.accept
    case Waiting =>
      if s.free == [] || s.free[0] >= |s.slots| then s
      else
        var i := s.free[0];
        s.(free := s.free[1..], accept := Opening(i), slots := s.slots[i := s.slots[i].(stage := Taken)])
    case Opening(i) =>
      s.(accept := Flagging(i), slots := s.slots[i := s.slots[i].(live := true)])
    case Flagging(i) =>
      s.(accept := Naming(i), slots := s.slots[i := s.slots[i].(sendFlag := false, orphan := false)])
    case Naming(i) =>
      s.(accept := Counting(i), slots := s.slots[i := s.slots[i].(seqID := NewId(s, i))],
         issued := s.issued + [NewId(s, i)])
    case Counting(i) =>
      var sl := s.slots[i].(ioCount := 1, stage := Open, accepts := s.slots[i].accepts + 1, unsent := false,
                            staleZero := false, pushed := [], popped := [], handed := []);
      s.(accept := Waiting, slots := s.slots[i := sl],
         acts := s.acts + [Act(i, AcceptCount, s.slots[i].seqID, NoMsg, false, 0)])
  }

  // ---- a caller starts

  function Deliveries(ids: seq<nat>, m: nat): (acts: seq<Act>)
    ensures |acts| == |ids|
    ensures forall k :: 0 <= k < |ids| ==> acts[k] == Act(ids[k] / BIT47, LockInc, ids[k], Msg(m), false, 0)
  {
    if ids == [] then []
    else
      var n := |ids| - 1;
      Deliveries(ids[..n], m) + [Act(ids[n] / BIT47, LockInc, ids[n], Msg(m), false, 0)]
  }

  function Do(s: State, x: Action): State
    requires Can(s, x)
  {
    match x
    case Move(a, c) => DoMove(s, a, c)
    case AcceptMove => DoAccept(s)
    case Send(ids, m) => s.(acts := s.acts + Deliveries(ids, m), uses := s.uses[m := |ids|])
    case Disconnect(id) => s.(acts := s.acts + [Act(id / BIT47, DiscInc, id, NoMsg, false, 0)])
  }

  /** The widths the code relies on: indices fit 17 bits, the accept counter and the counts fit 47. */
  predicate Fits(s: State) {
    |s.slots| <= 0x2_0000 && |s.issued| < BIT47 && |s.acts| < LIMIT
  }

  // ---- sums over activities

  function Total(i: nat, acts: seq<Act>): Sums {
    if acts == [] then ZERO
    else
      var n := |acts| - 1;
      if acts[n].slot == i then Plus(Total(i, acts[..n]), acts[n].pc) else Total(i, acts[..n])
  }

  /** An accept before its increment of `m_SessionCount`, or a release before its decrement. */
  function Pending(p: Pc): int { if p.AcceptCount? then 1 else if p.RelCount? then -1 else 0 }

  function Window(acts: seq<Act>): int {
    if acts == [] then 0
    else
      var n := |acts| - 1;
      Window(acts[..n]) + Pending(acts[n].pc)
  }

  /** How many shares of message `m` are not released yet. */
  function Shares(m: nat, acts: seq<Act>): int {
    if acts == [] then 0
    else
      var n := |acts| - 1;
      Shares(m, acts[..n]) + (if acts[n].load == Msg(m) then 1 - acts[n].freed else 0)
  }

  /** The activities without number `a`. */
  function Without(acts: seq<Act>, a: nat): seq<Act>
    requires a < |acts|
  {
    acts[..a] + acts[a + 1..]
  }

  lemma {:induction false} TotalCoherent(i: nat, acts: seq<Act>)
    ensures Coherent(Total(i, acts), |acts|)
  {
    if acts != [] { TotalCoherent(i, acts[..|acts| - 1]); }
  }

  lemma {:induction false} TotalSplit(i: nat, acts: seq<Act>, a: nat)
    requires a < |acts|
    ensures Total(i, acts) == if acts[a].slot == i then Plus(Total(i, Without(acts, a)), acts[a].pc)
                              else Total(i, Without(acts, a))
  {
    var n := |acts| - 1;
    if a < n {
      TotalSplit(i, acts[..n], a);
      assert Without(acts, a)[..n - 1] == Without(acts[..n], a);
    } else {
      assert Without(acts, a) == acts[..n];
    }
  }

  lemma {:induction false} WindowSplit(acts: seq<Act>, a: nat)
    requires a < |acts|
    ensures Window(acts) == Window(Without(acts, a)) + Pending(acts[a].pc)
  {
    var n := |acts| - 1;
    if a < n {
      WindowSplit(acts[..n], a);
      assert Without(acts, a)[..n - 1] == Without(acts[..n], a);
    } else {
      assert Without(acts, a) == acts[..n];
    }
  }

  lemma {:induction false} SharesSplit(m: nat, acts: seq<Act>, a: nat)
    requires a < |acts|
    ensures Shares(m, acts) == Shares(m, Without(acts, a)) + (if acts[a].load == Msg(m) then 1 - acts[a].freed else 0)
  {
    var n := |acts| - 1;
    if a < n {
      SharesSplit(m, acts[..n], a);
      assert Without(acts, a)[..n - 1] == Without(acts[..n], a);
    } else {
      assert Without(acts, a) == acts[..n];
    }
  }
}
