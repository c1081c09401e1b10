/** One session slot of the IOCP server and everything that can happen to it.

    A slot is shared by the accept thread, the workers and any number of caller threads. Every
    activity on a slot (a running call, or an operation the operating system still owes a completion
    for) is a program counter `Pc`. `Step` performs the next atomic action of one activity: one
    Interlocked call, one plain read or write of a shared field, one queue operation, or one post. */
module SessionStep {

  /** `(ull)1 << 47`: the "released" bit of `m_ioCount`, and the place of the index in `m_SeqID`. */
  const BIT47: nat := 0x8000_0000_0000

  /** `m_ioCount` is a 64-bit word. */
  const WORD: nat := 0x1_0000_0000_0000_0000

  /** `msgs[500]` of the send overlapped. */
  const BATCH: nat := 500

  /** Bit 47 of the count. */
  predicate Flagged(count: nat) {
    if count < 2 * BIT47 then BIT47 <= count else Flagged(count - 2 * BIT47)
  }

  /** InterlockedIncrement and InterlockedDecrement, with the wrap-around of the word. */
  function Inc(count: nat): nat { if count == WORD - 1 then 0 else count + 1 }

  function Dec(count: nat): nat { if count == 0 then WORD - 1 else count - 1 }

  lemma TwoHalves(n: nat)
    requires n >= 0x1_0000_0000_0000
    ensures n / 0x8000_0000_0000 == (n - 0x1_0000_0000_0000) / 0x8000_0000_0000 + 2
  {
  }

  /** The flag is bit 47. */
  lemma {:induction false} FlagIsBit47(n: nat)
    ensures Flagged(n) <==> (n / 0x8000_0000_0000) % 2 == 1
  {
    if n >= 0x1_0000_0000_0000 {
      FlagIsBit47(n - 0x1_0000_0000_0000);
      TwoHalves(n);
    }
  }

  /** The count is a 64-bit word. */
  lemma CountsWrap(n: nat)
    requires n < 0x1_0000_0000_0000_0000
    ensures Inc(n) == (n + 1) % 0x1_0000_0000_0000_0000
    ensures Dec(n) == (n + 0xFFFF_FFFF_FFFF_FFFF) % 0x1_0000_0000_0000_0000
    ensures Dec(Inc(n)) == n
  {
  }

  /** Where the slot's index is: on the index stack, in the accept thread's hand, in a connection whose
      count has no released bit, or in a connection being torn down. Written for the proofs only. */
  datatype Stage = Parked | Taken | Open | Closed

  /** The shared fields of `clsSession`, then history the code does not have. Messages are named by the
      delivery that pushed them. `batch` holds the entries of `msgs[]` not yet given back to the pool. */
  datatype Slot = Slot(
    ioCount: nat,
    seqID: nat,
    live: bool,
    sendFlag: bool,
    queue: seq<nat>,
    batch: seq<nat>,
    stage: Stage,
    orphan: bool,          // the send flag is up but its holder left because the session was dead
    unsent: bool,           // `batch` was popped but not yet handed to WSASend
    staleZero: bool,       // the count last reached zero in Disconnect's mismatched-ID branch
    pushed: seq<nat>,      // pushed to the queue in this generation
    popped: seq<nat>,      // popped by SendComplete in this generation
    handed: seq<nat>,      // handed to WSASend in this generation
    accepts: nat,
    posts: nat,
    returned: nat)

  /** What a call does once it is through with the reference count. */
  datatype Then = Finish | Reject

  datatype Pc =
    // SessionLock, the push, and SessionUnLock of Unicast and BroadCast
    | LockInc
    | LockCheck(one: bool)
    | Push
    | ClaimFlag
    | PostInc
    | PostSend
    | CheckLimit
    | Unlock
    | RejectMsg
    // Disconnect
    | DiscInc
    | DiscCheck
    | DiscKill
    | StaleDrop
    // giving up a reference, the release CAS, and ReleaseSession
    | DropRef(next: Then, always: bool)
    | TryRelease(next: Then)
    | PostRelease(next: Then)
    // the accept thread after m_ioCount = 1
    | AcceptCount
    | Accepted
    // an outstanding receive, RecvComplete and RecvPacket
    | RecvPending
    | RecvFin
    | RecvBody
    | RecvKill
    | RecvPost
    | RecvInc
    | RecvCall
    | RecvErr
    | RecvErrDec
    // a posted send, an outstanding WSASend, and SendComplete
    | SendPosted
    | SendInFlight
    | SendFree
    | SendSize
    | SendDrop
    | SendRecheck
    | SendRegain
    | SendRepostInc
    | SendRepost
    | SendCollect
    | SendLive
    | SendInc
    | SendCall
    | SendErr
    | SendErrDec
    // a posted release and ReleaseComplete
    | ReleasePosted
    | RelQueue
    | RelBatch
    | RelPush
    | RelCount
    | Done

  /** What the callbacks, the operating system and the send limit decide. */
  datatype Choice = First | Second | Third

  datatype Spawn = Nothing | Spawn(pc: Pc)

  datatype Freed = None | Freed(delivery: nat)

  /** The outcome of one atomic action. */
  datatype Effect = Effect(slot: Slot, pc: Pc, spawn: Spawn, freed: Freed)

  function After(next: Then): Pc { if next == Finish then Done else RejectMsg }

  function To(sl: Slot, p: Pc): Effect { Effect(sl, p, Nothing, None) }

  /** No activity renames a slot or accepts a connection. */
  predicate SameOwner(sl: Slot, sl': Slot) { sl'.seqID == sl.seqID && sl'.accepts == sl.accepts }

  predicate SameMessages(sl: Slot, sl': Slot) { sl'.queue == sl.queue && sl'.batch == sl.batch }

  /** The actions that move messages into or out of a slot. */
  predicate Handles(p: Pc) { p.Push? || p.SendFree? || p.SendCollect? || p.RelQueue? || p.RelBatch? }

  predicate LockPc(p: Pc) {
    p.LockInc? || p.LockCheck? || p.RejectMsg? || p.DiscInc? || p.DiscCheck? || p.DiscKill?
  }

  /** SessionLock up to its answer, the release of a rejected message, and Disconnect up to its decrement. */
  function LockStep(sl: Slot, me: nat, id: nat, p: Pc, c: Choice): (e: Effect)
    requires LockPc(p)
    ensures SameOwner(sl, e.slot)
    ensures e.slot.pushed == sl.pushed
    ensures SameMessages(sl, e.slot) && e.freed == if p.RejectMsg? then Freed(me) else None
  {
    match p
    case LockInc =>
      var v := Inc(sl.ioCount);
      To(sl.(ioCount := v), if Flagged(v) then RejectMsg else LockCheck(v == 1))
    case LockCheck(one) =>
      To(sl, if sl.seqID != id || one then DropRef(Reject, true) else Push)
    case RejectMsg => Effect(sl, Done, Nothing, Freed(me))
    case DiscInc =>
      var v := Inc(sl.ioCount);
      To(sl.(ioCount := v), if Flagged(v) then Done else DiscCheck)
    case DiscCheck => To(sl, if sl.seqID != id then StaleDrop else DiscKill)
    case DiscKill => To(sl.(live := false), DropRef(Finish, true))
  }

  predicate DropPc(p: Pc) {
    p.StaleDrop? || p.DropRef? || p.TryRelease? || p.PostRelease?
  }

  /** Giving up a reference: the decrement, the release CAS, and ReleaseSession. */
  function DropStep(sl: Slot, me: nat, id: nat, p: Pc, c: Choice): (e: Effect)
    requires DropPc(p)
    ensures SameOwner(sl, e.slot)
    ensures e.slot.pushed == sl.pushed
    ensures SameMessages(sl, e.slot) && e.freed == None
  {
    match p
    case StaleDrop =>
      var v := Dec(sl.ioCount);
      To(sl.(ioCount := v, staleZero := v == 0), Done)
    case DropRef(next, always) =>
      var v := Dec(sl.ioCount);
      To(sl.(ioCount := v, staleZero := false),
         if always || v == 0 then TryRelease(next) else After(next))
    case TryRelease(next) =>
      if sl.ioCount == 0
      then To(sl.(ioCount := BIT47, stage := Closed), PostRelease(next))
      else To(sl, After(next))
    case PostRelease(next) =>
      Effect(sl.(posts := sl.posts + 1), After(next), Spawn(ReleasePosted), None)
  }

  predicate PushPc(p: Pc) {
    p.Push? || p.ClaimFlag? || p.PostInc? || p.PostSend? || p.CheckLimit? || p.Unlock?
  }

  /** Unicast, or one target of BroadCast, once SessionLock has returned true; then SessionUnLock. */
  function PushStep(sl: Slot, me: nat, id: nat, p: Pc, c: Choice): (e: Effect)
    requires PushPc(p)
    ensures SameOwner(sl, e.slot)
    ensures e.slot.pushed == if p.Push? then sl.pushed + [me] else sl.pushed
    ensures !Handles(p) ==> SameMessages(sl, e.slot) && e.freed == None
  {
    match p
    case Push =>
      To(sl.(queue := sl.queue + [me], pushed := sl.pushed + [me]), ClaimFlag)
    case ClaimFlag =>
      if sl.sendFlag then To(sl, CheckLimit) else To(sl.(sendFlag := true), PostInc)
    case PostInc => To(sl.(ioCount := Inc(sl.ioCount)), PostSend)
    case PostSend => Effect(sl, CheckLimit, Spawn(SendPosted), None)
    case CheckLimit =>
      if c == First then To(sl, Unlock) else Effect(sl, Unlock, Spawn(DiscInc), None)
    case Unlock =>
      To(sl.(ioCount := Dec(sl.ioCount), staleZero := false), TryRelease(Finish))
  }

  predicate RecvPc(p: Pc) {
    p.AcceptCount? || p.Accepted? || p.RecvPending? || p.RecvFin? || p.RecvBody? || p.RecvKill? || p.RecvPost?
    || p.RecvInc? || p.RecvCall? || p.RecvErr? || p.RecvErrDec?
  }

  /** The accept thread after `m_ioCount = 1`; an outstanding receive; RecvComplete, RecvPacket, WSARecvError. */
  function RecvStep(sl: Slot, me: nat, id: nat, p: Pc, c: Choice): (e: Effect)
    requires RecvPc(p)
    ensures SameOwner(sl, e.slot)
    ensures e.slot.pushed == sl.pushed
    ensures SameMessages(sl, e.slot) && e.freed == None
  {
    match p
    case AcceptCount => To(sl, Accepted)
    case Accepted => To(sl, if c == First then RecvPost else DropRef(Finish, false))
    case RecvPending => To(sl, if c == First then RecvBody else RecvFin)
    case RecvFin => To(sl.(live := false), RecvBody)
    case RecvBody =>
      To(sl, match c case First => RecvPost case Second => RecvKill case Third => DropRef(Finish, false))
    case RecvKill => To(sl.(live := false), DropRef(Finish, false))
    case RecvPost =>
      To(sl, if c != First then RecvKill else if sl.live then RecvInc else DropRef(Finish, false))
    case RecvInc => To(sl.(ioCount := Inc(sl.ioCount)), RecvCall)
    case RecvCall =>
      if c == First then Effect(sl, DropRef(Finish, false), Spawn(RecvPending), None) else To(sl, RecvErr)
    case RecvErr => To(sl.(live := false), RecvErrDec)
    case RecvErrDec => To(sl.(ioCount := Dec(sl.ioCount)), DropRef(Finish, false))
  }

  predicate SendPc(p: Pc) {
    p.SendPosted? || p.SendInFlight? || p.SendFree? || p.SendSize? || p.SendDrop? || p.SendRecheck?
    || p.SendRegain? || p.SendRepostInc? || p.SendRepost?
  }

  /** A posted or outstanding send; SendComplete up to the choice between dropping the flag and sending. */
  function SendStep(sl: Slot, me: nat, id: nat, p: Pc, c: Choice): (e: Effect)
    requires SendPc(p)
    ensures SameOwner(sl, e.slot)
    ensures e.slot.pushed == sl.pushed
    ensures !Handles(p) ==> SameMessages(sl, e.slot) && e.freed == None
  {
    match p
    case SendPosted => To(sl, SendFree)
    case SendInFlight => To(sl, SendFree)
    case SendFree =>
      if sl.batch == [] then To(sl, SendSize)
      else Effect(sl.(batch := sl.batch[1..]), SendFree, Nothing, Freed(sl.batch[0]))
    case SendSize =>
      if sl.queue == [] then To(sl, SendDrop) else To(sl.(unsent := true), SendCollect)
    case SendDrop =>
      if sl.sendFlag then To(sl.(sendFlag := false), SendRecheck) else To(sl, DropRef(Finish, false))
    case SendRecheck => To(sl, if sl.queue == [] then DropRef(Finish, false) else SendRegain)
    case SendRegain =>
      if sl.sendFlag then To(sl, DropRef(Finish, false)) else To(sl.(sendFlag := true), SendRepostInc)
    case SendRepostInc => To(sl.(ioCount := Inc(sl.ioCount)), SendRepost)
    case SendRepost => Effect(sl, DropRef(Finish, false), Spawn(SendPosted), None)
  }

  predicate BatchPc(p: Pc) {
    p.SendCollect? || p.SendLive? || p.SendInc? || p.SendCall? || p.SendErr? || p.SendErrDec?
  }

  /** SendComplete when the queue was not empty: the pop loop, WSASend, WSASendError. */
  function BatchStep(sl: Slot, me: nat, id: nat, p: Pc, c: Choice): (e: Effect)
    requires BatchPc(p)
    ensures SameOwner(sl, e.slot)
    ensures e.slot.pushed == sl.pushed
    ensures !Handles(p) ==> SameMessages(sl, e.slot) && e.freed == None
  {
    match p
    case SendCollect =>
      if sl.queue == [] then To(sl, SendLive)
      else
        To(sl.(queue := sl.queue[1..], batch := sl.batch + [sl.queue[0]], popped := sl.popped + [sl.queue[0]]),
           if |sl.batch| + 1 == BATCH then SendLive else SendCollect)
    case SendLive =>
      if sl.live then To(sl, SendInc) else To(sl.(orphan := true), DropRef(Finish, false))
    case SendInc => To(sl.(ioCount := Inc(sl.ioCount)), SendCall)
    case SendCall =>
      var sl' := sl.(handed := sl.handed + sl.batch, unsent := false);
      if c == First then Effect(sl', DropRef(Finish, false), Spawn(SendInFlight), None) else To(sl', SendErr)
    case SendErr => To(sl.(live := false, orphan := true), SendErrDec)
    case SendErrDec => To(sl.(ioCount := Dec(sl.ioCount)), DropRef(Finish, false))
  }

  predicate TeardownPc(p: Pc) {
    p.ReleasePosted? || p.RelQueue? || p.RelBatch? || p.RelPush? || p.RelCount? || p.Done?
  }

  /** A posted release: ReleaseComplete with clsSession::Release. */
  function TeardownStep(sl: Slot, me: nat, id: nat, p: Pc, c: Choice): (e: Effect)
    requires TeardownPc(p)
    ensures SameOwner(sl, e.slot)
    ensures e.slot.pushed == sl.pushed
    ensures !Handles(p) ==> SameMessages(sl, e.slot) && e.freed == None
  {
    match p
    case ReleasePosted => To(sl, RelQueue)
    case RelQueue =>
      if sl.queue == [] then To(sl, RelBatch)
      else Effect(sl.(queue := sl.queue[1..]), RelQueue, Nothing, Freed(sl.queue[0]))
    case RelBatch =>
      if sl.batch == [] then To(sl, RelPush)
      else Effect(sl.(batch := sl.batch[1..]), RelBatch, Nothing, Freed(sl.batch[0]))
    case RelPush => To(sl.(stage := Parked, returned := sl.returned + 1), RelCount)
    case RelCount => To(sl, Done)
    case Done => To(sl, Done)
  }

  /** The next atomic action of activity number `me`, which was called with session ID `id`. */
  function Step(sl: Slot, me: nat, id: nat, p: Pc, c: Choice): Effect {
    if LockPc(p) then LockStep(sl, me, id, p, c)
    else if DropPc(p) then DropStep(sl, me, id, p, c)
    else if PushPc(p) then PushStep(sl, me, id, p, c)
    else if RecvPc(p) then RecvStep(sl, me, id, p, c)
    else if SendPc(p) then SendStep(sl, me, id, p, c)
    else if BatchPc(p) then BatchStep(sl, me, id, p, c)
    else TeardownStep(sl, me, id, p, c)
  }

  /** What the activities on a slot hold, added up. */
  datatype Sums = Sums(
    refs: nat,      // references counted in m_ioCount
    token: nat,     // holders of the send flag
    wake: nat,      // activities that will still look at the flag after seeing a message
    due: nat,       // activities about to attempt the release CAS
    chain: nat,     // activities between a won release CAS and the index push
    posted: nat,    // those of `chain` whose release is posted
    unsent: nat,     // send-flag holders with a batch not yet handed to WSASend
    filling: nat,   // those of `unsent` still popping the queue
    clean: nat,     // send-flag holders that have emptied the previous batch
    drained: nat,   // release handlers that have emptied the queue
    empty: nat,     // release handlers that have emptied queue and batch
    reader: nat,    // owners of the receive buffer
    spent: nat)     // finished calls, each of which raised a flagged count at most once

  const ZERO := Sums(0, 0, 0, 0, 0, 0, 0, 0, 0, 0, 0, 0, 0)

  function Refs(p: Pc): nat {
    if p.PostSend? || p.RecvCall? || p.RecvErr? || p.RecvErrDec? || p.SendRepost? || p.SendCall? || p.SendErr?
       || p.SendErrDec? then 2
    else if p.LockCheck? || p.Push? || p.ClaimFlag? || p.PostInc? || p.CheckLimit? || p.Unlock? || p.DiscCheck?
            || p.DiscKill? || p.StaleDrop? || p.DropRef? || Reader(p) == 1 || Token(p) == 1 || Wake(p) == 1 then 1
    else 0
  }

  function Token(p: Pc): nat {
    if p.PostInc? || p.PostSend? || p.SendPosted? || p.SendInFlight? || p.SendFree? || p.SendRepostInc?
       || p.SendRepost? || p.SendErr? || Unsent(p) == 1 || Clean(p) == 1 then 1 else 0
  }

  function Wake(p: Pc): nat { if p.ClaimFlag? || p.SendRecheck? || p.SendRegain? then 1 else 0 }

  function Due(p: Pc): nat { if p.TryRelease? then 1 else 0 }

  function Chain(p: Pc): nat { if p.PostRelease? || Posted(p) == 1 then 1 else 0 }

  function Posted(p: Pc): nat { if p.ReleasePosted? || p.RelQueue? || Drained(p) == 1 then 1 else 0 }

  function Unsent(p: Pc): nat { if p.SendCollect? || p.SendLive? || p.SendInc? || p.SendCall? then 1 else 0 }

  function Filling(p: Pc): nat { if p.SendCollect? then 1 else 0 }

  function Clean(p: Pc): nat { if p.SendSize? || p.SendDrop? then 1 else 0 }

  function Drained(p: Pc): nat { if p.RelBatch? || p.RelPush? then 1 else 0 }

  function Empty(p: Pc): nat { if p.RelPush? then 1 else 0 }

  function Reader(p: Pc): nat {
    if p.AcceptCount? || p.Accepted? || p.RecvPending? || p.RecvFin? || p.RecvBody? || p.RecvKill? || p.RecvPost?
       || p.RecvInc? || p.RecvCall? || p.RecvErr? || p.RecvErrDec? then 1 else 0
  }

  function Spent(p: Pc): nat { if p.RejectMsg? || p.Done? then 1 else 0 }

  /** The sums with one more activity. */
  function Plus(t: Sums, p: Pc): Sums {
    Sums(t.refs + Refs(p), t.token + Token(p), t.wake + Wake(p), t.due + Due(p), t.chain + Chain(p),
         t.posted + Posted(p), t.unsent + Unsent(p), t.filling + Filling(p), t.clean + Clean(p), t.drained + Drained(p),
         t.empty + Empty(p), t.reader + Reader(p), t.spent + Spent(p))
  }

  function PlusSpawn(t: Sums, q: Spawn): Sums { if q.Spawn? then Plus(t, q.pc) else t }

  /** True of the sums of any set of at most `n` activities. */
  ghost predicate Coherent(t: Sums, n: nat) {
    && t.token <= t.refs && t.wake <= t.refs && t.reader <= t.refs
    && t.filling <= t.unsent <= t.token && t.clean <= t.token
    && t.empty <= t.drained <= t.posted <= t.chain
    && t.refs <= 2 * n && t.spent <= n
  }

  /** The slot invariant: what the fields of a slot say about the activities `t` around it. */
  ghost predicate SlotInv(sl: Slot, t: Sums) {
    && CountInv(sl, t)
    && FlagInv(sl, t)
    && QueueInv(sl, t)
    && ReleaseInv(sl, t)
  }

  /** The reference count, the released bit, and who is due to release. */
  ghost predicate CountInv(sl: Slot, t: Sums) {
    && (sl.stage == Open ==> sl.ioCount == t.refs)
    && (sl.stage != Open ==> t.refs == 0)
    && (sl.stage != Open && sl.accepts > 0 ==> BIT47 <= sl.ioCount <= BIT47 + t.spent)
    && (sl.stage == Open && sl.ioCount == 0 && t.due == 0 ==> sl.staleZero)
    && t.reader <= 1
  }

  /** The send flag, its holder, and the wake-up of a waiting queue. */
  ghost predicate FlagInv(sl: Slot, t: Sums) {
    && t.token + (if sl.orphan then 1 else 0) == (if sl.sendFlag then 1 else 0)
    && (sl.stage == Open && sl.orphan ==> !sl.live)
    && (sl.stage == Open && !sl.sendFlag && sl.queue != [] ==> t.wake >= 1)
  }

  /** The queue, the batch, and the order in which messages went through them. */
  ghost predicate QueueInv(sl: Slot, t: Sums) {
    && (sl.stage == Open && !sl.sendFlag ==> sl.batch == [] && !sl.unsent)
    && (sl.stage == Open && t.clean >= 1 ==> sl.batch == [])
    && (sl.stage == Open && !sl.orphan ==> t.unsent == (if sl.unsent then 1 else 0))
    && (sl.stage == Open ==> sl.pushed == sl.popped + sl.queue)
    && (sl.stage == Open ==> sl.popped == sl.handed + (if sl.unsent then sl.batch else []))
    && sl.handed <= sl.pushed
    && (sl.stage == Open && t.filling >= 1 ==> |sl.batch| < BATCH)
    && |sl.batch| <= BATCH
  }

  /** The release chain, and how often the slot was accepted, posted and returned. */
  ghost predicate ReleaseInv(sl: Slot, t: Sums) {
    && t.chain == (if sl.stage == Closed then 1 else 0)
    && sl.accepts == sl.returned + (if sl.stage == Open || sl.stage == Closed then 1 else 0)
    && sl.posts == sl.returned + t.posted
    && (t.drained >= 1 ==> sl.queue == [])
    && (t.empty >= 1 ==> sl.batch == [])
    && (sl.stage == Parked || sl.stage == Taken ==> sl.queue == [] && sl.batch == [])
  }

  /** The activities fit the width of `m_ioCount` below bit 47. */
  const LIMIT: nat := 0x3fff_ffff_fff0

  ghost predicate Before(sl: Slot, rest: Sums, n: nat, p: Pc) {
    sl.accepts > 0 && n < LIMIT && Coherent(rest, n) && SlotInv(sl, Plus(rest, p))
  }

  function Around(rest: Sums, e: Effect): Sums { Plus(PlusSpawn(rest, e.spawn), e.pc) }
}
