/** clsSession as the server updates it, in place: the atomic actions, part by part of the code, and the whole calls. */
module SessionObject {
  import opened ReceiveCalls
  import opened SessionCalls
  import opened SessionStep

  /** The writes of the accept thread to a session, in its order. */
  datatype Write = Take | GoLive | ClearFlag | Rename(id: nat) | Count

  function Written(sl: Slot, w: Write): Slot {
    match w
    case Take => sl.(stage := Taken)
    case GoLive => sl.(live := true)
    case ClearFlag => sl.(sendFlag := false, orphan := false)
    case Rename(id) => sl.(seqID := id)
    case Count => sl.(ioCount := 1, stage := Open, accepts := sl.accepts + 1, unsent := false, staleZero := false,
                      pushed := [], popped := [], handed := [])
  }

  class Session {
    var ioCount: nat
    var seqID: nat
    var live: bool
    var sendFlag: bool
    var queue: seq<nat>
    var batch: seq<nat>
    ghost var stage: Stage
    ghost var orphan: bool
    ghost var unsent: bool
    ghost var staleZero: bool
    ghost var pushed: seq<nat>
    ghost var popped: seq<nat>
    ghost var handed: seq<nat>
    ghost var accepts: nat
    ghost var posts: nat
    ghost var returned: nat

    /** The session's fields and their history, as a value. */
    ghost function Now(): Slot
      reads this
    {
      Slot(ioCount, seqID, live, sendFlag, queue, batch, stage, orphan, unsent, staleZero, pushed, popped, handed,
           accepts, posts, returned)
    }

    /** An index of the stack whose session was never accepted. */
    constructor ()
      ensures Now() == Slot(0, 0, false, false, [], [], Parked, false, false, false, [], [], [], 0, 0, 0)
    {
      ioCount, seqID, live, sendFlag, queue, batch := 0, 0, false, false, [], [];
      stage, orphan, unsent, staleZero := Parked, false, false, false;
      pushed, popped, handed, accepts, posts, returned := [], [], [], 0, 0, 0;
    }

    // ---- the interlocked calls

    method Increment() returns (v: nat)
      modifies this`ioCount
      ensures v == ioCount == Inc(old(ioCount))
    {
      ioCount := Inc(ioCount);
      v := ioCount;
    }

    method Decrement() returns (v: nat)
      modifies this`ioCount
      ensures v == ioCount == Dec(old(ioCount))
    {
      ioCount := Dec(ioCount);
      v := ioCount;
    }

    /** `InterlockedCompareExchange(&m_ioCount, 1 << 47, 0) == 0`. */
    method ClaimRelease() returns (won: bool)
      modifies this`ioCount
      ensures won == (old(ioCount) == 0)
      ensures ioCount == if won then BIT47 else old(ioCount)
    {
      won := ioCount == 0;
      if won { ioCount := BIT47; }
    }

    /** `InterlockedCompareExchange(&m_flag, 1, 0) == 0`. */
    method ClaimSend() returns (won: bool)
      modifies this`sendFlag
      ensures won == !old(sendFlag) && sendFlag
    {
      won := !sendFlag;
      sendFlag := true;
    }

    // ---- the parts of the code

    /** SessionLock, the release of a rejected message, and Disconnect up to its decrement. */
    method Lock(me: nat, id: nat, p: Pc, c: Choice) returns (pc: Pc, freed: Freed)
      requires LockPc(p)
      modifies this
      ensures Effect(Now(), pc, Nothing, freed) == LockStep(old(Now()), me, id, p, c)
    {
      freed := None;
      match p {
        case LockInc =>
          var v := Increment();
          if Flagged(v) { pc := RejectMsg; } else { pc := LockCheck(v == 1); }
        case LockCheck(one) =>
          if seqID != id || one { pc := DropRef(Reject, true); } else { pc := Push; }
        case RejectMsg =>
          pc, freed := Done, Freed(me);
        case DiscInc =>
          var v := Increment();
          if Flagged(v) { pc := Done; } else { pc := DiscCheck; }
        case DiscCheck =>
          if seqID != id { pc := StaleDrop; } else { pc := DiscKill; }
        case DiscKill =>
          live := false;
          pc := DropRef(Finish, true);
      }
    }

    /** Giving up a reference, the release CAS, and ReleaseSession. */
    method Drop(me: nat, id: nat, p: Pc, c: Choice) returns (pc: Pc, spawn: Spawn)
      requires DropPc(p)
      modifies this
      ensures Effect(Now(), pc, spawn, None) == DropStep(old(Now()), me, id, p, c)
    {
      spawn := Nothing;
      match p {
        case StaleDrop =>
          var v := Decrement();
          staleZero := v == 0;
          pc := Done;
        case DropRef(next, always) =>
          var v := Decrement();
          staleZero := false;
          if always || v == 0 { pc := TryRelease(next); } else { pc := After(next); }
        case TryRelease(next) =>
          var won := ClaimRelease();
          if won {
            stage := Closed;
            pc := PostRelease(next);
          } else {
            pc := After(next);
          }
        case PostRelease(next) =>
          posts := posts + 1;
          pc, spawn := After(next), Spawn(ReleasePosted);
      }
    }

    /** Unicast, or one target of BroadCast, behind SessionLock; then SessionUnLock. */
    method PushMessage(me: nat, id: nat, p: Pc, c: Choice) returns (pc: Pc, spawn: Spawn)
      requires PushPc(p)
      modifies this
      ensures Effect(Now(), pc, spawn, None) == PushStep(old(Now()), me, id, p, c)
    {
      spawn := Nothing;
      match p {
        case Push =>
          queue := queue + [me];
          pushed := pushed + [me];
          pc := ClaimFlag;
        case ClaimFlag =>
          var won := ClaimSend();
          if won { pc := PostInc; } else { pc := CheckLimit; }
        case PostInc =>
          var _ := Increment();
          pc := PostSend;
        case PostSend =>
          pc, spawn := CheckLimit, Spawn(SendPosted);
        case CheckLimit =>
          pc := Unlock;
          if c != First { spawn := Spawn(DiscInc); }
        case Unlock =>
          var _ := Decrement();
          staleZero := false;
          pc := TryRelease(Finish);
      }
    }

    /** The accept thread after `m_ioCount = 1`, an outstanding receive, RecvComplete, RecvPacket and WSARecvError. */
    method Receive(me: nat, id: nat, p: Pc, c: Choice) returns (pc: Pc, spawn: Spawn)
      requires RecvPc(p)
      modifies this
      ensures Effect(Now(), pc, spawn, None) == RecvStep(old(Now()), me, id, p, c)
    {
      spawn := Nothing;
      match p {
        case AcceptCount =>
          pc := Accepted;
        case Accepted =>
          if c == First { pc := RecvPost; } else { pc := DropRef(Finish, false); }
        case RecvPending =>
          if c == First { pc := RecvBody; } else { pc := RecvFin; }
        case RecvFin =>
          live := false;
          pc := RecvBody;
        case RecvBody =>
          match c {
            case First => pc := RecvPost;
            case Second => pc := RecvKill;
            case Third => pc := DropRef(Finish, false);
          }
        case RecvKill =>
          live := false;
          pc := DropRef(Finish, false);
        case RecvPost =>
          if c != First { pc := RecvKill; } else if live { pc := RecvInc; } else { pc := DropRef(Finish, false); }
        case RecvInc =>
          var _ := Increment();
          pc := RecvCall;
        case RecvCall =>
          if c == First { pc, spawn := DropRef(Finish, false), Spawn(RecvPending); } else { pc := RecvErr; }
        case RecvErr =>
          live := false;
          pc := RecvErrDec;
        case RecvErrDec =>
          var _ := Decrement();
          pc := DropRef(Finish, false);
      }
    }

    /** SendComplete: giving back the last batch, then dropping the flag and looking again, or going on to send. */
    method FinishSend(me: nat, id: nat, p: Pc, c: Choice) returns (pc: Pc, spawn: Spawn, freed: Freed)
      requires SendPc(p)
      modifies this
      ensures Effect(Now(), pc, spawn, freed) == SendStep(old(Now()), me, id, p, c)
    {
      spawn, freed := Nothing, None;
      match p {
        case SendPosted =>
          pc := SendFree;
        case SendInFlight =>
          pc := SendFree;
        case SendFree =>
          if batch == [] {
            pc := SendSize;
          } else {
            pc, freed := SendFree, Freed(batch[0]);
            batch := batch[1..];
          }
        case SendSize =>
          if queue == [] {
            pc := SendDrop;
          } else {
            unsent := true;
            pc := SendCollect;
          }
        case SendDrop =>
          if sendFlag { pc := SendRecheck; } else { pc := DropRef(Finish, false); }
          sendFlag := false;
        case SendRecheck =>
          if queue == [] { pc := DropRef(Finish, false); } else { pc := SendRegain; }
        case SendRegain =>
          var won := ClaimSend();
          if won { pc := SendRepostInc; } else { pc := DropRef(Finish, false); }
        case SendRepostInc =>
          var _ := Increment();
          pc := SendRepost;
        case SendRepost =>
          pc, spawn := DropRef(Finish, false), Spawn(SendPosted);
      }
    }

    /** `m_sendBuffer.Pop(msg)`, and `msgs[bufCnt++] = msg`. */
    method PopOne()
      requires queue != []
      modifies this`queue, this`batch, this`popped
      ensures queue == old(queue)[1..]
      ensures batch == old(batch) + [old(queue)[0]] && popped == old(popped) + [old(queue)[0]]
    {
      var msg := queue[0];
      queue := queue[1..];
      popped := popped + [msg];
      batch := batch + [msg];
    }

    /** SendComplete with messages to send: the pop loop's body, WSASend and WSASendError. */
    method SendBatch(me: nat, id: nat, p: Pc, c: Choice) returns (pc: Pc, spawn: Spawn)
      requires BatchPc(p)
      modifies this
      ensures Effect(Now(), pc, spawn, None) == BatchStep(old(Now()), me, id, p, c)
    {
      spawn := Nothing;
      match p {
        case SendCollect =>
          if queue == [] {
            pc := SendLive;
          } else {
            PopOne();
            if |batch| == BATCH { pc := SendLive; } else { pc := SendCollect; }
          }
        case SendLive =>
          if live {
            pc := SendInc;
          } else {
            orphan := true;
            pc := DropRef(Finish, false);
          }
        case SendInc =>
          var _ := Increment();
          pc := SendCall;
        case SendCall =>
          handed := handed + batch;
          unsent := false;
          if c == First { pc, spawn := DropRef(Finish, false), Spawn(SendInFlight); } else { pc := SendErr; }
        case SendErr =>
          live := false;
          orphan := true;
          pc := SendErrDec;
        case SendErrDec =>
          var _ := Decrement();
          pc := DropRef(Finish, false);
      }
    }

    /** ReleaseComplete, one action at a time. */
    method Teardown(me: nat, id: nat, p: Pc, c: Choice) returns (pc: Pc, freed: Freed)
      requires TeardownPc(p)
      modifies this
      ensures Effect(Now(), pc, Nothing, freed) == TeardownStep(old(Now()), me, id, p, c)
    {
      pc, freed := p, None;
      match p {
        case ReleasePosted =>
          pc := RelQueue;
        case RelQueue =>
          if queue == [] {
            pc := RelBatch;
          } else {
            freed := Freed(queue[0]);
            queue := queue[1..];
          }
        case RelBatch =>
          if batch == [] {
            pc := RelPush;
          } else {
            freed := Freed(batch[0]);
            batch := batch[1..];
          }
        case RelPush =>
          stage := Parked;
          returned := returned + 1;
          pc := RelCount;
        case RelCount =>
          pc := Done;
        case Done =>
      }
    }

    /** The history of a new generation is empty. */
    ghost method ForgetLast()
      modifies this`unsent, this`staleZero, this`pushed, this`popped, this`handed
      ensures !unsent && !staleZero && pushed == popped == handed == []
    {
      unsent, staleZero := false, false;
      pushed, popped, handed := [], [], [];
    }

    /** `m_ioCount = 1`, which opens the session. */
    method OpenUp()
      modifies this
      ensures Now() == Written(old(Now()), Count)
    {
      ioCount := 1;
      stage, accepts := Open, accepts + 1;
      ForgetLast();
    }

    /** One write of the accept thread. */
    method Accept(w: Write)
      modifies this
      ensures Now() == Written(old(Now()), w)
    {
      match w {
        case Take => stage := Taken;
        case GoLive => live := true;
        case ClearFlag => sendFlag, orphan := false, false;
        case Rename(id) => seqID := id;
        case Count => OpenUp();
      }
    }

    /** The next atomic action of an activity on this session. */
    method Move(me: nat, id: nat, p: Pc, c: Choice) returns (pc: Pc, spawn: Spawn, freed: Freed)
      modifies this
      ensures Effect(Now(), pc, spawn, freed) == Step(old(Now()), me, id, p, c)
    {
      spawn, freed := Nothing, None;
      if LockPc(p) {
        pc, freed := Lock(me, id, p, c);
      } else if DropPc(p) {
        pc, spawn := Drop(me, id, p, c);
      } else if PushPc(p) {
        pc, spawn := PushMessage(me, id, p, c);
      } else if RecvPc(p) {
        pc, spawn := Receive(me, id, p, c);
      } else if SendPc(p) {
        pc, spawn, freed := FinishSend(me, id, p, c);
      } else if BatchPc(p) {
        pc, spawn := SendBatch(me, id, p, c);
      } else {
        pc, freed := Teardown(me, id, p, c);
      }
    }

    // ---- whole calls, which nothing else disturbs

    /** ReleaseSession, behind a won release CAS: the release is posted. */
    method ReleaseSession()
      modifies this`stage, this`posts
      ensures stage == Closed && posts == old(posts) + 1
    {
      stage := Closed;
      posts := posts + 1;
    }

    /** SessionUnLock: the decrement, the release CAS, and the post if it is won. SessionLock and Disconnect can end so
        too. */
    method SessionUnLock() returns (posted: bool)
      requires ioCount < WORD
      modifies this`ioCount, this`staleZero, this`stage, this`posts
      ensures Unlocks(old(Now()), posted, Now())
    {
      var _ := Decrement();
      staleZero := false;
      posted := ClaimRelease();
      if posted { ReleaseSession(); }
    }

    /** SessionLock, answering whether the caller may go on; `posted` if it has posted the session's release. */
    method SessionLock(id: nat) returns (ok: bool, posted: bool)
      requires ioCount < WORD
      modifies this`ioCount, this`staleZero, this`stage, this`posts
      ensures Locks(old(Now()), id, ok, posted, Now())
    {
      var v := Increment();
      if Flagged(v) { return false, false; }
      if seqID != id || v == 1 {
        posted := SessionUnLock();
        return false, posted;
      }
      return true, false;
    }

    /** DecrementIoCountAndMaybeDeleteSession, which looks at the count before its CAS. */
    method DecrementAndMaybeDelete() returns (posted: bool)
      requires ioCount < WORD
      modifies this`ioCount, this`staleZero, this`stage, this`posts
      ensures Unlocks(old(Now()), posted, Now())
    {
      var v := Decrement();
      staleZero := false;
      posted := false;
      if v == 0 {
        posted := ClaimRelease();
        if posted { ReleaseSession(); }
      }
    }

    /** Disconnect of another ID: the reference is dropped, and nothing more. */
    method TakeBack()
      modifies this`ioCount, this`staleZero
      ensures ioCount == Dec(old(ioCount)) && staleZero == (ioCount == 0)
    {
      var v := Decrement();
      staleZero := v == 0;
    }

    /** Disconnect of the session's own ID. */
    method Kill() returns (posted: bool)
      requires ioCount < WORD
      modifies this`ioCount, this`live, this`staleZero, this`stage, this`posts
      ensures Unlocks(old(Now()).(live := false), posted, Now())
    {
      live := false;
      posted := SessionUnLock();
    }

    /** Disconnect, answering whether the session was that of the ID. */
    method Disconnect(id: nat) returns (ok: bool, posted: bool)
      requires ioCount < WORD
      modifies this`ioCount, this`live, this`staleZero, this`stage, this`posts
      ensures Disconnects(old(Now()), id, ok, posted, Now())
    {
      var v := Increment();
      if Flagged(v) { return false, false; }
      if id != seqID {
        TakeBack();
        return false, false;
      }
      posted := Kill();
      ok := true;
    }

    /** The push, and the post if the flag was down. */
    method Enqueue(me: nat) returns (sent: bool)
      modifies this`queue, this`pushed, this`sendFlag, this`ioCount
      ensures queue == old(queue) + [me] && pushed == old(pushed) + [me] && sendFlag && sent == !old(sendFlag)
      ensures ioCount == if sent then Inc(old(ioCount)) else old(ioCount)
    {
      queue := queue + [me];
      pushed := pushed + [me];
      sent := ClaimSend();
      if sent { var _ := Increment(); }
    }

    /** Unicast behind a true SessionLock, up to its SessionUnLock, which is not the last to leave. */
    method Deliver(me: nat, id: nat, limit: nat) returns (sent: bool)
      requires seqID == id && 1 < ioCount < BIT47 - 2
      modifies this
      ensures sent == !old(sendFlag)
      ensures Now() == old(Now()).(queue := old(queue) + [me], pushed := old(pushed) + [me], sendFlag := true,
                                   live := old(live) && |old(queue)| + 1 < limit, staleZero := false,
                                   ioCount := if sent then old(ioCount) else old(ioCount) - 1)
    {
      sent := Enqueue(me);
      if |queue| >= limit { var _, _ := Disconnect(id); }
      var _ := SessionUnLock();
    }

    /** Unicast of message `me` under the send limit `limit`. */
    method Unicast(me: nat, id: nat, limit: nat) returns (freed: bool, sent: bool, posted: bool)
      requires Roomy(Now())
      modifies this
      ensures Unicasts(old(Now()), me, id, limit, freed, sent, posted, Now())
    {
      var ok;
      ok, posted := SessionLock(id);
      if !ok { return true, false, posted; }
      sent := Deliver(me, id, limit);
      freed := false;
    }

    /** RecvPacket on a `full` ring or not, with a WSARecv that `fails` or not. */
    method RecvPacket(full: bool, fails: bool) returns (pending: bool)
      requires ioCount < WORD
      modifies this`ioCount, this`live
      ensures Packets(old(Now()), full, fails, pending, Now())
    {
      pending := false;
      if full {
        live := false;
        return;
      }
      if live {
        var _ := Increment();
        pending := !fails;
        if fails {
          live := false;
          var _ := Decrement();
        }
      }
    }

    /** A completed receive, with bytes or without: the loop over the ring, which ends as `loop` says, and the worker's
        decrement. */
    method RecvComplete(bytes: bool, loop: Loop, full: bool, fails: bool) returns (pending: bool, posted: bool)
      requires ioCount < BIT47
      modifies this`ioCount, this`live, this`staleZero, this`stage, this`posts
      ensures Completes(old(Now()), bytes, loop, full, fails, pending, posted, Now())
    {
      if !bytes { live := false; }
      pending := false;
      match loop {
        case Drained => pending := RecvPacket(full, fails);
        case BadSum => live := false;
        case Disconnected =>
      }
      posted := DecrementAndMaybeDelete();
    }

    /** The accept thread behind `m_ioCount = 1`, once OnAccept has `agreed` or not. */
    method Enter(agreed: bool, full: bool, fails: bool) returns (pending: bool, posted: bool)
      requires ioCount < BIT47
      modifies this`ioCount, this`live, this`staleZero, this`stage, this`posts
      ensures Enters(old(Now()), agreed, full, fails, pending, posted, Now())
    {
      pending := false;
      if agreed { pending := RecvPacket(full, fails); }
      posted := DecrementAndMaybeDelete();
    }

    /** Dropping the flag, and the second look; `late` is what other calls push before the flag goes down. */
    method DropFlag(late: seq<nat>) returns (reposted: bool)
      requires queue == []
      modifies this`queue, this`pushed, this`sendFlag, this`ioCount
      ensures queue == late && pushed == old(pushed) + late
      ensures reposted == sendFlag == (old(sendFlag) && late != [])
      ensures ioCount == if reposted then Inc(old(ioCount)) else old(ioCount)
    {
      reposted := false;
      queue, pushed := late, pushed + late;
      if sendFlag {
        sendFlag := false;
        if queue != [] {
          reposted := ClaimSend();
          if reposted { var _ := Increment(); }
        }
      }
    }

    /** The test of the live bit, WSASend and WSASendError. */
    method HandOver(good: bool) returns (pending: bool)
      requires ioCount < WORD
      modifies this`ioCount, this`live, this`handed, this`unsent, this`orphan
      ensures pending == (old(live) && good) && live == pending
      ensures handed == if old(live) then old(handed) + batch else old(handed)
      ensures unsent == (old(unsent) && !old(live)) && orphan == (old(orphan) || !pending)
      ensures ioCount == if pending then Inc(old(ioCount)) else old(ioCount)
    {
      pending := live && good;
      if live {
        var _ := Increment();
        handed, unsent := handed + batch, false;
        if !good {
          live, orphan := false, true;
          var _ := Decrement();
        }
      } else {
        orphan := true;
      }
    }

    /** SendComplete with messages to send. */
    method SendQueued(good: bool) returns (pending: bool)
      requires ioCount < WORD && queue != [] && batch == []
      modifies this
      ensures SendCompletes(old(Now()), [], good, [], false, pending, Now())
    {
      Collect();
      pending := HandOver(good);
    }

    /** SendComplete: `late` is what other calls push between its two looks at an empty queue, `good` whether WSASend
        succeeds. */
    method SendComplete(late: seq<nat>, good: bool) returns (freed: seq<nat>, reposted: bool, pending: bool)
      requires ioCount < WORD
      modifies this
      ensures SendCompletes(old(Now()), late, good, freed, reposted, pending, Now())
    {
      freed := ReleaseBatch();
      reposted, pending := false, false;
      if queue == [] {
        reposted := DropFlag(late);
      } else {
        pending := SendQueued(good);
      }
    }

    /** The loop over `msgs[]`, and `msgCnt = 0`. */
    method ReleaseBatch() returns (freed: seq<nat>)
      modifies this`batch
      ensures freed == old(batch) && batch == []
    {
      freed := [];
      var i := 0;
      while i < |batch|
        invariant i <= |batch| && batch == old(batch) && freed == batch[..i]
      {
        freed := freed + [batch[i]];
        i := i + 1;
      }
      batch := [];
    }

    /** The pop loop. */
    method Collect()
      requires batch == [] && queue != []
      modifies this`queue, this`batch, this`popped, this`unsent
      ensures var n := if |old(queue)| < BATCH then |old(queue)| else BATCH;
        && batch == old(queue)[..n] && queue == old(queue)[n..] && popped == old(popped) + old(queue)[..n] && unsent
    {
      unsent := true;
      while queue != []
        invariant |batch| <= |old(queue)| && |batch| < BATCH && unsent
        invariant batch == old(queue)[..|batch|] && queue == old(queue)[|batch|..] && popped == old(popped) + batch
        decreases |queue|
      {
        assert old(queue)[..|batch| + 1] == batch + [queue[0]];
        PopOne();
        if |batch| == BATCH { break; }
      }
    }

    /** The loop that pops `m_sendBuffer` until it is empty. */
    method ReleaseQueue() returns (freed: seq<nat>)
      modifies this`queue
      ensures freed == old(queue) && queue == []
    {
      freed := [];
      while queue != []
        invariant freed + queue == old(queue)
        decreases |queue|
      {
        freed := freed + [queue[0]];
        queue := queue[1..];
      }
    }

    /** clsSession::Release in one go: every queued message is released, then every one of the last batch, in order. */
    method Release() returns (freed: seq<nat>)
      modifies this
      ensures Now() == old(Now()).(queue := [], batch := [])
      ensures freed == old(queue) + old(batch)
    {
      freed := ReleaseQueue();
      var last := ReleaseBatch();
      freed := freed + last;
    }

    /** ReleaseComplete, up to the index push. */
    method ReleaseComplete() returns (freed: seq<nat>)
      modifies this
      ensures Returns(old(Now()), freed, Now())
    {
      freed := Release();
      stage := Parked;
      returned := returned + 1;
    }
  }

  // ---- clsSession::Release step by step

  /** The messages released by the steps of ReleaseComplete from `p` to RelPush, when nothing else touches the slot. */
  function Emptying(sl: Slot, p: Pc): (seq<nat>, Slot)
    requires p.ReleasePosted? || p.RelQueue? || p.RelBatch? || p.RelPush?
    decreases |sl.queue| + |sl.batch|,
              if p.ReleasePosted? then 3 else if p.RelQueue? then 2 else if p.RelBatch? then 1 else 0
  {
    if p.RelPush? then ([], sl)
    else
      var e := TeardownStep(sl, 0, 0, p, First);
      var (freed, last) := Emptying(e.slot, e.pc);
      (if e.freed.Freed? then [e.freed.delivery] + freed else freed, last)
  }

  lemma EmptyingOne(sl: Slot)
    ensures Emptying(sl, ReleasePosted) == Emptying(sl, RelQueue)
    ensures sl.queue == [] ==> Emptying(sl, RelQueue) == Emptying(sl, RelBatch)
    ensures sl.queue != [] ==>
              var rest := Emptying(sl.(queue := sl.queue[1..]), RelQueue);
              Emptying(sl, RelQueue) == ([sl.queue[0]] + rest.0, rest.1)
    ensures sl.batch == [] ==> Emptying(sl, RelBatch) == ([], sl)
    ensures sl.batch != [] ==>
              var rest := Emptying(sl.(batch := sl.batch[1..]), RelBatch);
              Emptying(sl, RelBatch) == ([sl.batch[0]] + rest.0, rest.1)
  {
  }

  lemma FirstOf(q: seq<nat>, r: seq<nat>)
    requires q != []
    ensures [q[0]] + (q[1..] + r) == q + r
  {
  }

  lemma {:induction false} BatchIsRelease(sl: Slot)
    ensures Emptying(sl, RelBatch) == (sl.batch, sl.(batch := []))
    decreases |sl.batch|
  {
    EmptyingOne(sl);
    if sl.batch == [] {
      assert sl.(batch := []) == sl;
    } else {
      BatchIsRelease(sl.(batch := sl.batch[1..]));
      assert [sl.batch[0]] + sl.batch[1..] == sl.batch;
    }
  }

  /** The steps release what Release does, in its order. */
  lemma {:induction false} DrainIsRelease(sl: Slot, p: Pc)
    requires p.ReleasePosted? || p.RelQueue? || (p.RelBatch? && sl.queue == [])
    ensures Emptying(sl, p) == (sl.queue + sl.batch, sl.(queue := [], batch := []))
    decreases |sl.queue|, if p.ReleasePosted? then 2 else if p.RelQueue? then 1 else 0
  {
    EmptyingOne(sl);
    if p.ReleasePosted? {
      DrainIsRelease(sl, RelQueue);
    } else if p.RelBatch? {
      BatchIsRelease(sl);
      assert [] + sl.batch == sl.batch;
    } else if sl.queue == [] {
      DrainIsRelease(sl, RelBatch);
    } else {
      DrainIsRelease(sl.(queue := sl.queue[1..]), RelQueue);
      FirstOf(sl.queue, sl.batch);
    }
  }
}
