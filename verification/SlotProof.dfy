/** Every atomic action of every activity keeps the slot invariant: one lemma for each part of the invariant and each
    part of the code, and smaller ones where a part has many actions. */
module SlotProof {
  import opened SessionStep

  lemma LockIncKeepsCount(sl: Slot, rest: Sums, n: nat, me: nat, id: nat, p: Pc, c: Choice)
    requires p.LockInc? && Before(sl, rest, n, p)
    ensures var e := LockStep(sl, me, id, p, c); CountInv(e.slot, Around(rest, e))
  {
  }

  lemma LockCheckKeepsCount(sl: Slot, rest: Sums, n: nat, me: nat, id: nat, p: Pc, c: Choice)
    requires (p.LockCheck? || p.RejectMsg?) && Before(sl, rest, n, p)
    ensures var e := LockStep(sl, me, id, p, c); CountInv(e.slot, Around(rest, e))
  {
  }

  lemma DiscIncKeepsCount(sl: Slot, rest: Sums, n: nat, me: nat, id: nat, p: Pc, c: Choice)
    requires p.DiscInc? && Before(sl, rest, n, p)
    ensures var e := LockStep(sl, me, id, p, c); CountInv(e.slot, Around(rest, e))
  {
  }

  lemma DiscCheckKeepsCount(sl: Slot, rest: Sums, n: nat, me: nat, id: nat, p: Pc, c: Choice)
    requires (p.DiscCheck? || p.DiscKill?) && Before(sl, rest, n, p)
    ensures var e := LockStep(sl, me, id, p, c); CountInv(e.slot, Around(rest, e))
  {
  }

  lemma LockKeepsCount(sl: Slot, rest: Sums, n: nat, me: nat, id: nat, p: Pc, c: Choice)
    requires LockPc(p) && Before(sl, rest, n, p)
    ensures var e := LockStep(sl, me, id, p, c); CountInv(e.slot, Around(rest, e))
  {
    if p.LockInc? {
      LockIncKeepsCount(sl, rest, n, me, id, p, c);
    } else if p.LockCheck? || p.RejectMsg? {
      LockCheckKeepsCount(sl, rest, n, me, id, p, c);
    } else if p.DiscInc? {
      DiscIncKeepsCount(sl, rest, n, me, id, p, c);
    } else {
      DiscCheckKeepsCount(sl, rest, n, me, id, p, c);
    }
  }

  lemma SessionLockKeepsFlag(sl: Slot, rest: Sums, n: nat, me: nat, id: nat, p: Pc, c: Choice)
    requires (p.LockInc? || p.LockCheck? || p.RejectMsg?) && Before(sl, rest, n, p)
    ensures var e := LockStep(sl, me, id, p, c); FlagInv(e.slot, Around(rest, e))
  {
  }

  lemma DisconnectKeepsFlag(sl: Slot, rest: Sums, n: nat, me: nat, id: nat, p: Pc, c: Choice)
    requires (p.DiscInc? || p.DiscCheck? || p.DiscKill?) && Before(sl, rest, n, p)
    ensures var e := LockStep(sl, me, id, p, c); FlagInv(e.slot, Around(rest, e))
  {
  }

  lemma LockKeepsFlag(sl: Slot, rest: Sums, n: nat, me: nat, id: nat, p: Pc, c: Choice)
    requires LockPc(p) && Before(sl, rest, n, p)
    ensures var e := LockStep(sl, me, id, p, c); FlagInv(e.slot, Around(rest, e))
  {
    if p.LockInc? || p.LockCheck? || p.RejectMsg? {
      SessionLockKeepsFlag(sl, rest, n, me, id, p, c);
    } else {
      DisconnectKeepsFlag(sl, rest, n, me, id, p, c);
    }
  }

  lemma LockKeepsQueue(sl: Slot, rest: Sums, n: nat, me: nat, id: nat, p: Pc, c: Choice)
    requires LockPc(p) && Before(sl, rest, n, p)
    ensures var e := LockStep(sl, me, id, p, c); QueueInv(e.slot, Around(rest, e))
  {
  }

  lemma LockKeepsRelease(sl: Slot, rest: Sums, n: nat, me: nat, id: nat, p: Pc, c: Choice)
    requires LockPc(p) && Before(sl, rest, n, p)
    ensures var e := LockStep(sl, me, id, p, c); ReleaseInv(e.slot, Around(rest, e))
  {
  }

  lemma StaleDropKeepsCount(sl: Slot, rest: Sums, n: nat, me: nat, id: nat, p: Pc, c: Choice)
    requires p.StaleDrop? && Before(sl, rest, n, p)
    ensures var e := DropStep(sl, me, id, p, c); CountInv(e.slot, Around(rest, e))
  {
  }

  lemma DropRefKeepsCount(sl: Slot, rest: Sums, n: nat, me: nat, id: nat, p: Pc, c: Choice)
    requires p.DropRef? && Before(sl, rest, n, p)
    ensures var e := DropStep(sl, me, id, p, c); CountInv(e.slot, Around(rest, e))
  {
  }

  lemma TryReleaseKeepsCount(sl: Slot, rest: Sums, n: nat, me: nat, id: nat, p: Pc, c: Choice)
    requires p.TryRelease? && Before(sl, rest, n, p)
    ensures var e := DropStep(sl, me, id, p, c); CountInv(e.slot, Around(rest, e))
  {
  }

  lemma PostReleaseKeepsCount(sl: Slot, rest: Sums, n: nat, me: nat, id: nat, p: Pc, c: Choice)
    requires p.PostRelease? && Before(sl, rest, n, p)
    ensures var e := DropStep(sl, me, id, p, c); CountInv(e.slot, Around(rest, e))
  {
  }

  lemma DropKeepsCount(sl: Slot, rest: Sums, n: nat, me: nat, id: nat, p: Pc, c: Choice)
    requires DropPc(p) && Before(sl, rest, n, p)
    ensures var e := DropStep(sl, me, id, p, c); CountInv(e.slot, Around(rest, e))
  {
    if p.StaleDrop? {
      StaleDropKeepsCount(sl, rest, n, me, id, p, c);
    } else if p.DropRef? {
      DropRefKeepsCount(sl, rest, n, me, id, p, c);
    } else if p.TryRelease? {
      TryReleaseKeepsCount(sl, rest, n, me, id, p, c);
    } else {
      PostReleaseKeepsCount(sl, rest, n, me, id, p, c);
    }
  }

  lemma DropKeepsFlag(sl: Slot, rest: Sums, n: nat, me: nat, id: nat, p: Pc, c: Choice)
    requires DropPc(p) && Before(sl, rest, n, p)
    ensures var e := DropStep(sl, me, id, p, c); FlagInv(e.slot, Around(rest, e))
  {
  }

  lemma DropKeepsQueue(sl: Slot, rest: Sums, n: nat, me: nat, id: nat, p: Pc, c: Choice)
    requires DropPc(p) && Before(sl, rest, n, p)
    ensures var e := DropStep(sl, me, id, p, c); QueueInv(e.slot, Around(rest, e))
  {
  }

  lemma DropKeepsRelease(sl: Slot, rest: Sums, n: nat, me: nat, id: nat, p: Pc, c: Choice)
    requires DropPc(p) && Before(sl, rest, n, p)
    ensures var e := DropStep(sl, me, id, p, c); ReleaseInv(e.slot, Around(rest, e))
  {
  }

  lemma ClaimKeepsCount(sl: Slot, rest: Sums, n: nat, me: nat, id: nat, p: Pc, c: Choice)
    requires (p.Push? || p.ClaimFlag?) && Before(sl, rest, n, p)
    ensures var e := PushStep(sl, me, id, p, c); CountInv(e.slot, Around(rest, e))
  {
  }

  lemma PostSendKeepsCount(sl: Slot, rest: Sums, n: nat, me: nat, id: nat, p: Pc, c: Choice)
    requires (p.PostInc? || p.PostSend?) && Before(sl, rest, n, p)
    ensures var e := PushStep(sl, me, id, p, c); CountInv(e.slot, Around(rest, e))
  {
  }

  lemma LimitKeepsCount(sl: Slot, rest: Sums, n: nat, me: nat, id: nat, p: Pc, c: Choice)
    requires p.CheckLimit? && Before(sl, rest, n, p)
    ensures var e := PushStep(sl, me, id, p, c); CountInv(e.slot, Around(rest, e))
  {
  }

  lemma UnlockKeepsCount(sl: Slot, rest: Sums, n: nat, me: nat, id: nat, p: Pc, c: Choice)
    requires p.Unlock? && Before(sl, rest, n, p)
    ensures var e := PushStep(sl, me, id, p, c); CountInv(e.slot, Around(rest, e))
  {
  }

  lemma PushKeepsCount(sl: Slot, rest: Sums, n: nat, me: nat, id: nat, p: Pc, c: Choice)
    requires PushPc(p) && Before(sl, rest, n, p)
    ensures var e := PushStep(sl, me, id, p, c); CountInv(e.slot, Around(rest, e))
  {
    if p.Push? || p.ClaimFlag? {
      ClaimKeepsCount(sl, rest, n, me, id, p, c);
    } else if p.PostInc? || p.PostSend? {
      PostSendKeepsCount(sl, rest, n, me, id, p, c);
    } else if p.CheckLimit? {
      LimitKeepsCount(sl, rest, n, me, id, p, c);
    } else {
      UnlockKeepsCount(sl, rest, n, me, id, p, c);
    }
  }

  lemma ClaimKeepsFlag(sl: Slot, rest: Sums, n: nat, me: nat, id: nat, p: Pc, c: Choice)
    requires (p.Push? || p.ClaimFlag?) && Before(sl, rest, n, p)
    ensures var e := PushStep(sl, me, id, p, c); FlagInv(e.slot, Around(rest, e))
  {
  }

  lemma UnlockKeepsFlag(sl: Slot, rest: Sums, n: nat, me: nat, id: nat, p: Pc, c: Choice)
    requires (p.PostInc? || p.PostSend? || p.CheckLimit? || p.Unlock?) && Before(sl, rest, n, p)
    ensures var e := PushStep(sl, me, id, p, c); FlagInv(e.slot, Around(rest, e))
  {
  }

  lemma PushKeepsFlag(sl: Slot, rest: Sums, n: nat, me: nat, id: nat, p: Pc, c: Choice)
    requires PushPc(p) && Before(sl, rest, n, p)
    ensures var e := PushStep(sl, me, id, p, c); FlagInv(e.slot, Around(rest, e))
  {
    if p.Push? || p.ClaimFlag? {
      ClaimKeepsFlag(sl, rest, n, me, id, p, c);
    } else {
      UnlockKeepsFlag(sl, rest, n, me, id, p, c);
    }
  }

  lemma PushKeepsQueue(sl: Slot, rest: Sums, n: nat, me: nat, id: nat, p: Pc, c: Choice)
    requires PushPc(p) && Before(sl, rest, n, p)
    ensures var e := PushStep(sl, me, id, p, c); QueueInv(e.slot, Around(rest, e))
  {
  }

  lemma PushKeepsRelease(sl: Slot, rest: Sums, n: nat, me: nat, id: nat, p: Pc, c: Choice)
    requires PushPc(p) && Before(sl, rest, n, p)
    ensures var e := PushStep(sl, me, id, p, c); ReleaseInv(e.slot, Around(rest, e))
  {
  }

  lemma ArrivedKeepsCount(sl: Slot, rest: Sums, n: nat, me: nat, id: nat, p: Pc, c: Choice)
    requires (p.AcceptCount? || p.Accepted? || p.RecvPending? || p.RecvFin?) && Before(sl, rest, n, p)
    ensures var e := RecvStep(sl, me, id, p, c); CountInv(e.slot, Around(rest, e))
  {
  }

  lemma ReceivedKeepsCount(sl: Slot, rest: Sums, n: nat, me: nat, id: nat, p: Pc, c: Choice)
    requires (p.RecvBody? || p.RecvKill? || p.RecvPost?) && Before(sl, rest, n, p)
    ensures var e := RecvStep(sl, me, id, p, c); CountInv(e.slot, Around(rest, e))
  {
  }

  lemma ReceivePostKeepsCount(sl: Slot, rest: Sums, n: nat, me: nat, id: nat, p: Pc, c: Choice)
    requires (p.RecvInc? || p.RecvCall?) && Before(sl, rest, n, p)
    ensures var e := RecvStep(sl, me, id, p, c); CountInv(e.slot, Around(rest, e))
  {
  }

  lemma ReceiveErrorKeepsCount(sl: Slot, rest: Sums, n: nat, me: nat, id: nat, p: Pc, c: Choice)
    requires (p.RecvErr? || p.RecvErrDec?) && Before(sl, rest, n, p)
    ensures var e := RecvStep(sl, me, id, p, c); CountInv(e.slot, Around(rest, e))
  {
  }

  lemma RecvKeepsCount(sl: Slot, rest: Sums, n: nat, me: nat, id: nat, p: Pc, c: Choice)
    requires RecvPc(p) && Before(sl, rest, n, p)
    ensures var e := RecvStep(sl, me, id, p, c); CountInv(e.slot, Around(rest, e))
  {
    if p.AcceptCount? || p.Accepted? || p.RecvPending? || p.RecvFin? {
      ArrivedKeepsCount(sl, rest, n, me, id, p, c);
    } else if p.RecvBody? || p.RecvKill? || p.RecvPost? {
      ReceivedKeepsCount(sl, rest, n, me, id, p, c);
    } else if p.RecvInc? || p.RecvCall? {
      ReceivePostKeepsCount(sl, rest, n, me, id, p, c);
    } else {
      ReceiveErrorKeepsCount(sl, rest, n, me, id, p, c);
    }
  }

  lemma ArrivedKeepsFlag(sl: Slot, rest: Sums, n: nat, me: nat, id: nat, p: Pc, c: Choice)
    requires (p.AcceptCount? || p.Accepted? || p.RecvPending? || p.RecvFin?) && Before(sl, rest, n, p)
    ensures var e := RecvStep(sl, me, id, p, c); FlagInv(e.slot, Around(rest, e))
  {
  }

  lemma ReceivedKeepsFlag(sl: Slot, rest: Sums, n: nat, me: nat, id: nat, p: Pc, c: Choice)
    requires (p.RecvBody? || p.RecvKill? || p.RecvPost?) && Before(sl, rest, n, p)
    ensures var e := RecvStep(sl, me, id, p, c); FlagInv(e.slot, Around(rest, e))
  {
  }

  lemma ReceivePostKeepsFlag(sl: Slot, rest: Sums, n: nat, me: nat, id: nat, p: Pc, c: Choice)
    requires (p.RecvInc? || p.RecvCall?) && Before(sl, rest, n, p)
    ensures var e := RecvStep(sl, me, id, p, c); FlagInv(e.slot, Around(rest, e))
  {
  }

  lemma ReceiveErrorKeepsFlag(sl: Slot, rest: Sums, n: nat, me: nat, id: nat, p: Pc, c: Choice)
    requires (p.RecvErr? || p.RecvErrDec?) && Before(sl, rest, n, p)
    ensures var e := RecvStep(sl, me, id, p, c); FlagInv(e.slot, Around(rest, e))
  {
  }

  lemma RecvKeepsFlag(sl: Slot, rest: Sums, n: nat, me: nat, id: nat, p: Pc, c: Choice)
    requires RecvPc(p) && Before(sl, rest, n, p)
    ensures var e := RecvStep(sl, me, id, p, c); FlagInv(e.slot, Around(rest, e))
  {
    if p.AcceptCount? || p.Accepted? || p.RecvPending? || p.RecvFin? {
      ArrivedKeepsFlag(sl, rest, n, me, id, p, c);
    } else if p.RecvBody? || p.RecvKill? || p.RecvPost? {
      ReceivedKeepsFlag(sl, rest, n, me, id, p, c);
    } else if p.RecvInc? || p.RecvCall? {
      ReceivePostKeepsFlag(sl, rest, n, me, id, p, c);
    } else {
      ReceiveErrorKeepsFlag(sl, rest, n, me, id, p, c);
    }
  }

  lemma RecvKeepsQueue(sl: Slot, rest: Sums, n: nat, me: nat, id: nat, p: Pc, c: Choice)
    requires RecvPc(p) && Before(sl, rest, n, p)
    ensures var e := RecvStep(sl, me, id, p, c); QueueInv(e.slot, Around(rest, e))
  {
  }

  lemma RecvKeepsRelease(sl: Slot, rest: Sums, n: nat, me: nat, id: nat, p: Pc, c: Choice)
    requires RecvPc(p) && Before(sl, rest, n, p)
    ensures var e := RecvStep(sl, me, id, p, c); ReleaseInv(e.slot, Around(rest, e))
  {
  }

  lemma SentKeepsCount(sl: Slot, rest: Sums, n: nat, me: nat, id: nat, p: Pc, c: Choice)
    requires (p.SendPosted? || p.SendInFlight? || p.SendFree? || p.SendSize? || p.SendDrop?) && Before(sl, rest, n, p)
    ensures var e := SendStep(sl, me, id, p, c); CountInv(e.slot, Around(rest, e))
  {
  }

  lemma RecheckKeepsCount(sl: Slot, rest: Sums, n: nat, me: nat, id: nat, p: Pc, c: Choice)
    requires (p.SendRecheck? || p.SendRegain?) && Before(sl, rest, n, p)
    ensures var e := SendStep(sl, me, id, p, c); CountInv(e.slot, Around(rest, e))
  {
  }

  lemma RepostKeepsCount(sl: Slot, rest: Sums, n: nat, me: nat, id: nat, p: Pc, c: Choice)
    requires (p.SendRepostInc? || p.SendRepost?) && Before(sl, rest, n, p)
    ensures var e := SendStep(sl, me, id, p, c); CountInv(e.slot, Around(rest, e))
  {
  }

  lemma SendKeepsCount(sl: Slot, rest: Sums, n: nat, me: nat, id: nat, p: Pc, c: Choice)
    requires SendPc(p) && Before(sl, rest, n, p)
    ensures var e := SendStep(sl, me, id, p, c); CountInv(e.slot, Around(rest, e))
  {
    if p.SendPosted? || p.SendInFlight? || p.SendFree? || p.SendSize? || p.SendDrop? {
      SentKeepsCount(sl, rest, n, me, id, p, c);
    } else if p.SendRecheck? || p.SendRegain? {
      RecheckKeepsCount(sl, rest, n, me, id, p, c);
    } else {
      RepostKeepsCount(sl, rest, n, me, id, p, c);
    }
  }

  lemma SentKeepsFlag(sl: Slot, rest: Sums, n: nat, me: nat, id: nat, p: Pc, c: Choice)
    requires (p.SendPosted? || p.SendInFlight? || p.SendFree? || p.SendSize? || p.SendDrop?) && Before(sl, rest, n, p)
    ensures var e := SendStep(sl, me, id, p, c); FlagInv(e.slot, Around(rest, e))
  {
  }

  lemma SendAgainKeepsFlag(sl: Slot, rest: Sums, n: nat, me: nat, id: nat, p: Pc, c: Choice)
    requires (p.SendRecheck? || p.SendRegain? || p.SendRepostInc? || p.SendRepost?) && Before(sl, rest, n, p)
    ensures var e := SendStep(sl, me, id, p, c); FlagInv(e.slot, Around(rest, e))
  {
  }

  lemma SendKeepsFlag(sl: Slot, rest: Sums, n: nat, me: nat, id: nat, p: Pc, c: Choice)
    requires SendPc(p) && Before(sl, rest, n, p)
    ensures var e := SendStep(sl, me, id, p, c); FlagInv(e.slot, Around(rest, e))
  {
    if p.SendPosted? || p.SendInFlight? || p.SendFree? || p.SendSize? || p.SendDrop? {
      SentKeepsFlag(sl, rest, n, me, id, p, c);
    } else {
      SendAgainKeepsFlag(sl, rest, n, me, id, p, c);
    }
  }

  lemma SendKeepsQueue(sl: Slot, rest: Sums, n: nat, me: nat, id: nat, p: Pc, c: Choice)
    requires SendPc(p) && Before(sl, rest, n, p)
    ensures var e := SendStep(sl, me, id, p, c); QueueInv(e.slot, Around(rest, e))
  {
  }

  lemma SentKeepsRelease(sl: Slot, rest: Sums, n: nat, me: nat, id: nat, p: Pc, c: Choice)
    requires (p.SendPosted? || p.SendInFlight? || p.SendFree? || p.SendSize? || p.SendDrop?) && Before(sl, rest, n, p)
    ensures var e := SendStep(sl, me, id, p, c); ReleaseInv(e.slot, Around(rest, e))
  {
  }

  lemma SendAgainKeepsRelease(sl: Slot, rest: Sums, n: nat, me: nat, id: nat, p: Pc, c: Choice)
    requires (p.SendRecheck? || p.SendRegain? || p.SendRepostInc? || p.SendRepost?) && Before(sl, rest, n, p)
    ensures var e := SendStep(sl, me, id, p, c); ReleaseInv(e.slot, Around(rest, e))
  {
  }

  lemma SendKeepsRelease(sl: Slot, rest: Sums, n: nat, me: nat, id: nat, p: Pc, c: Choice)
    requires SendPc(p) && Before(sl, rest, n, p)
    ensures var e := SendStep(sl, me, id, p, c); ReleaseInv(e.slot, Around(rest, e))
  {
    if p.SendPosted? || p.SendInFlight? || p.SendFree? || p.SendSize? || p.SendDrop? {
      SentKeepsRelease(sl, rest, n, me, id, p, c);
    } else {
      SendAgainKeepsRelease(sl, rest, n, me, id, p, c);
    }
  }

  lemma CollectKeepsCount(sl: Slot, rest: Sums, n: nat, me: nat, id: nat, p: Pc, c: Choice)
    requires (p.SendCollect? || p.SendLive? || p.SendInc?) && Before(sl, rest, n, p)
    ensures var e := BatchStep(sl, me, id, p, c); CountInv(e.slot, Around(rest, e))
  {
  }

  lemma HandOverKeepsCount(sl: Slot, rest: Sums, n: nat, me: nat, id: nat, p: Pc, c: Choice)
    requires p.SendCall? && Before(sl, rest, n, p)
    ensures var e := BatchStep(sl, me, id, p, c); CountInv(e.slot, Around(rest, e))
  {
  }

  lemma SendErrorKeepsCount(sl: Slot, rest: Sums, n: nat, me: nat, id: nat, p: Pc, c: Choice)
    requires (p.SendErr? || p.SendErrDec?) && Before(sl, rest, n, p)
    ensures var e := BatchStep(sl, me, id, p, c); CountInv(e.slot, Around(rest, e))
  {
  }

  lemma BatchKeepsCount(sl: Slot, rest: Sums, n: nat, me: nat, id: nat, p: Pc, c: Choice)
    requires BatchPc(p) && Before(sl, rest, n, p)
    ensures var e := BatchStep(sl, me, id, p, c); CountInv(e.slot, Around(rest, e))
  {
    if p.SendCollect? || p.SendLive? || p.SendInc? {
      CollectKeepsCount(sl, rest, n, me, id, p, c);
    } else if p.SendCall? {
      HandOverKeepsCount(sl, rest, n, me, id, p, c);
    } else {
      SendErrorKeepsCount(sl, rest, n, me, id, p, c);
    }
  }

  lemma CollectKeepsFlag(sl: Slot, rest: Sums, n: nat, me: nat, id: nat, p: Pc, c: Choice)
    requires (p.SendCollect? || p.SendLive? || p.SendInc?) && Before(sl, rest, n, p)
    ensures var e := BatchStep(sl, me, id, p, c); FlagInv(e.slot, Around(rest, e))
  {
  }

  lemma HandOverKeepsFlag(sl: Slot, rest: Sums, n: nat, me: nat, id: nat, p: Pc, c: Choice)
    requires (p.SendCall? || p.SendErr? || p.SendErrDec?) && Before(sl, rest, n, p)
    ensures var e := BatchStep(sl, me, id, p, c); FlagInv(e.slot, Around(rest, e))
  {
  }

  lemma BatchKeepsFlag(sl: Slot, rest: Sums, n: nat, me: nat, id: nat, p: Pc, c: Choice)
    requires BatchPc(p) && Before(sl, rest, n, p)
    ensures var e := BatchStep(sl, me, id, p, c); FlagInv(e.slot, Around(rest, e))
  {
    if p.SendCollect? || p.SendLive? || p.SendInc? {
      CollectKeepsFlag(sl, rest, n, me, id, p, c);
    } else {
      HandOverKeepsFlag(sl, rest, n, me, id, p, c);
    }
  }

  lemma CollectKeepsQueue(sl: Slot, rest: Sums, n: nat, me: nat, id: nat, p: Pc, c: Choice)
    requires p.SendCollect? && Before(sl, rest, n, p)
    ensures var e := BatchStep(sl, me, id, p, c); QueueInv(e.slot, Around(rest, e))
  {
  }

  lemma HandOverKeepsQueue(sl: Slot, rest: Sums, n: nat, me: nat, id: nat, p: Pc, c: Choice)
    requires (p.SendLive? || p.SendInc? || p.SendCall? || p.SendErr? || p.SendErrDec?) && Before(sl, rest, n, p)
    ensures var e := BatchStep(sl, me, id, p, c); QueueInv(e.slot, Around(rest, e))
  {
  }

  lemma BatchKeepsQueue(sl: Slot, rest: Sums, n: nat, me: nat, id: nat, p: Pc, c: Choice)
    requires BatchPc(p) && Before(sl, rest, n, p)
    ensures var e := BatchStep(sl, me, id, p, c); QueueInv(e.slot, Around(rest, e))
  {
    if p.SendCollect? {
      CollectKeepsQueue(sl, rest, n, me, id, p, c);
    } else {
      HandOverKeepsQueue(sl, rest, n, me, id, p, c);
    }
  }

  lemma BatchKeepsRelease(sl: Slot, rest: Sums, n: nat, me: nat, id: nat, p: Pc, c: Choice)
    requires BatchPc(p) && Before(sl, rest, n, p)
    ensures var e := BatchStep(sl, me, id, p, c); ReleaseInv(e.slot, Around(rest, e))
  {
  }

  lemma DrainKeepsCount(sl: Slot, rest: Sums, n: nat, me: nat, id: nat, p: Pc, c: Choice)
    requires (p.ReleasePosted? || p.RelQueue? || p.RelBatch?) && Before(sl, rest, n, p)
    ensures var e := TeardownStep(sl, me, id, p, c); CountInv(e.slot, Around(rest, e))
  {
  }

  lemma ReturnKeepsCount(sl: Slot, rest: Sums, n: nat, me: nat, id: nat, p: Pc, c: Choice)
    requires (p.RelPush? || p.RelCount? || p.Done?) && Before(sl, rest, n, p)
    ensures var e := TeardownStep(sl, me, id, p, c); CountInv(e.slot, Around(rest, e))
  {
  }

  lemma TeardownKeepsCount(sl: Slot, rest: Sums, n: nat, me: nat, id: nat, p: Pc, c: Choice)
    requires TeardownPc(p) && Before(sl, rest, n, p)
    ensures var e := TeardownStep(sl, me, id, p, c); CountInv(e.slot, Around(rest, e))
  {
    if p.ReleasePosted? || p.RelQueue? || p.RelBatch? {
      DrainKeepsCount(sl, rest, n, me, id, p, c);
    } else {
      ReturnKeepsCount(sl, rest, n, me, id, p, c);
    }
  }

  lemma DrainKeepsFlag(sl: Slot, rest: Sums, n: nat, me: nat, id: nat, p: Pc, c: Choice)
    requires (p.ReleasePosted? || p.RelQueue? || p.RelBatch?) && Before(sl, rest, n, p)
    ensures var e := TeardownStep(sl, me, id, p, c); FlagInv(e.slot, Around(rest, e))
  {
  }

  lemma ReturnKeepsFlag(sl: Slot, rest: Sums, n: nat, me: nat, id: nat, p: Pc, c: Choice)
    requires (p.RelPush? || p.RelCount? || p.Done?) && Before(sl, rest, n, p)
    ensures var e := TeardownStep(sl, me, id, p, c); FlagInv(e.slot, Around(rest, e))
  {
  }

  lemma TeardownKeepsFlag(sl: Slot, rest: Sums, n: nat, me: nat, id: nat, p: Pc, c: Choice)
    requires TeardownPc(p) && Before(sl, rest, n, p)
    ensures var e := TeardownStep(sl, me, id, p, c); FlagInv(e.slot, Around(rest, e))
  {
    if p.ReleasePosted? || p.RelQueue? || p.RelBatch? {
      DrainKeepsFlag(sl, rest, n, me, id, p, c);
    } else {
      ReturnKeepsFlag(sl, rest, n, me, id, p, c);
    }
  }

  lemma TeardownKeepsQueue(sl: Slot, rest: Sums, n: nat, me: nat, id: nat, p: Pc, c: Choice)
    requires TeardownPc(p) && Before(sl, rest, n, p)
    ensures var e := TeardownStep(sl, me, id, p, c); QueueInv(e.slot, Around(rest, e))
  {
  }

  lemma DrainKeepsRelease(sl: Slot, rest: Sums, n: nat, me: nat, id: nat, p: Pc, c: Choice)
    requires (p.ReleasePosted? || p.RelQueue? || p.RelBatch?) && Before(sl, rest, n, p)
    ensures var e := TeardownStep(sl, me, id, p, c); ReleaseInv(e.slot, Around(rest, e))
  {
  }

  lemma ReturnKeepsRelease(sl: Slot, rest: Sums, n: nat, me: nat, id: nat, p: Pc, c: Choice)
    requires (p.RelPush? || p.RelCount? || p.Done?) && Before(sl, rest, n, p)
    ensures var e := TeardownStep(sl, me, id, p, c); ReleaseInv(e.slot, Around(rest, e))
  {
  }

  lemma TeardownKeepsRelease(sl: Slot, rest: Sums, n: nat, me: nat, id: nat, p: Pc, c: Choice)
    requires TeardownPc(p) && Before(sl, rest, n, p)
    ensures var e := TeardownStep(sl, me, id, p, c); ReleaseInv(e.slot, Around(rest, e))
  {
    if p.ReleasePosted? || p.RelQueue? || p.RelBatch? {
      DrainKeepsRelease(sl, rest, n, me, id, p, c);
    } else {
      ReturnKeepsRelease(sl, rest, n, me, id, p, c);
    }
  }

  lemma LockKeepsSlot(sl: Slot, rest: Sums, n: nat, me: nat, id: nat, p: Pc, c: Choice)
    requires LockPc(p) && Before(sl, rest, n, p)
    ensures var e := LockStep(sl, me, id, p, c); SlotInv(e.slot, Around(rest, e))
  {
    LockKeepsCount(sl, rest, n, me, id, p, c);
    LockKeepsFlag(sl, rest, n, me, id, p, c);
    LockKeepsQueue(sl, rest, n, me, id, p, c);
    LockKeepsRelease(sl, rest, n, me, id, p, c);
  }

  lemma DropKeepsSlot(sl: Slot, rest: Sums, n: nat, me: nat, id: nat, p: Pc, c: Choice)
    requires DropPc(p) && Before(sl, rest, n, p)
    ensures var e := DropStep(sl, me, id, p, c); SlotInv(e.slot, Around(rest, e))
  {
    DropKeepsCount(sl, rest, n, me, id, p, c);
    DropKeepsFlag(sl, rest, n, me, id, p, c);
    DropKeepsQueue(sl, rest, n, me, id, p, c);
    DropKeepsRelease(sl, rest, n, me, id, p, c);
  }

  lemma PushKeepsSlot(sl: Slot, rest: Sums, n: nat, me: nat, id: nat, p: Pc, c: Choice)
    requires PushPc(p) && Before(sl, rest, n, p)
    ensures var e := PushStep(sl, me, id, p, c); SlotInv(e.slot, Around(rest, e))
  {
    PushKeepsCount(sl, rest, n, me, id, p, c);
    PushKeepsFlag(sl, rest, n, me, id, p, c);
    PushKeepsQueue(sl, rest, n, me, id, p, c);
    PushKeepsRelease(sl, rest, n, me, id, p, c);
  }

  lemma RecvKeepsSlot(sl: Slot, rest: Sums, n: nat, me: nat, id: nat, p: Pc, c: Choice)
    requires RecvPc(p) && Before(sl, rest, n, p)
    ensures var e := RecvStep(sl, me, id, p, c); SlotInv(e.slot, Around(rest, e))
  {
    RecvKeepsCount(sl, rest, n, me, id, p, c);
    RecvKeepsFlag(sl, rest, n, me, id, p, c);
    RecvKeepsQueue(sl, rest, n, me, id, p, c);
    RecvKeepsRelease(sl, rest, n, me, id, p, c);
  }

  lemma SendKeepsSlot(sl: Slot, rest: Sums, n: nat, me: nat, id: nat, p: Pc, c: Choice)
    requires SendPc(p) && Before(sl, rest, n, p)
    ensures var e := SendStep(sl, me, id, p, c); SlotInv(e.slot, Around(rest, e))
  {
    SendKeepsCount(sl, rest, n, me, id, p, c);
    SendKeepsFlag(sl, rest, n, me, id, p, c);
    SendKeepsQueue(sl, rest, n, me, id, p, c);
    SendKeepsRelease(sl, rest, n, me, id, p, c);
  }

  lemma BatchKeepsSlot(sl: Slot, rest: Sums, n: nat, me: nat, id: nat, p: Pc, c: Choice)
    requires BatchPc(p) && Before(sl, rest, n, p)
    ensures var e := BatchStep(sl, me, id, p, c); SlotInv(e.slot, Around(rest, e))
  {
    BatchKeepsCount(sl, rest, n, me, id, p, c);
    BatchKeepsFlag(sl, rest, n, me, id, p, c);
    BatchKeepsQueue(sl, rest, n, me, id, p, c);
    BatchKeepsRelease(sl, rest, n, me, id, p, c);
  }

  lemma TeardownKeepsSlot(sl: Slot, rest: Sums, n: nat, me: nat, id: nat, p: Pc, c: Choice)
    requires TeardownPc(p) && Before(sl, rest, n, p)
    ensures var e := TeardownStep(sl, me, id, p, c); SlotInv(e.slot, Around(rest, e))
  {
    TeardownKeepsCount(sl, rest, n, me, id, p, c);
    TeardownKeepsFlag(sl, rest, n, me, id, p, c);
    TeardownKeepsQueue(sl, rest, n, me, id, p, c);
    TeardownKeepsRelease(sl, rest, n, me, id, p, c);
  }

  /** Every atomic action of every activity keeps the slot invariant. */
  lemma StepKeepsSlot(sl: Slot, rest: Sums, n: nat, me: nat, id: nat, p: Pc, c: Choice, e: Effect)
    requires Before(sl, rest, n, p) && e == Step(sl, me, id, p, c)
    ensures SlotInv(e.slot, Around(rest, e))
  {
    if LockPc(p) {
      LockKeepsSlot(sl, rest, n, me, id, p, c);
    } else if DropPc(p) {
      DropKeepsSlot(sl, rest, n, me, id, p, c);
    } else if PushPc(p) {
      PushKeepsSlot(sl, rest, n, me, id, p, c);
    } else if RecvPc(p) {
      RecvKeepsSlot(sl, rest, n, me, id, p, c);
    } else if SendPc(p) {
      SendKeepsSlot(sl, rest, n, me, id, p, c);
    } else if BatchPc(p) {
      BatchKeepsSlot(sl, rest, n, me, id, p, c);
    } else {
      TeardownKeepsSlot(sl, rest, n, me, id, p, c);
    }
  }
}
