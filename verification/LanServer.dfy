/** CLanServer as an object: its sessions, the index stack, the counters, and the activities in flight. */
module LanServer {
  import opened SessionStep
  import opened Server
  import SessionObject

  class LanServer {
    const sessions: seq<SessionObject.Session>
    var acts: seq<Act>
    /** `m_SessionIdxStack`, its top first, and `m_SessionCount`. */
    var free: seq<nat>
    var sessionCount: int
    var accept: Accept
    /** `session_id`, and every ID built from it so far. */
    var nextId: nat
    ghost var issued: seq<nat>
    /** `iUseCnt` of every message in use. */
    var uses: map<nat, int>
    ghost var slots: seq<Slot>
    ghost const parts: set<object>

    ghost predicate Mirrors(i: nat)
      requires i < |sessions| && i < |slots|
      reads this`slots, sessions[i]
    {
      sessions[i] in parts && sessions[i].Now() == slots[i]
    }

    ghost predicate Valid()
      reads this, parts
    {
      && this !in parts
      && (forall i :: 0 <= i < |sessions| ==> sessions[i] in parts)
      && (forall i, j :: 0 <= i < j < |sessions| ==> sessions[i] != sessions[j])
      && |slots| == |sessions| && nextId == |issued|
      && (forall i :: 0 <= i < |sessions| ==> Mirrors(i))
    }

    /** The server, as a value. */
    ghost function Now(): State
      reads this
    {
      State(slots, acts, free, accept, sessionCount, issued, uses)
    }

    /** One atomic action of an activity on session `i`. */
    method Touch(i: nat, me: nat, id: nat, p: Pc, c: Choice) returns (pc: Pc, spawn: Spawn, freed: Freed)
      requires Valid() && i < |sessions|
      modifies this`slots, parts
      ensures Valid()
      ensures Effect(slots[i], pc, spawn, freed) == Step(old(slots)[i], me, id, p, c)
      ensures slots == old(slots)[i := slots[i]]
    {
      assert Mirrors(i);
      pc, spawn, freed := sessions[i].Move(me, id, p, c);
      slots := slots[i := sessions[i].Now()];
      forall k | 0 <= k < |sessions|
        ensures Mirrors(k)
      {
        assert old(Mirrors(k));
      }
    }

    /** `stTlsObjectPool<CMessage>::Release` on the share of delivery `d`: the use count goes down. */
    method ReleaseShare(d: nat, ghost was: seq<Act>)
      requires d < |was| <= |acts| && acts[d].load == was[d].load
      modifies this`acts, this`uses
      ensures acts == FreeOne(old(acts), d)
      ensures uses == UsesAfter(old(uses), was, Effect(NEWSLOT, Done, Nothing, Freed(d)))
    {
      acts := acts[d := acts[d].(freed := acts[d].freed + 1)];
      match acts[d].load {
        case Msg(m) =>
          if m in uses { uses := uses[m := uses[m] - 1]; }
        case NoMsg =>
      }
    }

    /** The activities and use counts after activity `a` has had the effect `e`. */
    method Apply(a: nat, pc: Pc, spawn: Spawn, freed: Freed, ghost e: Effect)
      requires a < |acts| && e.pc == pc && e.spawn == spawn && e.freed == freed
      modifies this`acts, this`uses
      ensures acts == Applied(old(acts), a, e) && uses == UsesAfter(old(uses), old(acts), e)
    {
      var act := acts[a];
      var count := |acts|;
      ghost var was := acts;
      acts := acts[a := act.(pc := pc, given := act.given || (act.load.Msg? && (act.pc.Push? || act.pc.RejectMsg?)))];
      if spawn.Spawn? { acts := acts + [Act(act.slot, spawn.pc, act.id, NoMsg, false, 0)]; }
      if freed.Freed? && freed.delivery < count { ReleaseShare(freed.delivery, was); }
    }

    /** What an activity at `p` on session `i` does to the index stack and the session count. */
    method Book(i: nat, p: Pc)
      requires Valid() && i < |sessions|
      modifies this`free, this`sessionCount
      ensures free == if p.RelPush? then [slots[i].seqID / BIT47] + old(free) else old(free)
      ensures sessionCount == old(sessionCount) + Pending(p)
    {
      assert Mirrors(i);
      if p.RelPush? { free := [sessions[i].seqID / BIT47] + free; }
      if p.AcceptCount? { sessionCount := sessionCount + 1; }
      if p.RelCount? { sessionCount := sessionCount - 1; }
    }

    /** One atomic action of activity `a`, with what it starts, frees and counts. */
    method Move(a: nat, c: Choice)
      requires Valid() && Can(Now(), Server.Move(a, c))
      modifies this`slots, this`acts, this`free, this`sessionCount, this`uses, parts
      ensures Valid() && Now() == Do(old(Now()), Server.Move(a, c))
      ensures |free| == old(|free|) + (if old(acts)[a].pc == RelPush then 1 else 0)
      ensures free[|free| - old(|free|)..] == old(free)
    {
      var act := acts[a];
      ghost var e := EffectOf(Now(), a, c);
      Book(act.slot, act.pc);
      var pc, spawn, freed := Touch(act.slot, a, act.id, act.pc, c);
      Apply(a, pc, spawn, freed, e);
    }

    /** One write of the accept thread to session `i`. */
    method AcceptWrite(i: nat, w: SessionObject.Write)
      requires Valid() && i < |sessions|
      modifies this`slots, parts
      ensures Valid() && slots == old(slots)[i := SessionObject.Written(old(slots)[i], w)]
    {
      assert Mirrors(i);
      sessions[i].Accept(w);
      slots := slots[i := sessions[i].Now()];
      forall k | 0 <= k < |sessions|
        ensures Mirrors(k)
      {
        assert old(Mirrors(k));
      }
    }

    /** The session's new ID. */
    method AcceptName(i: nat)
      requires Valid() && accept == Naming(i) && i < |sessions|
      modifies this`slots, this`nextId, this`issued, this`accept, parts
      ensures Valid() && Now() == Do(old(Now()), Server.AcceptMove)
    {
      var id := (i * BIT47 + nextId) % WORD;
      AcceptWrite(i, SessionObject.Rename(id));
      nextId := nextId + 1;
      issued := issued + [id];
      accept := Counting(i);
    }

    /** `m_ioCount = 1`: from here on the session is open, and its first receive about to be posted. */
    method AcceptOpen(i: nat)
      requires Valid() && accept == Counting(i) && i < |sessions|
      modifies this`slots, this`acts, this`accept, parts
      ensures Valid() && Now() == Do(old(Now()), Server.AcceptMove)
    {
      AcceptWrite(i, SessionObject.Count);
      assert Mirrors(i);
      acts := acts + [Act(i, AcceptCount, sessions[i].seqID, NoMsg, false, 0)];
      accept := Waiting;
    }

    /** The accept thread's next atomic action; a waiting one takes the top of the index stack. */
    method AcceptMove()
      requires Valid() && Can(Now(), Server.AcceptMove)
      modifies this, parts
      ensures Valid() && Now() == Do(old(Now()), Server.AcceptMove)
      ensures old(accept) == Waiting && old(free) != [] && old(free)[0] < |sessions| ==>
                accept == Opening(old(free)[0]) && free == old(free)[1..]
    {
      match accept {
        case Waiting =>
          if free != [] && free[0] < |sessions| {
            var idx := free[0];
            free := free[1..];
            AcceptWrite(idx, SessionObject.Take);
            accept := Opening(idx);
          }
        case Opening(i) =>
          AcceptWrite(i, SessionObject.GoLive);
          accept := Flagging(i);
        case Flagging(i) =>
          AcceptWrite(i, SessionObject.ClearFlag);
          accept := Naming(i);
        case Naming(i) => AcceptName(i);
        case Counting(i) => AcceptOpen(i);
      }
    }

    /** BroadCast, or Unicast with one target: the use count, then a delivery for every target. */
    method Send(ids: seq<nat>, m: nat)
      requires Valid() && Can(Now(), Server.Send(ids, m))
      modifies this`acts, this`uses
      ensures Valid() && Now() == Do(old(Now()), Server.Send(ids, m))
      ensures uses == old(uses)[m := |ids|]
      ensures |acts| == old(|acts|) + |ids| && acts[..old(|acts|)] == old(acts)
      ensures forall k :: 0 <= k < |ids| ==>
                acts[old(|acts|) + k] == Act(ids[k] / 0x8000_0000_0000, LockInc, ids[k], Msg(m), false, 0)
    {
      uses := uses[m := |ids|];
      var i := 0;
      while i < |ids|
        invariant i <= |ids| && acts == old(acts) + Deliveries(ids[..i], m)
        modifies this`acts
      {
        assert ids[..i + 1][..i] == ids[..i];
        acts := acts + [Act(ids[i] / BIT47, LockInc, ids[i], Msg(m), false, 0)];
        i := i + 1;
      }
      assert ids[..i] == ids;
    }

    method Disconnect(id: nat)
      requires Valid() && Can(Now(), Server.Disconnect(id))
      modifies this`acts
      ensures Valid() && Now() == Do(old(Now()), Server.Disconnect(id))
      ensures acts == old(acts) + [Act(id / 0x8000_0000_0000, DiscInc, id, NoMsg, false, 0)]
    {
      acts := acts + [Act(id / BIT47, DiscInc, id, NoMsg, false, 0)];
    }

    /** Start with `max` sessions: their indices are pushed in order, and nothing runs. */
    constructor (max: nat)
      ensures Valid() && fresh(parts) && |sessions| == max && Init(Now())
    {
      var made: seq<SessionObject.Session> := [];
      ghost var owned: set<object> := {};
      var indices: seq<nat> := [];
      while |made| < max
        invariant |made| == |indices| <= max && fresh(owned)
        invariant forall i :: 0 <= i < |made| ==> made[i] in owned && made[i].Now() == NEWSLOT
        invariant forall i, j :: 0 <= i < j < |made| ==> made[i] != made[j]
        invariant forall k :: 0 <= k < |indices| ==> indices[k] == |made| - 1 - k
        decreases max - |made|
      {
        var one := new SessionObject.Session();
        owned := owned + {one};
        made, indices := made + [one], [|made|] + indices;
      }
      sessions, parts, free := made, owned, indices;
      acts, sessionCount, accept, nextId, issued, uses := [], 0, Waiting, 0, [], map[];
      slots := seq(max, _ => NEWSLOT);
    }
  }
}
