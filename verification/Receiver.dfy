/** The receiving side of a session over its ring buffer, with the server's header and cipher. */
module Receiver {
  import opened Cipher
  import RingBuffer
  import Framing
  import FramingRun

  type Cut = Framing.Cut<Byte>

  /** `sDataLen`: two bytes, little endian, behind `byCode`. */
  function DataLen(h: seq<Byte>): nat {
    if |h| == HEADER then h[1] as nat + 256 * (h[2] as nat) else 0
  }

  /** A header that states 0x234 bytes. */
  lemma LengthExample()
    ensures DataLen([0x77, 0x34, 0x02, 0xAA, 0xBB]) == 0x234
  {
    assert 0x34 as Byte as nat == 0x34 && 0x02 as Byte as nat == 2;
  }

  /** DeCoding accepts the message. */
  predicate Passes(m: seq<Byte>) {
    |m| >= HEADER && Decode(m).ok
  }

  /** `MaxSize` of CMessage, whose `_begin[]` is followed by its own pointers. */
  const MESSAGE: nat := 2000

  function Rules(max: nat): Framing.Rules<Byte> {
    Framing.Rules(DataLen, Passes, max, MESSAGE)
  }

  /** What OnRecv is given of a message: the decoded bytes behind the header. */
  function Payload(m: seq<Byte>): seq<Byte> {
    if |m| >= HEADER then Decode(m).m[HEADER..] else []
  }

  /** The session goes on, as far as the code says. */
  predicate Survives(end: Framing.End) { end == Framing.Again || end == Framing.Overrun }

  function Payloads(ms: seq<seq<Byte>>): seq<seq<Byte>> {
    FramingRun.Each(Payload, ms)
  }

  lemma PayloadsSnoc(ms: seq<seq<Byte>>, m: seq<Byte>)
    ensures Payloads(ms + [m]) == Payloads(ms) + [Payload(m)]
  {
    FramingRun.EachSnoc(Payload, ms, m);
  }

  lemma GivenNone(start: seq<seq<Byte>>)
    ensures start + Payloads([]) == start
  {
  }

  /** One more payload behind those given before. */
  lemma GivenNext(start: seq<seq<Byte>>, done: seq<seq<Byte>>, m: seq<Byte>)
    ensures start + Payloads(done + [m]) == (start + Payloads(done)) + [Payload(m)]
  {
    PayloadsSnoc(done, m);
  }

  /** A whole message at the front: it is more than a message buffer holds, or it is cut off, or refused. */
  lemma CutsOne(all: Cut, done: seq<seq<Byte>>, s: seq<Byte>, max: nat, count: nat, len: nat)
    requires FramingRun.Midway(all, done, s, Rules(max), count) && count + 1 < Framing.OVERSEND
    requires Framing.Whole(s, Rules(max)) && len == DataLen(s[..HEADER])
    ensures len + HEADER <= |s|
    ensures len + HEADER > MESSAGE ==> all == Framing.Cut(done, [], s, Framing.Overrun)
    ensures len + HEADER <= MESSAGE ==>
              var m, rest := s[..len + HEADER], s[len + HEADER..];
              if Passes(m) then FramingRun.Midway(all, done + [m], rest, Rules(max), count + 1)
              else all == Framing.Cut(done, m, rest, Framing.BadSum)
  {
    if len + HEADER > MESSAGE {
      FramingRun.Stops(all, done, s, Rules(max), count);
    } else {
      CutsWhole(all, done, s, max, count, len);
    }
  }

  lemma CutsWhole(all: Cut, done: seq<seq<Byte>>, s: seq<Byte>, max: nat, count: nat, len: nat)
    requires FramingRun.Midway(all, done, s, Rules(max), count) && count + 1 < Framing.OVERSEND
    requires Framing.Taken(s, Rules(max)) && len == DataLen(s[..HEADER])
    ensures |s| >= len + HEADER
    ensures var m, rest := s[..len + HEADER], s[len + HEADER..];
            if Passes(m) then FramingRun.Midway(all, done + [m], rest, Rules(max), count + 1)
            else all == Framing.Cut(done, m, rest, Framing.BadSum)
  {
    FramingRun.Advances(all, done, s, Rules(max), count, len + HEADER);
  }

  class Session {
    const recvBuffer: RingBuffer.CRingBuffer
    const maxMsgLen: nat
    /** `m_blive`, whether a receive is outstanding, and the payloads given to OnRecv so far. */
    var live: bool
    var posted: bool
    var given: seq<seq<Byte>>

    ghost predicate Valid()
      reads this, recvBuffer
    {
      recvBuffer.Valid() && recvBuffer.data.Length > HEADER
    }

    constructor (size: nat, max: nat)
      requires size > HEADER
      ensures Valid() && fresh(recvBuffer) && fresh(recvBuffer.data) && recvBuffer.data.Length == size
      ensures maxMsgLen == max
      ensures recvBuffer.Contents() == [] && given == [] && live && !posted
    {
      recvBuffer := new RingBuffer.CRingBuffer(size);
      maxMsgLen := max;
      live, posted, given := true, false, [];
    }

    /** Null exactly when the ring holds less than the header promised; `overran` when it holds all of that, and that
        is more than a message has room for: Dequeue then writes past `_begin[]`, and this model stops. */
    method CreateMessage(len: nat) returns (msg: array?<Byte>, overran: bool)
      requires Valid()
      modifies recvBuffer
      ensures Valid()
      ensures overran <==> 2000 < len + 5 <= old(|recvBuffer.Contents()|)
      ensures msg == null <==> overran || old(|recvBuffer.Contents()|) < len + HEADER
      ensures msg == null ==> recvBuffer.Contents() == old(recvBuffer.Contents())
      ensures msg != null ==> fresh(msg) && msg.Length == 2000 >= len + HEADER
      ensures msg != null ==> msg[..len + HEADER] == old(recvBuffer.Contents())[..len + HEADER]
      ensures msg != null ==> recvBuffer.Contents() == old(recvBuffer.Contents())[len + HEADER..]
    {
      var m := new Byte[MESSAGE];
      var useSize := recvBuffer.GetUseSize();
      overran := m.Length < len + HEADER <= useSize;
      if overran { return null, overran; }
      var n := recvBuffer.Dequeue(m, len + HEADER);
      msg := if len + HEADER != n then null else m;
    }

    /** Posts the next receive while the session lives; a full ring ends it, and so does a WSARecv that `fails`. */
    method RecvPacket(fails: bool)
      requires Valid() && !posted
      modifies this
      ensures live == posted == (old(live) && |recvBuffer.Contents()| < recvBuffer.data.Length - 1 && !fails)
      ensures given == old(given)
    {
      var freeSize := recvBuffer.GetFreeSize();
      if freeSize == 0 {
        live := false;
        return;
      }
      if live {
        posted := !fails;
        if fails { live := false; }
      }
    }

    /** The next message, decoded and given to OnRecv; a bad checksum ends the session instead. */
    method TakeMessage(len: nat) returns (ok: bool, overran: bool)
      requires Valid() && |recvBuffer.Contents()| >= len + HEADER
      modifies this, recvBuffer
      ensures Valid() && posted == old(posted)
      ensures overran == (len + 5 > 2000)
      ensures overran ==> recvBuffer.Contents() == old(recvBuffer.Contents())
      ensures overran ==> given == old(given) && live == old(live)
      ensures !overran ==> recvBuffer.Contents() == old(recvBuffer.Contents())[len + HEADER..]
      ensures var m := old(recvBuffer.Contents())[..len + HEADER];
              && ok == (!overran && Passes(m))
              && (!overran ==> given == (if ok then old(given) + [Payload(m)] else old(given)))
              && (!overran ==> live == (old(live) && ok))
    {
      ok := false;
      var made;
      made, overran := CreateMessage(len);
      if overran { return; }
      var msg: array<Byte> := made;
      ok := DeCoding(msg, len + HEADER);
      if !ok {
        live := false;
        return;
      }
      given := given + [msg[HEADER..len + HEADER]];
      assert msg[HEADER..len + HEADER] == msg[..len + HEADER][HEADER..];
    }

    /** Whether a whole header has come, and the length it states. */
    method PeekHeader() returns (whole: bool, len: nat)
      requires Valid()
      ensures whole == (|recvBuffer.Contents()| >= HEADER)
      ensures whole ==> len == DataLen(recvBuffer.Contents()[..HEADER])
    {
      var header := new Byte[HEADER];
      var n := recvBuffer.Peek(header, HEADER);
      whole := n == HEADER;
      if whole { assert header[..] == recvBuffer.Contents()[..HEADER]; }
      len := DataLen(header[..]);
    }

    /** One iteration of the loop, from `done` messages cut and `s` left to `next` and `rest`; `end` says why it is the
        last. */
    method CutNext(msgCount: nat, ghost all: Cut, ghost done: seq<seq<Byte>>, ghost s: seq<Byte>,
                   ghost start: seq<seq<Byte>>)
      returns (more: bool, end: Framing.End, ghost next: seq<seq<Byte>>, ghost rest: seq<Byte>)
      requires Valid() && !posted && msgCount < Framing.OVERSEND && recvBuffer.Contents() == s
      requires given == start + Payloads(done)
      requires FramingRun.Midway(all, done, s, Rules(maxMsgLen), msgCount)
      modifies this, recvBuffer
      ensures Valid() && !posted && live == (old(live) && Survives(end)) && recvBuffer.Contents() == rest
      ensures given == start + Payloads(next)
      ensures more ==> end == Framing.Again && msgCount + 1 < Framing.OVERSEND
      ensures more ==> FramingRun.Midway(all, next, rest, Rules(maxMsgLen), msgCount + 1)
      ensures !more ==> end == all.end && all.frames == next && all.rest == rest
    {
      FramingRun.Stops(all, done, s, Rules(maxMsgLen), msgCount);
      next, rest := done, s;
      var whole, len := PeekHeader();
      if !whole { return false, Framing.Again, next, rest; }
      if msgCount + 1 >= Framing.OVERSEND || len >= maxMsgLen {
        live := false;
        return false, if msgCount + 1 >= Framing.OVERSEND then Framing.OverSend else Framing.TooLong, next, rest;
      }
      var useSize := recvBuffer.GetUseSize();
      if useSize < len + HEADER { return false, Framing.Again, next, rest; }
      end, next, rest := Deliver(len, msgCount, all, done, s, start);
      more := end == Framing.Again;
    }

    /** The iteration's last part, on a whole message. */
    method Deliver(len: nat, ghost msgCount: nat, ghost all: Cut, ghost done: seq<seq<Byte>>, ghost s: seq<Byte>,
                   ghost start: seq<seq<Byte>>)
      returns (end: Framing.End, ghost next: seq<seq<Byte>>, ghost rest: seq<Byte>)
      requires Valid() && recvBuffer.Contents() == s && given == start + Payloads(done)
      requires FramingRun.Midway(all, done, s, Rules(maxMsgLen), msgCount) && msgCount + 1 < Framing.OVERSEND
      requires Framing.Whole(s, Rules(maxMsgLen)) && len == DataLen(s[..HEADER])
      modifies this, recvBuffer
      ensures Valid() && posted == old(posted) && live == (old(live) && Survives(end)) && recvBuffer.Contents() == rest
      ensures given == start + Payloads(next)
      ensures end == Framing.Again ==> FramingRun.Midway(all, next, rest, Rules(maxMsgLen), msgCount + 1)
      ensures end != Framing.Again ==> end == all.end && all.frames == next && all.rest == rest
    {
      CutsOne(all, done, s, maxMsgLen, msgCount, len);
      var ok, overran := TakeMessage(len);
      if overran { return Framing.Overrun, done, s; }
      ghost var m := s[..len + HEADER];
      rest := s[len + HEADER..];
      if ok {
        GivenNext(start, done, m);
        end, next := Framing.Again, done + [m];
      } else {
        end, next := Framing.BadSum, done;
      }
    }

    /** The loop over one completion, which cuts `all`; it ends early when the session is given up. */
    method CutMessages(ghost all: Cut, ghost start: seq<seq<Byte>>, ghost alive: bool) returns (end: Framing.End)
      requires Valid() && !posted && live == alive && given == start + Payloads([])
      requires FramingRun.Midway(all, [], recvBuffer.Contents(), Rules(maxMsgLen), 0)
      modifies this, recvBuffer
      ensures Valid() && !posted
      ensures recvBuffer.Contents() == all.rest
      ensures given == start + Payloads(all.frames)
      ensures end == all.end
      ensures live == (alive && Survives(end))
    {
      var msgCount := 0;
      ghost var done: seq<seq<Byte>> := [];
      ghost var left := recvBuffer.Contents();
      var more := true;
      end := Framing.Again;
      while more
        invariant Valid() && !posted && recvBuffer.Contents() == left
        invariant live == (alive && Survives(end)) && given == start + Payloads(done)
        invariant more ==> end == Framing.Again && msgCount < Framing.OVERSEND
        invariant more ==> FramingRun.Midway(all, done, left, Rules(maxMsgLen), msgCount)
        invariant !more ==> end == all.end && all.frames == done && all.rest == left
        decreases more, Framing.OVERSEND - msgCount
      {
        more, end, done, left := CutNext(msgCount, all, done, left, start);
        msgCount := msgCount + 1;
      }
    }

    /** One completion that brought the bytes `d` into the ring. Up to an overrun of the message buffer it does what
        Drain says; what follows one is not said. */
    method RecvComplete(ghost was: seq<Byte>, ghost d: seq<Byte>, transferred: nat, fails: bool)
      returns (overran: bool)
      requires Valid() && !posted && |was| == recvBuffer.data.Length
      requires |d| == transferred <= RingBuffer.Free(|was|, recvBuffer.front, recvBuffer.rear)
      requires RingBuffer.Written(was, recvBuffer.data[..], recvBuffer.front, recvBuffer.rear, d)
      modifies this, recvBuffer
      ensures Valid()
      ensures var b := old(RingBuffer.Held(was, recvBuffer.front, recvBuffer.rear)) + d;
              var c := Framing.Drain(b, Rules(maxMsgLen), 0);
              && overran == (c.end == Framing.Overrun)
              && recvBuffer.Contents() == c.rest
              && given == old(given) + Payloads(c.frames)
              && (!overran ==>
                    live == posted == (old(live) && FramingRun.Posted(c, recvBuffer.data.Length) && !fails))
    {
      recvBuffer.MoveRear(was, d, transferred);
      ghost var b := recvBuffer.Contents();
      FramingRun.Started(b, Rules(maxMsgLen));
      GivenNone(given);
      var end := CutMessages(Framing.Drain(b, Rules(maxMsgLen), 0), given, live);
      if end == Framing.Again { RecvPacket(fails); }
      overran := end == Framing.Overrun;
    }
  }
}
