/** What connections deliver of encoded messages, whatever the completions, and when the ring is too small. */
module Delivery {
  import opened Bytes
  import opened Cipher
  import Framing
  import FramingRun
  import opened Receiver

  type Chunks = seq<seq<Byte>>

  // ---- messages that a sender built

  /** A message whose header states its payload's length, short enough for DeCoding and for the server's limit. */
  predicate Sendable(m: seq<Byte>, max: nat) {
    HEADER <= |m| <= BUFFER + CHECK && DataLen(m[..HEADER]) == |m| - HEADER < max
  }

  predicate AllSendable(ms: seq<seq<Byte>>, max: nat) {
    forall i :: 0 <= i < |ms| ==> Sendable(ms[i], max)
  }

  /** The messages as sent, each under its own random key. */
  function Sent(ms: seq<seq<Byte>>, keys: seq<Byte>, max: nat): seq<seq<Byte>>
    requires |keys| == |ms| && AllSendable(ms, max)
  {
    seq(|ms|, i requires 0 <= i < |ms| => Encode(ms[i], keys[i]))
  }

  /** EnCoding keeps the length field, so its result is cut where it ends, passes, and yields the payload. */
  lemma EncodedIsExact(m: seq<Byte>, rk: Byte, max: nat)
    requires Sendable(m, max)
    ensures Framing.Exact(Encode(m, rk), Rules(max))
    ensures Payload(Encode(m, rk)) == m[HEADER..]
  {
    var e := Encode(m, rk);
    DecodeEncode(m, rk);
    assert e[..HEADER][1] == m[1] && e[..HEADER][2] == m[2];
    assert DataLen(e[..HEADER]) == DataLen(m[..HEADER]);
    assert Decode(e).m[HEADER..] == m[HEADER..];
  }

  lemma PayloadsAt(ms: seq<seq<Byte>>)
    ensures |Payloads(ms)| == |ms|
    ensures forall i :: 0 <= i < |ms| ==> Payloads(ms)[i] == Payload(ms[i])
  {
    FramingRun.EachAt(Payload, ms);
  }

  /** OnRecv has been given the payloads of the first messages sent, in order; of all of them when `all`. */
  ghost predicate Delivered(given: seq<seq<Byte>>, ms: seq<seq<Byte>>, all: bool)
    requires forall m :: m in ms ==> |m| >= HEADER
  {
    && |given| <= |ms|
    && (all ==> |given| == |ms|)
    && (forall i :: 0 <= i < |given| ==> given[i] == ms[i][HEADER..])
  }

  lemma SentIsExact(ms: seq<seq<Byte>>, keys: seq<Byte>, max: nat)
    requires |keys| == |ms| && AllSendable(ms, max)
    ensures forall i :: 0 <= i < |ms| ==>
              Framing.Exact(Sent(ms, keys, max)[i], Rules(max)) && Payload(Sent(ms, keys, max)[i]) == ms[i][HEADER..]
  {
    forall i | 0 <= i < |ms|
      ensures Framing.Exact(Sent(ms, keys, max)[i], Rules(max))
      ensures Payload(Sent(ms, keys, max)[i]) == ms[i][HEADER..]
    {
      EncodedIsExact(ms[i], keys[i], max);
    }
  }

  /**
   * Messages sent back to back under any keys are delivered once each, in order, with nothing left in the ring,
   * however the stream is split; a completion that carries too many at once cuts the delivery short.
   */
  lemma EncodedArrive(ms: seq<seq<Byte>>, keys: seq<Byte>, chunks: Chunks, max: nat, cap: nat)
    requires |keys| == |ms| && AllSendable(ms, max)
    requires FramingRun.Fits(chunks, Rules(max), cap)
    requires Framing.Flat(chunks) == Framing.Flat(Sent(ms, keys, max))
    ensures var c := FramingRun.Run(chunks, Rules(max));
            && Delivered(Payloads(c.frames), ms, c.end != Framing.OverSend)
            && (c.end != Framing.OverSend ==> c.end == Framing.Again && c.rest == [])
  {
    var sent := Sent(ms, keys, max);
    SentIsExact(ms, keys, max);
    FramingRun.MessagesArrive(sent, chunks, Rules(max), cap);
    PayloadsAt(FramingRun.Run(chunks, Rules(max)).frames);
  }

  lemma SentAtLeast(ms: seq<seq<Byte>>, keys: seq<Byte>, max: nat, l: nat)
    requires |keys| == |ms| && AllSendable(ms, max) && FramingRun.AtLeast(ms, l)
    ensures FramingRun.AtLeast(Sent(ms, keys, max), l)
  {
    forall i | 0 <= i < |ms| ensures |Encode(ms[i], keys[i])| >= l { DecodeEncode(ms[i], keys[i]); }
  }

  /**
   * When every message has at least `l` bytes, and the ring does not hold 149 of that size and a header, all of them
   * are delivered: no completion can carry too many.
   */
  lemma LongEncodedArrive(ms: seq<seq<Byte>>, keys: seq<Byte>, chunks: Chunks, max: nat, cap: nat, l: nat)
    requires |keys| == |ms| && AllSendable(ms, max) && FramingRun.Fits(chunks, Rules(max), cap)
    requires Framing.Flat(chunks) == Framing.Flat(Sent(ms, keys, max))
    requires FramingRun.AtLeast(ms, l) && cap <= 149 * l + 5
    ensures var c := FramingRun.Run(chunks, Rules(max));
            Delivered(Payloads(c.frames), ms, true) && c.end == Framing.Again && c.rest == []
  {
    var sent := Sent(ms, keys, max);
    SentAtLeast(ms, keys, max, l);
    SentIsExact(ms, keys, max);
    FramingRun.LongMessagesArrive(sent, chunks, Rules(max), cap, l);
    EncodedArrive(ms, keys, chunks, max, cap);
  }

  // ---- too many messages at once

  /** Some stream of messages of at least `l` bytes is given up for too many of them in one completion. */
  ghost predicate GivesUp(max: nat, cap: nat, l: nat) {
    exists chunks: Chunks ::
      FramingRun.Fits(chunks, Rules(max), cap) && FramingRun.Run(chunks, Rules(max)).end == Framing.OverSend &&
      FramingRun.AtLeast(Framing.Parse(Framing.Flat(chunks), Rules(max)).frames, l)
  }

  /** A message of `l` bytes as a sender builds it. */
  lemma SomeMessage(l: nat, max: nat) returns (m: seq<Byte>)
    requires HEADER <= l <= BUFFER + CHECK && max > l - HEADER
    ensures |m| == l && Framing.Exact(m, Rules(max))
  {
    LengthBytes(l - HEADER);
    var h: seq<Byte> :| |h| == HEADER && DataLen(h) == l - HEADER;
    var plain := h + seq(l - HEADER, _ => 0);
    assert plain[..HEADER] == h;
    EncodedIsExact(plain, 0, max);
    DecodeEncode(plain, 0);
    m := Encode(plain, 0);
  }

  /** The messages of a completion given up are within the length limit. */
  lemma GivenUpNeeds(chunks: Chunks, max: nat, cap: nat, l: nat)
    requires FramingRun.Fits(chunks, Rules(max), cap) && FramingRun.Run(chunks, Rules(max)).end == Framing.OverSend
    requires FramingRun.AtLeast(Framing.Parse(Framing.Flat(chunks), Rules(max)).frames, l)
    ensures l < max + HEADER && cap > (Framing.OVERSEND - 1) * l + HEADER
  {
    var all := Framing.Parse(Framing.Flat(chunks), Rules(max)).frames;
    if cap <= (Framing.OVERSEND - 1) * l + HEADER { FramingRun.NeverGivenUp(chunks, Rules(max), cap, l); }
    FramingRun.GivenUpHasMessages(chunks, Rules(max), cap);
    Framing.ParseIsExact(Framing.Flat(chunks), Rules(max));
    assert all[0] in all;
  }

  /**
   * A connection whose messages all have at least `l` bytes can be given up for too many in one completion exactly when
   * the limit lets such messages through and the ring holds 149 of them with another header.
   */
  lemma GivesUpExactly(max: nat, cap: nat, l: nat)
    requires 5 <= l <= 1004
    ensures GivesUp(max, cap, l) <==> max > l - 5 && cap > 149 * l + 5
  {
    if GivesUp(max, cap, l) {
      var chunks: Chunks :|
        FramingRun.Fits(chunks, Rules(max), cap) && FramingRun.Run(chunks, Rules(max)).end == Framing.OverSend &&
        FramingRun.AtLeast(Framing.Parse(Framing.Flat(chunks), Rules(max)).frames, l);
      GivenUpNeeds(chunks, max, cap, l);
    }
    if max > l - HEADER && cap > (Framing.OVERSEND - 1) * l + HEADER {
      var m := SomeMessage(l, max);
      var chunks := FramingRun.GivesUpOn(m, Rules(max), cap);
    }
  }

  ghost predicate SomeGivesUp(max: nat, cap: nat) {
    exists chunks: Chunks ::
      FramingRun.Fits(chunks, Rules(max), cap) && FramingRun.Run(chunks, Rules(max)).end == Framing.OverSend
  }

  /** And of all connections: some is given up exactly with a limit above 0 and a ring above 750 bytes. */
  lemma SomeGivesUpExactly(max: nat, cap: nat)
    ensures SomeGivesUp(max, cap) <==> max > 0 && cap > 750
  {
    GivesUpExactly(max, cap, HEADER);
    if SomeGivesUp(max, cap) {
      var chunks: Chunks :|
        FramingRun.Fits(chunks, Rules(max), cap) && FramingRun.Run(chunks, Rules(max)).end == Framing.OverSend;
      FramingRun.CutHasHeader(Framing.Flat(chunks), Rules(max));
      assert GivesUp(max, cap, HEADER);
    }
    if max > 0 && cap > 750 {
      assert GivesUp(max, cap, HEADER);
    }
  }

  // ---- the ring against the length limit

  lemma LengthBytes(n: nat)
    requires n < 0x10000
    ensures exists h: seq<Byte> :: |h| == HEADER && DataLen(h) == n
  {
    var lo, hi := n % 256, n / 256;
    ByteValue(lo);
    ByteValue(hi);
    TwoBytes(lo as Byte, hi as Byte, lo, hi);
  }

  lemma TwoBytes(b: Byte, c: Byte, lo: nat, hi: nat)
    requires b as nat == lo && c as nat == hi
    ensures exists h: seq<Byte> :: |h| == HEADER && DataLen(h) == lo + 256 * hi
  {
    var h: seq<Byte> := [0, b, c, 0, 0];
    assert DataLen(h) == lo + 256 * hi;
  }

  ghost predicate Clogs(max: nat, cap: nat) {
    exists chunks: Chunks :: FramingRun.Fits(chunks, Rules(max), cap) &&
      FramingRun.Run(chunks, Rules(max)).end == Framing.Again &&
      !FramingRun.Posted(FramingRun.Run(chunks, Rules(max)), cap)
  }

  /** The length field has two bytes. */
  lemma LengthFits(h: seq<Byte>)
    ensures DataLen(h) < 0x10000
  {
  }

  /**
   * Some stream fills the ring with an unfinished message, which ends the connection, exactly when the limit on a
   * message's length reaches what the ring can hold, and so can the length field.
   */
  lemma ClogsExactly(max: nat, cap: nat)
    requires 5 < cap
    ensures Clogs(max, cap) <==> max > cap - 5 && cap <= 0xFFFF + 5
  {
    if Clogs(max, cap) {
      var chunks: Chunks :| FramingRun.Fits(chunks, Rules(max), cap) &&
        FramingRun.Run(chunks, Rules(max)).end == Framing.Again &&
        !FramingRun.Posted(FramingRun.Run(chunks, Rules(max)), cap);
      FramingRun.NeverFull(chunks, Rules(max), cap);
      LengthFits(FramingRun.Run(chunks, Rules(max)).rest[..HEADER]);
    }
    if max > cap - HEADER && cap <= 0xFFFF + HEADER {
      LengthBytes(cap - HEADER);
      var h: seq<Byte> :| |h| == HEADER && DataLen(h) == cap - HEADER;
      FramingRun.FullOnTooLong(h, 0, Rules(max), cap);
    }
  }

  /** Some stream makes a completion take a whole message that is larger than the message buffer. */
  ghost predicate Overruns(max: nat, cap: nat) {
    exists chunks: Chunks ::
      FramingRun.Fits(chunks, Rules(max), cap) && FramingRun.Run(chunks, Rules(max)).end == Framing.Overrun
  }

  /**
   * A message of more than 2000 bytes is written past the end of its buffer exactly when the limit lets its length
   * through and the ring can hold it. The defaults, 5000 and 2048, do both.
   */
  lemma OverrunsExactly(max: nat, cap: nat)
    ensures Overruns(max, cap) <==> max > 1996 && cap > 2001
  {
    if Overruns(max, cap) {
      var chunks: Chunks :|
        FramingRun.Fits(chunks, Rules(max), cap) && FramingRun.Run(chunks, Rules(max)).end == Framing.Overrun;
      FramingRun.OverrunNeeds(chunks, Rules(max), cap);
    }
    if max > MESSAGE - HEADER + 1 && cap > MESSAGE + 1 {
      LengthBytes(MESSAGE - HEADER + 1);
      var h: seq<Byte> :| |h| == HEADER && DataLen(h) == MESSAGE - HEADER + 1;
      FramingRun.OverrunBy(h, 0, Rules(max), cap);
    }
  }
}
