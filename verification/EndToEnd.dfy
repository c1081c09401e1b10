/** From a Proxy call on one side to the Stub's handler on the other, through the cipher, the stream and its cutting. */
module EndToEnd {
  import opened Bytes
  import opened Cipher
  import opened Receiver
  import opened Delivery
  import Framing
  import FramingRun
  import Wire
  import WireTrip

  /** A length argument as PutData and GetData take it: little endian, cut to 32 bits. */
  function Little(b: seq<Byte>): nat {
    if b == [] then 0 else b[0] as nat + 256 * Little(b[1..])
  }

  function Dword(b: seq<Byte>): nat {
    Little(b) % 0x1_0000_0000
  }

  lemma LittleNext(a: Byte, b: seq<Byte>, n: nat)
    requires n == Little(b)
    ensures Little([a] + b) == a as nat + 256 * n
  {
    assert ([a] + b)[1..] == b;
  }

  lemma CutOff(w: nat, x: nat, y: nat, z: nat, n: nat)
    requires w < 256 && x < 256 && y < 256 && z < 256
    ensures (w + 256 * (x + 256 * (y + 256 * (z + 256 * n)))) % 0x1_0000_0000 ==
            w + 0x100 * x + 0x1_0000 * y + 0x100_0000 * z
  {
    var low := w + 0x100 * x + 0x1_0000 * y + 0x100_0000 * z;
    assert w + 256 * (x + 256 * (y + 256 * (z + 256 * n))) == low + 0x1_0000_0000 * n;
  }

  lemma FourLittle(a: Byte, b: Byte, c: Byte, d: Byte, rest: seq<Byte>) returns (n: nat)
    ensures Little([a, b, c, d] + rest) ==
            a as nat + 256 * (b as nat + 256 * (c as nat + 256 * (d as nat + 256 * n)))
  {
    n := Little(rest);
    assert [a, b, c, d] + rest == [a] + ([b] + ([c] + ([d] + rest)));
    LittleNext(d, rest, n);
    LittleNext(c, [d] + rest, d as nat + 256 * n);
    LittleNext(b, [c] + ([d] + rest), c as nat + 256 * (d as nat + 256 * n));
    LittleNext(a, [b] + ([c] + ([d] + rest)), b as nat + 256 * (c as nat + 256 * (d as nat + 256 * n)));
  }

  /** Of four bytes or more the first four count, the first least. */
  lemma DwordIs(a: Byte, b: Byte, c: Byte, d: Byte, rest: seq<Byte>)
    ensures Dword([a, b, c, d] + rest) ==
            a as nat + 0x100 * (b as nat) + 0x1_0000 * (c as nat) + 0x100_0000 * (d as nat)
  {
    var n := FourLittle(a, b, c, d, rest);
    CutOff(a as nat, b as nat, c as nat, d as nat, n);
  }

  lemma TwoLittle(a: Byte, b: Byte)
    ensures Little([a, b]) == a as nat + 256 * (b as nat)
  {
    assert [a, b] == [a] + ([b] + []);
    LittleNext(b, [], 0);
    LittleNext(a, [b] + [], b as nat + 256 * 0);
  }

  /** A length of two bytes. */
  lemma WordIs(a: Byte, b: Byte)
    ensures Dword([a, b]) == a as nat + 0x100 * (b as nat)
  {
    TwoLittle(a, b);
  }

  /** One call: its signature and `TypeOffset`, its arguments, what the header's bytes held, and the random key. */
  datatype Call = Call(types: seq<Wire.Type>, words: seq<Wire.Name>, offset: nat, env: Wire.Env<Byte>,
                       header: seq<Byte>, rk: Byte)

  /** The signature is one that the compiler takes, under the `TypeOffset` that it was configured with. */
  predicate Signed(c: Call) {
    0 < c.offset && 2 + c.offset <= |c.words| && Wire.Signature(c.types, c.words, |c.words| - c.offset)
  }

  function Fields(c: Call): nat
    requires Signed(c)
  {
    |c.words| - c.offset
  }

  /** `header.byCode`. */
  const CODE: Byte := 0x77

  /** A well-formed call: wType is a word, and the arguments fit the signature. */
  ghost predicate Callable(c: Call) {
    && Signed(c)
    && c.types[Fields(c)] == Wire.Scalar(2)
    && WireTrip.FitsAt(c.types, c.words, c.env, Dword, Fields(c))
    && WireTrip.Fits(c.types, c.words, c.env, Dword, Fields(c))
    && |c.header| == HEADER && c.header[0] == CODE
  }

  /** The length that the Proxy stores over the header's second and third bytes. */
  function Patched(m: seq<Byte>): (r: seq<Byte>)
    requires HEADER <= |m| <= BUFFER
    ensures |r| == |m|
  {
    m[1 := ((|m| - HEADER) % 256) as Byte][2 := ((|m| - HEADER) / 256) as Byte]
  }

  /** The message of a call before EnCoding, unless it does not fit the buffer. */
  function Message(c: Call): Wire.Option<seq<Byte>>
    requires Signed(c) && |c.header| == HEADER
  {
    var puts := [Wire.PutVar(c.words[Fields(c)])] + Wire.Puts(c.types, c.words, Fields(c));
    match Wire.Write(puts, c.env, c.header, Dword, BUFFER)
    case None => Wire.None
    case Some(m) => if HEADER <= |m| <= BUFFER then Wire.Some(Patched(m)) else Wire.None
  }

  lemma {:induction false} WriteFirst(p: Wire.Put, puts: seq<Wire.Put>, env: Wire.Env<Byte>, buf: seq<Byte>,
                                      size: seq<Byte> -> nat, cap: nat)
    ensures Wire.Write([p] + puts, env, buf, size, cap) ==
            if |buf| + |Wire.Bytes(p, env, size)| > cap then Wire.None
            else Wire.Write(puts, env, buf + Wire.Bytes(p, env, size), size, cap)
  {
    if puts == [] {
      assert [p] + puts == [] + [p];
      WireTrip.WriteSnoc([], p, env, buf, size, cap);
    } else {
      var n := |puts| - 1;
      WriteFirst(p, puts[..n], env, buf, size, cap);
      assert [p] + puts == ([p] + puts[..n]) + [puts[n]];
      WireTrip.WriteSnoc([p] + puts[..n], puts[n], env, buf, size, cap);
    }
  }

  /** The payload of a call: its type, then its arguments. */
  function Body(c: Call): seq<Byte>
    requires Signed(c)
  {
    Wire.Value(c.env, c.words[Fields(c)]) + WireTrip.Data(c.words, c.env, Fields(c))
  }

  lemma TwoBytesOf(n: nat)
    requires n < 0x1_0000
    ensures n / 256 < 256 && ((n % 256) as Byte) as nat == n % 256 && ((n / 256) as Byte) as nat == n / 256
  {
    ByteValue(n % 256);
    ByteValue(n / 256);
  }

  lemma PatchStates(m: seq<Byte>)
    requires HEADER <= |m| <= BUFFER
    ensures DataLen(Patched(m)[..HEADER]) == |m| - HEADER
    ensures Patched(m)[1] as nat == (|m| - HEADER) % 256 && Patched(m)[2] as nat == (|m| - HEADER) / 256
    ensures Patched(m)[0] == m[0] && Patched(m)[HEADER..] == m[HEADER..]
  {
    var n := |m| - HEADER;
    TwoBytesOf(n);
    TwoPatched(m, (n % 256) as Byte, (n / 256) as Byte, n % 256, n / 256);
  }

  lemma TwoPatched(m: seq<Byte>, b: Byte, c: Byte, lo: nat, hi: nat)
    requires |m| >= HEADER && b as nat == lo && c as nat == hi
    ensures DataLen(m[1 := b][2 := c][..HEADER]) == lo + 256 * hi
    ensures m[1 := b][2 := c][1] as nat == lo && m[1 := b][2 := c][2] as nat == hi
    ensures m[1 := b][2 := c][0] == m[0] && m[1 := b][2 := c][HEADER..] == m[HEADER..]
  {
    var p := m[1 := b][2 := c];
    assert p[1] == b && p[2] == c && p[..HEADER][1] == b && p[..HEADER][2] == c;
  }

  /** The puts of a call append its payload to the header, if it fits. */
  lemma WritesBody(c: Call)
    requires Callable(c)
    ensures Wire.Write([Wire.PutVar(c.words[Fields(c)])] + Wire.Puts(c.types, c.words, Fields(c)), c.env, c.header,
                       Dword, BUFFER) ==
            WireTrip.Appended(c.header, Body(c), BUFFER)
  {
    var n := Fields(c);
    var ty := Wire.Value(c.env, c.words[n]);
    WriteFirst(Wire.PutVar(c.words[n]), Wire.Puts(c.types, c.words, n), c.env, c.header, Dword, BUFFER);
    WireTrip.WritesData(c.types, c.words, c.env, c.header + ty, Dword, BUFFER, n);
    WireTrip.Assoc(c.header, ty, WireTrip.Data(c.words, c.env, n));
  }

  lemma Headed(h: seq<Byte>, b: seq<Byte>)
    requires |h| == HEADER
    ensures (h + b)[0] == h[0] && (h + b)[HEADER..] == b
  {
  }

  /** The message of a call is its header, with the payload's length, and its payload, when these fit the buffer. */
  lemma MessageIs(c: Call)
    requires Callable(c)
    ensures Message(c).Some? <==> 5 + |Body(c)| <= 1000
    ensures Message(c).Some? ==>
              var m := Message(c).value;
              && |m| == 5 + |Body(c)| && m[5..] == Body(c)
              && m[0] == 0x77 && DataLen(m[..5]) == |Body(c)|
              && m[1] as nat == |Body(c)| % 256 && m[2] as nat == |Body(c)| / 256
  {
    WritesBody(c);
    Headed(c.header, Body(c));
    if 5 + |Body(c)| <= 1000 { PatchStates(c.header + Body(c)); }
  }

  // ---- whole conversations

  /** The Stub, given a payload: the type word is the caller's, and every argument is handed over, with nothing left. */
  ghost predicate Handled(c: Call, payload: seq<Byte>, vars: Wire.Env<Byte>)
    requires Callable(c)
  {
    && |payload| >= 2
    && payload[..2] == Wire.Value(c.env, c.words[Fields(c)])
    && WireTrip.Arrived(c.types, c.words, c.env,
                        Wire.Read(Wire.Gets(c.types, c.words, Fields(c)), vars, payload[2..], Dword), [], Fields(c))
  }

  lemma BodyIsHandled(c: Call, vars: Wire.Env<Byte>)
    requires Callable(c) && WireTrip.Declared(c.types, c.words, vars, Fields(c))
    ensures Handled(c, Body(c), vars)
  {
    var d := WireTrip.Data(c.words, c.env, Fields(c));
    WireTrip.Arrives(c.types, c.words, c.env, vars, [], Dword, Fields(c));
    assert d + [] == d;
    assert Body(c)[2..] == d;
  }

  /** The calls that are made: each fits its message and the server's limit. */
  ghost predicate Made(calls: seq<Call>, max: nat) {
    forall i :: 0 <= i < |calls| ==> MadeOne(calls[i], max)
  }

  ghost predicate MadeOne(c: Call, max: nat) {
    Callable(c) && HEADER + |Body(c)| <= BUFFER && |Body(c)| < max
  }

  /** The message of a call that is made. */
  ghost function MessageOf(c: Call, max: nat): (m: seq<Byte>)
    requires MadeOne(c, max)
    ensures |m| >= HEADER && m[HEADER..] == Body(c) && Sendable(m, max)
  {
    MessageIs(c);
    Message(c).value
  }

  /** Each message carries its call's payload. */
  ghost predicate Carry(ms: seq<seq<Byte>>, calls: seq<Call>, max: nat)
    requires |ms| == |calls|
  {
    forall i :: 0 <= i < |calls| ==> Carries(ms[i], calls[i], max)
  }

  ghost predicate Carries(m: seq<Byte>, c: Call, max: nat) {
    MadeOne(c, max) && |m| >= HEADER && m[HEADER..] == Body(c)
  }

  lemma OneMore(ms: seq<seq<Byte>>, m: seq<Byte>, max: nat)
    requires AllSendable(ms, max) && Sendable(m, max)
    ensures AllSendable(ms + [m], max)
  {
  }

  lemma BodiesMore(calls: seq<Call>, ms: seq<seq<Byte>>, m: seq<Byte>, max: nat)
    requires |calls| == |ms| + 1 && Carry(ms, calls[..|ms|], max) && Carries(m, calls[|ms|], max)
    ensures Carry(ms + [m], calls, max)
  {
    forall i | 0 <= i < |calls| ensures Carries((ms + [m])[i], calls[i], max) {
      if i < |ms| { assert Carries(ms[i], calls[..|ms|][i], max); }
    }
  }

  ghost function Messages(calls: seq<Call>, max: nat): (ms: seq<seq<Byte>>)
    requires Made(calls, max)
    ensures |ms| == |calls| && AllSendable(ms, max)
    ensures Carry(ms, calls, max)
  {
    if calls == [] then []
    else
      var n := |calls| - 1;
      assert MadeOne(calls[n], max);
      var ms, m := Messages(calls[..n], max), MessageOf(calls[n], max);
      OneMore(ms, m, max);
      BodiesMore(calls, ms, m, max);
      ms + [m]
  }

  function Keys(calls: seq<Call>): seq<Byte> {
    seq(|calls|, i requires 0 <= i < |calls| => calls[i].rk)
  }

  /**
   * Every call made over a connection reaches its handler with its type and arguments, once and in order, however
   * the stream is split; unless one completion carries too many, which ends the connection after a prefix of them.
   */
  lemma CallsArrive(calls: seq<Call>, chunks: Chunks, max: nat, cap: nat)
    requires Made(calls, max) && FramingRun.Fits(chunks, Rules(max), cap)
    requires Framing.Flat(chunks) == Framing.Flat(Sent(Messages(calls, max), Keys(calls), max))
    ensures var c := FramingRun.Run(chunks, Rules(max));
            var given := Payloads(c.frames);
            && |given| <= |calls|
            && (c.end != Framing.OverSend ==> |given| == |calls| && c.rest == [] && c.end == Framing.Again)
            && forall i, vars ::
                 0 <= i < |given| && WireTrip.Declared(calls[i].types, calls[i].words, vars, Fields(calls[i])) ==>
                   Handled(calls[i], given[i], vars)
  {
    var ms := Messages(calls, max);
    EncodedArrive(ms, Keys(calls), chunks, max, cap);
    var given := Payloads(FramingRun.Run(chunks, Rules(max)).frames);
    forall i, vars |
      0 <= i < |given| && WireTrip.Declared(calls[i].types, calls[i].words, vars, Fields(calls[i]))
      ensures Handled(calls[i], given[i], vars)
    {
      assert Carries(ms[i], calls[i], max);
      BodyIsHandled(calls[i], vars);
    }
  }

  /** Every message is as long as its header and the call's payload. */
  lemma MessagesAtLeast(calls: seq<Call>, max: nat, l: nat)
    requires Made(calls, max)
    requires forall i :: 0 <= i < |calls| ==> MadeOne(calls[i], max) && HEADER + |Body(calls[i])| >= l
    ensures FramingRun.AtLeast(Messages(calls, max), l)
  {
    var ms := Messages(calls, max);
    forall i | 0 <= i < |ms| ensures l <= |ms[i]| {
      assert Carries(ms[i], calls[i], max);
      assert |ms[i][HEADER..]| == |Body(calls[i])|;
    }
  }

  /**
   * Every call reaches its handler, without exception, when the payloads are so long that the ring does not hold 149
   * messages of the shortest and a header: at least 9 bytes, for the ring of 2048.
   */
  lemma LongCallsArrive(calls: seq<Call>, chunks: Chunks, max: nat, cap: nat, l: nat)
    requires Made(calls, max) && FramingRun.Fits(chunks, Rules(max), cap)
    requires Framing.Flat(chunks) == Framing.Flat(Sent(Messages(calls, max), Keys(calls), max))
    requires forall i :: 0 <= i < |calls| ==> MadeOne(calls[i], max) && HEADER + |Body(calls[i])| >= l
    requires cap <= 149 * l + 5
    ensures var c := FramingRun.Run(chunks, Rules(max));
            var given := Payloads(c.frames);
            && |given| == |calls| && c.rest == [] && c.end == Framing.Again
            && forall i, vars ::
                 0 <= i < |given| && WireTrip.Declared(calls[i].types, calls[i].words, vars, Fields(calls[i])) ==>
                   Handled(calls[i], given[i], vars)
  {
    MessagesAtLeast(calls, max, l);
    LongEncodedArrive(Messages(calls, max), Keys(calls), chunks, max, cap, l);
    CallsArrive(calls, chunks, max, cap);
  }
}
