/** CMessage::EnCoding and DeCoding: a running xor keyed by a random byte and a fixed byte, over a checksum. */
module Cipher {
  import opened Bytes

  type Byte = Bytes.Byte

  /** The fixed key `K`, the offsets of `byRandKey` and `byCheckSum`, and `_size`. */
  const KEY: Byte := 0x32
  const RAND: nat := 3
  const CHECK: nat := 4
  const HEADER: nat := 5
  const BUFFER: nat := 1000

  // ---- specification

  /** The checksum: the sum of the bytes, as a byte. */
  function Sum(s: seq<Byte>): Byte {
    if s == [] then 0 else Sum(s[..|s| - 1]) + s[|s| - 1]
  }

  /** The running state of the encoder: the last two bytes it produced, and its position. */
  datatype Chain = Chain(p: Byte, e: Byte, at: Byte)

  const START := Chain(0, 0, 1)

  function Next(c: Chain, rk: Byte, d: Byte): Chain {
    var p := d ^ Three(c.p, rk, c.at);
    Chain(p, p ^ Three(c.e, KEY, c.at), c.at + 1)
  }

  /** The state after encoding `s`. */
  function After(s: seq<Byte>, rk: Byte): Chain {
    if s == [] then START else Next(After(s[..|s| - 1], rk), rk, s[|s| - 1])
  }

  /** Each byte is replaced by the state's `e` after it. */
  function Scramble(s: seq<Byte>, rk: Byte): (r: seq<Byte>)
    ensures |r| == |s|
  {
    if s == [] then [] else Scramble(s[..|s| - 1], rk) + [After(s, rk).e]
  }

  /** The decoder's state is the encoder's, recovered from the scrambled bytes. */
  function Back(c: Chain, x: Byte): Chain {
    Chain(x ^ Three(c.e, KEY, c.at), x, c.at + 1)
  }

  function Plain(c: Chain, rk: Byte, x: Byte): Byte {
    Back(c, x).p ^ Three(c.p, rk, c.at)
  }

  function AfterBack(s: seq<Byte>): Chain {
    if s == [] then START else Back(AfterBack(s[..|s| - 1]), s[|s| - 1])
  }

  function Unscramble(s: seq<Byte>, rk: Byte): (r: seq<Byte>)
    ensures |r| == |s|
  {
    if s == [] then []
    else Unscramble(s[..|s| - 1], rk) + [Plain(AfterBack(s[..|s| - 1]), rk, s[|s| - 1])]
  }

  /** EnCoding of a whole message under the random key `rk`. */
  function Encode(m: seq<Byte>, rk: Byte): (r: seq<Byte>)
    requires |m| >= HEADER
    ensures |r| == |m|
  {
    m[..RAND] + [rk] + Scramble([Sum(m[HEADER..])] + m[HEADER..], rk)
  }

  datatype Decoded = Decoded(ok: bool, m: seq<Byte>)

  /** DeCoding of a whole message; it refuses more than `_size` bytes from the checksum on. */
  function Decode(m: seq<Byte>): Decoded
    requires |m| >= HEADER
  {
    if |m| - CHECK > BUFFER then Decoded(false, m)
    else
      var body := Unscramble(m[CHECK..], m[RAND]);
      Decoded(body[0] == Sum(body[1..]), m[..CHECK] + body)
  }

  // ---- DeCoding undoes EnCoding

  lemma XorTwice(a: Byte, b: Byte)
    ensures (a ^ b) ^ b == a
  {
  }

  /** One step back from an encoded byte is the step that produced it. */
  lemma BackNext(c: Chain, rk: Byte, d: Byte)
    ensures Back(c, Next(c, rk, d).e) == Next(c, rk, d)
  {
    XorTwice(d ^ Three(c.p, rk, c.at), Three(c.e, KEY, c.at));
  }

  /** Its mask gives the plain byte. */
  lemma PlainNext(c: Chain, rk: Byte, d: Byte)
    ensures Plain(c, rk, Next(c, rk, d).e) == d
  {
    BackNext(c, rk, d);
    XorTwice(d, Three(c.p, rk, c.at));
  }

  lemma {:induction false} StatesAgree(s: seq<Byte>, rk: Byte)
    ensures AfterBack(Scramble(s, rk)) == After(s, rk)
  {
    if s != [] {
      var n := |s| - 1;
      StatesAgree(s[..n], rk);
      assert Scramble(s, rk)[..n] == Scramble(s[..n], rk);
      BackNext(After(s[..n], rk), rk, s[n]);
    }
  }

  lemma UnscrambleSnoc(t: seq<Byte>, rk: Byte, x: Byte)
    ensures Unscramble(t + [x], rk) == Unscramble(t, rk) + [Plain(AfterBack(t), rk, x)]
  {
    assert (t + [x])[..|t|] == t;
  }

  lemma {:induction false} UnscrambleScramble(s: seq<Byte>, rk: Byte)
    ensures Unscramble(Scramble(s, rk), rk) == s
  {
    if s != [] {
      var n := |s| - 1;
      var c := After(s[..n], rk);
      UnscrambleScramble(s[..n], rk);
      StatesAgree(s[..n], rk);
      PlainNext(c, rk, s[n]);
      UnscrambleSnoc(Scramble(s[..n], rk), rk, Next(c, rk, s[n]).e);
    }
  }

  lemma EncodeParts(m: seq<Byte>, rk: Byte, body: seq<Byte>)
    requires |m| >= HEADER && body == [Sum(m[HEADER..])] + m[HEADER..]
    ensures var x := Encode(m, rk);
            && |x| == |m| && x[CHECK..] == Scramble(body, rk) && x[RAND] == rk && x[..CHECK] == m[..RAND] + [rk]
  {
  }

  /** A message of at most 1004 bytes decodes to itself, with the key and the checksum in its header. */
  lemma DecodeEncode(m: seq<Byte>, rk: Byte)
    requires 5 <= |m| <= 1004
    ensures Decode(Encode(m, rk)) == Decoded(true, m[..3] + [rk] + [Sum(m[5..])] + m[5..])
  {
    var body := [Sum(m[HEADER..])] + m[HEADER..];
    EncodeParts(m, rk, body);
    UnscrambleScramble(body, rk);
    assert body[1..] == m[HEADER..];
  }

  /** And only such a message: a longer one is always refused. */
  lemma LongIsRefused(m: seq<Byte>, rk: Byte)
    requires |m| >= 5
    ensures Decode(Encode(m, rk)).ok <==> |m| <= 1004
  {
    if |m| <= 1004 { DecodeEncode(m, rk); }
  }

  // ---- the bytes themselves

  /** `E ^ (E1 + K + current)`, which is `P`. */
  function Unmasked(e: Byte, e1: Byte, at: Byte): Byte { e ^ Three(e1, 0x32, at) }

  /** One encoded byte `e` and its plain byte `d`, behind `e1` and `p1`: the code's two equations, without its loop. */
  predicate Law(e: Byte, e1: Byte, p1: Byte, d: Byte, rk: Byte, at: Byte) {
    e ^ Three(e1, 0x32, at) == d ^ Three(p1, rk, at)
  }

  /** What stands before number `i` of the encoded bytes: the byte, or 0, and what it unmasks to, or 0. */
  function Before(x: seq<Byte>, i: nat): Byte
    requires i <= |x|
  {
    if i == 0 then 0 else x[i - 1]
  }

  function PlainBefore(x: seq<Byte>, i: nat): Byte
    requires i <= |x|
  {
    if i == 0 then 0 else Unmasked(x[i - 1], Before(x, i - 1), Octet(i))
  }

  predicate KeyedAt(x: seq<Byte>, d: seq<Byte>, rk: Byte, i: nat)
    requires i < |x| == |d|
  {
    Law(x[i], Before(x, i), PlainBefore(x, i), d[i], rk, Octet(i + 1))
  }

  /** `x` are the bytes `d` encoded under `rk`. */
  ghost predicate Keyed(x: seq<Byte>, d: seq<Byte>, rk: Byte) {
    |x| == |d| && forall i :: 0 <= i < |x| ==> KeyedAt(x, d, rk, i)
  }

  lemma Unmasks(p: Byte, e1: Byte, at: Byte, e: Byte)
    requires e == p ^ Three(e1, 0x32, at)
    ensures Unmasked(e, e1, at) == p
  {
    XorTwice(p, Three(e1, 0x32, at));
  }

  lemma LawOf(e: Byte, e1: Byte, p1: Byte, d: Byte, rk: Byte, at: Byte)
    requires Unmasked(e, e1, at) == d ^ Three(p1, rk, at)
    ensures Law(e, e1, p1, d, rk, at)
  {
  }

  lemma NextIs(c: Chain, rk: Byte, d: Byte)
    ensures Next(c, rk, d).p == d ^ Three(c.p, rk, c.at)
    ensures Next(c, rk, d).e == Next(c, rk, d).p ^ Three(c.e, 0x32, c.at)
  {
  }

  lemma NextLaw(c: Chain, rk: Byte, d: Byte)
    ensures var n := Next(c, rk, d); Law(n.e, c.e, c.p, d, rk, c.at) && Unmasked(n.e, c.e, c.at) == n.p
  {
    var n := Next(c, rk, d);
    NextIs(c, rk, d);
    Unmasks(n.p, c.e, c.at, n.e);
    LawOf(n.e, c.e, c.p, d, rk, c.at);
  }

  lemma BackIs(c: Chain, rk: Byte, x: Byte)
    ensures Back(c, x).p == Unmasked(x, c.e, c.at)
    ensures Plain(c, rk, x) == Back(c, x).p ^ Three(c.p, rk, c.at)
  {
  }

  lemma BackLaw(c: Chain, rk: Byte, x: Byte)
    ensures Law(x, c.e, c.p, Plain(c, rk, x), rk, c.at) && Unmasked(x, c.e, c.at) == Back(c, x).p
  {
    BackIs(c, rk, x);
    XorTwice(Back(c, x).p, Three(c.p, rk, c.at));
    LawOf(x, c.e, c.p, Plain(c, rk, x), rk, c.at);
  }

  /** The running state after the encoded bytes `x`. */
  function StateOf(x: seq<Byte>): Chain {
    Chain(PlainBefore(x, |x|), Before(x, |x|), Octet(|x| + 1))
  }

  lemma StartState()
    ensures START == StateOf([])
  {
    assert Octet(1) == Octet(0) + 1;
  }

  lemma BeforeStays(x: seq<Byte>, e: Byte, i: nat)
    requires i <= |x|
    ensures Before(x + [e], i) == Before(x, i) && PlainBefore(x + [e], i) == PlainBefore(x, i)
  {
    if i > 0 { assert (x + [e])[i - 1] == x[i - 1]; }
  }

  lemma StateNext(x: seq<Byte>, c: Chain, n: Chain)
    requires c == StateOf(x) && n.p == Unmasked(n.e, c.e, c.at) && n.at == c.at + 1
    ensures n == StateOf(x + [n.e])
  {
    BeforeStays(x, n.e, |x|);
    assert (x + [n.e])[|x|] == n.e;
  }

  lemma KeyedSnoc(x: seq<Byte>, d: seq<Byte>, rk: Byte, e: Byte, b: Byte, c: Chain)
    requires Keyed(x, d, rk) && c == StateOf(x) && Law(e, c.e, c.p, b, rk, c.at)
    ensures Keyed(x + [e], d + [b], rk)
  {
    var y, f := x + [e], d + [b];
    forall i | 0 <= i < |y| ensures KeyedAt(y, f, rk, i) {
      BeforeStays(x, e, i);
      if i < |x| { assert KeyedAt(x, d, rk, i); }
    }
  }

  lemma {:induction false} ScrambleKeyed(s: seq<Byte>, rk: Byte)
    ensures After(s, rk) == StateOf(Scramble(s, rk)) && Keyed(Scramble(s, rk), s, rk)
  {
    if s == [] {
      StartState();
    } else {
      var n := |s| - 1;
      var x, c := Scramble(s[..n], rk), After(s[..n], rk);
      ScrambleKeyed(s[..n], rk);
      NextLaw(c, rk, s[n]);
      StateNext(x, c, Next(c, rk, s[n]));
      KeyedSnoc(x, s[..n], rk, Next(c, rk, s[n]).e, s[n], c);
      assert s[..n] + [s[n]] == s;
    }
  }

  lemma {:induction false} UnscrambleKeyed(x: seq<Byte>, rk: Byte)
    ensures AfterBack(x) == StateOf(x) && Keyed(x, Unscramble(x, rk), rk)
  {
    if x == [] {
      StartState();
    } else {
      var n := |x| - 1;
      var c := AfterBack(x[..n]);
      UnscrambleKeyed(x[..n], rk);
      BackLaw(c, rk, x[n]);
      StateNext(x[..n], c, Back(c, x[n]));
      KeyedSnoc(x[..n], Unscramble(x[..n], rk), rk, x[n], Plain(c, rk, x[n]), c);
      assert x[..n] + [x[n]] == x;
    }
  }

  lemma SumIsPlus(s: seq<Byte>)
    requires s != []
    ensures Sum(s) == Plus(Sum(s[..|s| - 1]), s[|s| - 1])
  {
  }

  /** The checksum is the sum of the bytes, cut to a byte. */
  lemma {:induction false} SumIsAdded(s: seq<Byte>)
    ensures Sum(s) as nat == Added(s) % 256
  {
    if s != [] {
      var n := |s| - 1;
      SumIsAdded(s[..n]);
      SumIsPlus(s);
      PlusWraps(Sum(s[..n]), s[n]);
      AddMod(Sum(s[..n]) as nat, s[n] as nat, Added(s[..n]));
    }
  }

  /** What EnCoding sends of a message: its first three bytes as they are, the random key, and then the sum of the
      payload, cut to a byte, and the payload, keyed. */
  lemma EncodeBytes(m: seq<Byte>, rk: Byte)
    requires |m| >= 5
    ensures var x := Encode(m, rk);
            |x| == |m| && x[..3] == m[..3] && x[3] == rk && Keyed(x[4..], [Octet(Added(m[5..]))] + m[5..], rk)
  {
    var body := [Sum(m[5..])] + m[5..];
    EncodeParts(m, rk, body);
    ScrambleKeyed(body, rk);
    SumIsAdded(m[5..]);
    OctetValue(Added(m[5..]));
    SameByte(Sum(m[5..]), Octet(Added(m[5..])));
    assert Encode(m, rk)[..3] == Encode(m, rk)[..4][..3];
  }

  /** What DeCoding makes of one: nothing above 1004 bytes; otherwise the plain bytes for which these are keyed, and the
      verdict on their sum. */
  lemma DecodeBytes(m: seq<Byte>)
    requires |m| >= 5
    ensures var r := Decode(m);
            if |m| > 1004 then r == Decoded(false, m)
            else
              && |r.m| == |m| && r.m[..4] == m[..4] && Keyed(m[4..], r.m[4..], m[3])
              && (r.ok <==> r.m[4] as nat == Added(r.m[5..]) % 256)
  {
    if |m| <= 1004 {
      var body := Unscramble(m[4..], m[3]);
      UnscrambleKeyed(m[4..], m[3]);
      var r := Decode(m);
      assert r.m[4..] == body && r.m[4] == body[0] && r.m[5..] == body[1..];
      SumIsAdded(body[1..]);
      if r.m[4] as nat == Added(r.m[5..]) % 256 { SameByte(body[0], Sum(body[1..])); }
    }
  }

  lemma OneSum(a: Byte)
    ensures Sum([a]) == a
  {
    assert Sum([]) == 0;
  }

  lemma TwoScrambled(a: Byte, b: Byte, rk: Byte)
    ensures Scramble([a, b], rk) == [Next(START, rk, a).e, Next(Next(START, rk, a), rk, b).e]
  {
    ScrambleSnoc([], rk, a);
    ScrambleSnoc([a], rk, b);
    assert [] + [a] == [a] && [a] + [b] == [a, b] && Scramble([], rk) == [];
  }

  lemma TwoSteps()
    ensures Next(START, 0, 0x41).e == 0x73 && Next(Next(START, 0, 0x41), 0, 0x41).e == 0xA4
  {
    assert Next(START, 0, 0x41) == Chain(0x40, 0x73, 2);
  }

  /** The message of one byte `A` under the random key 0. */
  lemma EncodeExample()
    ensures Encode([0x77, 1, 0, 0, 0, 0x41], 0) == [0x77, 1, 0, 0, 0x73, 0xA4]
  {
    var m: seq<Byte> := [0x77, 1, 0, 0, 0, 0x41];
    var d: seq<Byte> := [0x41];
    assert m[5..] == d && [0x41 as Byte] + d == [0x41, 0x41];
    OneSum(0x41);
    TwoScrambled(0x41, 0x41, 0);
    TwoSteps();
  }

  // ---- the loops, in place

  lemma SumSnoc(t: seq<Byte>, d: Byte)
    ensures Sum(t + [d]) == Sum(t) + d
  {
    assert (t + [d])[..|t|] == t;
  }

  lemma ScrambleSnoc(t: seq<Byte>, rk: Byte, d: Byte)
    ensures After(t + [d], rk) == Next(After(t, rk), rk, d)
    ensures Scramble(t + [d], rk) == Scramble(t, rk) + [Next(After(t, rk), rk, d).e]
  {
    assert (t + [d])[..|t|] == t;
  }

  lemma AfterBackSnoc(t: seq<Byte>, x: Byte)
    ensures AfterBack(t + [x]) == Back(AfterBack(t), x)
  {
    assert (t + [x])[..|t|] == t;
  }

  /** The checksum loop of both directions. */
  method Total(a: array<Byte>, from: nat, to: nat) returns (total: Byte)
    requires from <= to <= a.Length
    ensures total == Sum(a[from..to])
  {
    total := 0;
    for i := from to to
      invariant total == Sum(a[from..i])
    {
      SumSnoc(a[from..i], a[i]);
      assert a[from..i + 1] == a[from..i] + [a[i]];
      total := total + a[i];
    }
  }

  /** Overwriting the first byte after the part already rewritten. */
  lemma Patched(was: seq<Byte>, from: nat, i: nat, done: seq<Byte>, d: Byte)
    requires from <= i < |was| && |done| == i - from
    ensures (was[..from] + done + was[i..])[i := d] == was[..from] + (done + [d]) + was[i + 1..]
  {
  }

  lemma ScrambleNext(was: seq<Byte>, from: nat, i: nat, rk: Byte, c: Chain)
    requires from <= i < |was| && c == After(was[from..i], rk)
    ensures var d := Next(c, rk, was[i]);
            && After(was[from..i + 1], rk) == d
            && Scramble(was[from..i + 1], rk) == Scramble(was[from..i], rk) + [d.e]
  {
    ScrambleSnoc(was[from..i], rk, was[i]);
    assert was[from..i + 1] == was[from..i] + [was[i]];
  }

  lemma ScrambleNone(was: seq<Byte>, from: nat, rk: Byte)
    requires from <= |was|
    ensures After(was[from..from], rk) == START
    ensures was == was[..from] + Scramble(was[from..from], rk) + was[from..]
  {
    assert was[from..from] == [];
  }

  /** One byte of the encoder's loop. */
  method ScrambleOne(a: array<Byte>, from: nat, i: nat, rk: Byte, c: Chain, ghost was: seq<Byte>) returns (d: Chain)
    requires from <= i < a.Length == |was| && c == After(was[from..i], rk)
    requires a[..] == was[..from] + Scramble(was[from..i], rk) + was[i..]
    modifies a
    ensures d == After(was[from..i + 1], rk)
    ensures a[..] == was[..from] + Scramble(was[from..i + 1], rk) + was[i + 1..]
  {
    ScrambleNext(was, from, i, rk, c);
    assert a[i] == a[..][i] == was[i];
    d := Next(c, rk, a[i]);
    Patched(was, from, i, Scramble(was[from..i], rk), d.e);
    a[i] := d.e;
  }

  /** The encoder's loop. */
  method ScrambleLoop(a: array<Byte>, from: nat, to: nat, rk: Byte, ghost was: seq<Byte>)
    requires from <= to <= a.Length && was == a[..]
    modifies a
    ensures a[..] == was[..from] + Scramble(was[from..to], rk) + was[to..]
  {
    var c := START;
    ScrambleNone(was, from, rk);
    for i := from to to
      invariant c == After(was[from..i], rk)
      invariant a[..] == was[..from] + Scramble(was[from..i], rk) + was[i..]
    {
      c := ScrambleOne(a, from, i, rk, c, was);
    }
  }

  lemma UnscrambleNext(was: seq<Byte>, from: nat, i: nat, rk: Byte, c: Chain)
    requires from <= i < |was| && c == AfterBack(was[from..i])
    ensures AfterBack(was[from..i + 1]) == Back(c, was[i])
    ensures Unscramble(was[from..i + 1], rk) == Unscramble(was[from..i], rk) + [Plain(c, rk, was[i])]
  {
    UnscrambleSnoc(was[from..i], rk, was[i]);
    AfterBackSnoc(was[from..i], was[i]);
    assert was[from..i + 1] == was[from..i] + [was[i]];
  }

  lemma UnscrambleNone(was: seq<Byte>, from: nat, rk: Byte)
    requires from <= |was|
    ensures AfterBack(was[from..from]) == START
    ensures was == was[..from] + Unscramble(was[from..from], rk) + was[from..]
  {
    assert was[from..from] == [];
  }

  /** One byte of the decoder's loop. */
  method UnscrambleOne(a: array<Byte>, from: nat, i: nat, rk: Byte, c: Chain, ghost was: seq<Byte>) returns (d: Chain)
    requires from <= i < a.Length == |was| && c == AfterBack(was[from..i])
    requires a[..] == was[..from] + Unscramble(was[from..i], rk) + was[i..]
    modifies a
    ensures d == AfterBack(was[from..i + 1])
    ensures a[..] == was[..from] + Unscramble(was[from..i + 1], rk) + was[i + 1..]
  {
    UnscrambleNext(was, from, i, rk, c);
    var x := a[i];
    assert x == a[..][i] == was[i];
    var y := Plain(c, rk, x);
    Patched(was, from, i, Unscramble(was[from..i], rk), y);
    a[i] := y;
    d := Back(c, x);
  }

  /** The decoder's loop. */
  method UnscrambleLoop(a: array<Byte>, from: nat, to: nat, rk: Byte, ghost was: seq<Byte>)
    requires from <= to <= a.Length && was == a[..]
    modifies a
    ensures a[..] == was[..from] + Unscramble(was[from..to], rk) + was[to..]
  {
    var c := START;
    UnscrambleNone(was, from, rk);
    for i := from to to
      invariant c == AfterBack(was[from..i])
      invariant a[..] == was[..from] + Unscramble(was[from..i], rk) + was[i..]
    {
      c := UnscrambleOne(a, from, i, rk, c, was);
    }
  }

  /** EnCoding on the buffer `a`, whose message ends at `rear`. */
  method EnCoding(a: array<Byte>, rear: nat, rk: Byte)
    requires HEADER <= rear <= a.Length
    modifies a
    ensures a[..] == old(Encode(a[..rear], rk) + a[rear..])
    ensures a[..3] == old(a[..3]) && a[3] == rk
    ensures Keyed(a[4..rear], [Octet(Added(old(a[5..rear])))] + old(a[5..rear]), rk)
  {
    ghost var was := a[..];
    ghost var m := a[..rear];
    a[RAND] := rk;
    assert a[HEADER..rear] == m[HEADER..];
    a[CHECK] := Total(a, HEADER, rear);
    ScrambleStart(was, a[..], rear, rk);
    ScrambleLoop(a, CHECK, rear, rk, a[..]);
    EncodeBytes(m, rk);
    Within(Encode(m, rk), was[rear..], a[..]);
    Within(m, was[rear..], was);
  }

  lemma Within(m: seq<Byte>, rest: seq<Byte>, a: seq<Byte>)
    requires |m| >= 5 && a == m + rest
    ensures a[..3] == m[..3] && a[..4] == m[..4] && a[3] == m[3] && a[4] == m[4]
    ensures a[4..|m|] == m[4..] && a[5..|m|] == m[5..]
  {
  }

  /** What EnCoding's loop starts from. */
  lemma ScrambleStart(was: seq<Byte>, a: seq<Byte>, rear: nat, rk: Byte)
    requires HEADER <= rear <= |was|
    requires a == was[RAND := rk][CHECK := Sum(was[HEADER..rear])]
    ensures a[..CHECK] + Scramble(a[CHECK..rear], rk) + a[rear..] == Encode(was[..rear], rk) + was[rear..]
  {
    var m := was[..rear];
    assert m[HEADER..] == was[HEADER..rear];
    assert a[CHECK..rear] == [Sum(m[HEADER..])] + m[HEADER..];
    assert a[..CHECK] == m[..RAND] + [rk];
  }

  /** DeCoding on the buffer `a`. */
  method DeCoding(a: array<Byte>, rear: nat) returns (ok: bool)
    requires HEADER <= rear <= a.Length
    modifies a
    ensures Decoded(ok, a[..rear]) == Decode(old(a[..rear]))
    ensures a[rear..] == old(a[rear..])
    ensures rear > 1004 ==> !ok && a[..] == old(a[..])
    ensures rear <= 1004 ==>
              && a[..4] == old(a[..4]) && Keyed(old(a[4..rear]), a[4..rear], old(a[3]))
              && (ok <==> a[4] as nat == Added(a[5..rear]) % 256)
  {
    ghost var was := a[..];
    var rk := a[RAND];
    DecodeBytes(was[..rear]);
    Within(was[..rear], was[rear..], was);
    if rear - CHECK > BUFFER { return false; }
    ghost var body := Unscramble(was[CHECK..rear], rk);
    UnscrambleLoop(a, CHECK, rear, rk, was);
    assert was[..rear][CHECK..] == was[CHECK..rear] && was[..rear][..CHECK] == was[..CHECK];
    assert a[..rear] == was[..CHECK] + body && a[rear..] == was[rear..];
    assert a[HEADER..rear] == body[1..] && a[CHECK] == body[0];
    var total := Total(a, HEADER, rear);
    ok := a[CHECK] == total;
    Within(a[..rear], a[rear..], a[..]);
  }
}
