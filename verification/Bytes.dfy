/** Bytes and the numbers they stand for. */
module Bytes {
  type Byte = bv8

  lemma PlusOne(b: Byte)
    ensures (b + 1) as nat == if b as nat == 255 then 0 else b as nat + 1
  {
  }

  lemma BackAndForth(b: Byte)
    ensures (b as nat) as Byte == b
  {
  }

  lemma {:induction false} SomeByte(n: nat) returns (b: Byte)
    requires n < 256
    ensures b as nat == n
  {
    b := 0;
    if n > 0 {
      b := SomeByte(n - 1);
      PlusOne(b);
      b := b + 1;
    }
  }

  lemma ByteValue(n: nat)
    requires n < 256
    ensures (n as Byte) as nat == n
  {
    var b := SomeByte(n);
    BackAndForth(b);
  }

  lemma SameByte(a: Byte, b: Byte)
    requires a as nat == b as nat
    ensures a == b
  {
    BackAndForth(a);
    BackAndForth(b);
  }

  lemma AddMod(a: nat, b: nat, n: nat)
    requires a == n % 256
    ensures (a + b) % 256 == (n + b) % 256
  {
  }

  function Plus(a: Byte, b: Byte): Byte { a + b }

  lemma PlusNext(a: Byte, c: Byte)
    ensures Plus(a, c + 1) == Plus(a, c) + 1
  {
  }

  lemma PlusZero(a: Byte, b: Byte)
    requires b as nat == 0
    ensures Plus(a, b) == a && a as nat < 256
  {
  }

  lemma ModNext(n: nat, r: nat)
    requires r == n % 256
    ensures (n + 1) % 256 == if r == 255 then 0 else r + 1
  {
  }

  lemma Increased(a: Byte, n: nat)
    requires a as nat == n % 256
    ensures (a + 1) as nat == (n + 1) % 256
  {
    ModNext(n, n % 256);
    PlusOne(a);
  }

  lemma CountsOne(a: Byte, b: Byte, n: nat)
    requires n < 255 && b as nat == n && Plus(a, b) as nat == (a as nat + n) % 256
    ensures (b + 1) as nat == n + 1 && Plus(a, b + 1) as nat == (a as nat + n + 1) % 256
  {
    PlusNext(a, b);
    Increased(Plus(a, b), a as nat + n);
    PlusOne(b);
  }

  lemma {:induction false} CountsUp(a: Byte, n: nat) returns (b: Byte)
    requires n < 256
    ensures b as nat == n && Plus(a, b) as nat == (a as nat + n) % 256
  {
    b := 0;
    if n == 0 {
      PlusZero(a, b);
    } else {
      b := CountsUp(a, n - 1);
      CountsOne(a, b, n - 1);
      b := b + 1;
    }
  }

  /** Byte addition is addition, and wraps. */
  lemma PlusWraps(a: Byte, b: Byte)
    ensures Plus(a, b) as nat == (a as nat + b as nat) % 256
  {
    PlusZero(b, 0);
    var c := CountsUp(a, b as nat);
    SameByte(b, c);
  }

  function Three(a: Byte, b: Byte, c: Byte): Byte { Plus(Plus(a, b), c) }

  /** Three bytes added are their sum, cut to a byte. */
  lemma ThreeWraps(a: Byte, b: Byte, c: Byte)
    ensures Three(a, b, c) as nat == (a as nat + b as nat + c as nat) % 256
  {
    var s := Plus(a, b);
    PlusWraps(a, b);
    PlusWraps(s, c);
    AddMod(s as nat, c as nat, a as nat + b as nat);
  }

  /** The byte of a count that has gone `n` steps up from 0. */
  function Octet(n: nat): Byte {
    if n == 0 then 0 else Octet(n - 1) + 1
  }

  lemma {:induction false} OctetValue(n: nat)
    ensures Octet(n) as nat == n % 256
  {
    if n > 0 {
      OctetValue(n - 1);
      Increased(Octet(n - 1), n - 1);
    }
  }

  /** The sum of the bytes. */
  function Added(s: seq<Byte>): nat {
    if s == [] then 0 else Added(s[..|s| - 1]) + s[|s| - 1] as nat
  }
}
