/**
 * Cutting a received byte stream into messages: what RecvComplete's loop does, over any bytes `T`, any way of reading
 * a header's length and any test of a whole message. `Receiver.dfy` puts the server's own header and cipher in.
 */
module Framing {
  /** The header's size, and the header count on which the loop of one completion gives up. */
  const HEADER: nat := 5
  const OVERSEND: nat := 150

  /** The payload length a header states, whether a whole message passes, `max_MsgLen`, and the size of the buffer that
      a whole message is taken into. */
  datatype Rules<!T> = Rules(len: seq<T> -> nat, pass: seq<T> -> bool, max: nat, room: nat)

  /** The length of the message that `b` starts with. */
  function Len<T>(b: seq<T>, r: Rules<T>): nat
    requires |b| >= HEADER
  {
    r.len(b[..HEADER])
  }

  function Flat<T>(frames: seq<seq<T>>): seq<T> {
    if frames == [] then [] else frames[0] + Flat(frames[1..])
  }

  lemma Assoc<T>(x: seq<T>, y: seq<T>, z: seq<T>)
    ensures (x + y) + z == x + (y + z)
  {
  }

  lemma {:induction false} FlatSplit<T>(x: seq<seq<T>>, y: seq<seq<T>>)
    ensures Flat(x + y) == Flat(x) + Flat(y)
  {
    if x == [] {
      assert x + y == y;
    } else {
      FlatSplit(x[1..], y);
      Assoc(x[0], Flat(x[1..]), Flat(y));
      assert (x + y)[1..] == x[1..] + y;
    }
  }

  // ---- what the messages of a stream are

  /** Why the cutting stopped: more bytes are needed, or the connection is given up, or a whole message that is larger
      than the message buffer was about to be taken into it, behind which the code does not say what happens. */
  datatype End = Again | OverSend | TooLong | BadSum | Overrun

  /** The whole messages, the one refused by its checksum (if any), and the bytes left. */
  datatype Cut<T> = Cut(frames: seq<seq<T>>, bad: seq<T>, rest: seq<T>, end: End)

  function Cons<T>(m: seq<T>, c: Cut<T>): Cut<T> {
    c.(frames := [m] + c.frames)
  }

  /** What becomes of the first message of `b`: cut off, or the reason why not. */
  function First<T>(b: seq<T>, r: Rules<T>): (e: End)
    ensures e != OverSend
  {
    if |b| < HEADER then Again
    else if Len(b, r) >= r.max then TooLong
    else if |b| < Len(b, r) + HEADER then Again
    else if Len(b, r) + HEADER > r.room then Overrun
    else BadSum
  }

  predicate Whole<T>(b: seq<T>, r: Rules<T>) {
    |b| >= HEADER && Len(b, r) < r.max && |b| >= Len(b, r) + HEADER
  }

  /** `b` starts with a whole message that the message buffer holds. */
  predicate Taken<T>(b: seq<T>, r: Rules<T>) {
    Whole(b, r) && Len(b, r) + HEADER <= r.room
  }

  /** The greedy length-prefixed parse of a stream. */
  function Parse<T>(b: seq<T>, r: Rules<T>): Cut<T>
    decreases |b|
  {
    if !Taken(b, r) then Cut([], [], b, First(b, r))
    else
      var n := Len(b, r) + HEADER;
      if r.pass(b[..n]) then Cons(b[..n], Parse(b[n..], r)) else Cut([], b[..n], b[n..], BadSum)
  }

  /** The loop of RecvComplete, having counted `count` headers in this completion. */
  function Drain<T>(b: seq<T>, r: Rules<T>, count: nat): Cut<T>
    decreases |b|
  {
    if |b| >= HEADER && count + 1 >= OVERSEND then Cut([], [], b, OverSend)
    else if !Taken(b, r) then Cut([], [], b, First(b, r))
    else
      var n := Len(b, r) + HEADER;
      if r.pass(b[..n]) then Cons(b[..n], Drain(b[n..], r, count + 1)) else Cut([], b[..n], b[n..], BadSum)
  }

  lemma FlatCons<T>(m: seq<T>, c: Cut<T>)
    ensures Flat(Cons(m, c).frames) == m + Flat(c.frames)
  {
    assert ([m] + c.frames)[1..] == c.frames;
  }

  /** No byte is lost or made up. */
  lemma {:induction false} ParseConserves<T>(b: seq<T>, r: Rules<T>)
    ensures var c := Parse(b, r); Flat(c.frames) + (c.bad + c.rest) == b
    decreases |b|
  {
    if Taken(b, r) {
      var n := Len(b, r) + HEADER;
      assert b == b[..n] + b[n..];
      if r.pass(b[..n]) {
        var c := Parse(b[n..], r);
        ParseConserves(b[n..], r);
        FlatCons(b[..n], c);
        Assoc(b[..n], Flat(c.frames), c.bad + c.rest);
      }
    }
  }

  /** A whole message that passes, and nothing more. */
  predicate Exact<T>(m: seq<T>, r: Rules<T>) {
    Taken(m, r) && |m| == Len(m, r) + HEADER && r.pass(m)
  }

  /** Every message delivered is as long as its header says and passes; cutting stops at the first that does not. */
  lemma {:induction false} ParseIsExact<T>(b: seq<T>, r: Rules<T>)
    ensures var c := Parse(b, r);
            && (forall m :: m in c.frames ==> Exact(m, r))
            && c.end == (if c.bad != [] then BadSum else First(c.rest, r))
            && (c.bad == [] ==> !Taken(c.rest, r))
            && (c.bad != [] ==> Taken(c.bad, r) && |c.bad| == Len(c.bad, r) + HEADER && !r.pass(c.bad))
    decreases |b|
  {
    if Taken(b, r) {
      var n := Len(b, r) + HEADER;
      assert b[..n][..HEADER] == b[..HEADER];
      if r.pass(b[..n]) { ParseIsExact(b[n..], r); }
    }
  }

  lemma CutOff<T>(a: seq<T>, b: seq<T>, n: nat)
    requires n <= |a|
    ensures (a + b)[..n] == a[..n] && (a + b)[n..] == a[n..] + b
  {
  }

  /** Cutting a stream that arrives in two parts: what was left of the first is cut with the second. */
  lemma {:induction false} ParseSplit<T>(a: seq<T>, b: seq<T>, r: Rules<T>)
    ensures var c := Parse(a, r);
            Parse(a + b, r) == if c.end != Again then c.(rest := c.rest + b) else Onto(c.frames, Parse(c.rest + b, r))
    decreases |a|
  {
    if |a| >= HEADER { CutOff(a, b, HEADER); }
    if Taken(a, r) {
      var n := Len(a, r) + HEADER;
      CutOff(a, b, n);
      if r.pass(a[..n]) {
        var c := Parse(a[n..], r);
        ParseSplit(a[n..], b, r);
        Assoc([a[..n]], c.frames, Parse(c.rest + b, r).frames);
      }
    } else if First(a, r) == Again {
      assert [] + Parse(a + b, r).frames == Parse(a + b, r).frames;
    }
  }

  /** What is cut after the messages `frames`. */
  function Onto<T>(frames: seq<seq<T>>, c: Cut<T>): Cut<T> {
    c.(frames := frames + c.frames)
  }

  /** The length of the first `k` messages. */
  function Before<T>(c: Cut<T>, k: nat): nat
    requires k <= |c.frames|
  {
    |Flat(c.frames[..k])|
  }

  /**
   * One completion cuts as the parse does, up to its 150th header: it gives up exactly when 149 messages are
   * followed by another header, having delivered those 149.
   */
  lemma {:induction false} DrainIsParse<T>(b: seq<T>, r: Rules<T>, count: nat)
    requires count < OVERSEND
    ensures Drain(b, r, count) == Limited(b, Parse(b, r), OVERSEND - 1 - count)
    decreases |b|
  {
    var c := Parse(b, r);
    var left := OVERSEND - 1 - count;
    if left == 0 {
      assert c.frames[..0] == [];
    } else if Taken(b, r) {
      var n := Len(b, r) + HEADER;
      if r.pass(b[..n]) {
        DrainIsParse(b[n..], r, count + 1);
        LimitedCons(b, n, Parse(b[n..], r), left);
      }
    }
  }

  /** `c` cut from `b`, given up on the header that follows the first `left` messages, if one follows. */
  function Limited<T>(b: seq<T>, c: Cut<T>, left: nat): Cut<T> {
    if |c.frames| >= left && |b| >= Before(c, left) + HEADER
    then Cut(c.frames[..left], [], b[Before(c, left)..], OverSend)
    else c
  }

  lemma LimitedCons<T>(b: seq<T>, n: nat, c: Cut<T>, left: nat)
    requires n <= |b| && left > 0
    ensures Limited(b, Cons(b[..n], c), left) == Cons(b[..n], Limited(b[n..], c, left - 1))
  {
    if |c.frames| >= left - 1 {
      var m := b[..n];
      assert Cons(m, c).frames[..left] == [m] + c.frames[..left - 1];
      FlatCons(m, c.(frames := c.frames[..left - 1]));
      if |b[n..]| >= Before(c, left - 1) {
        assert b[n..][Before(c, left - 1)..] == b[n + Before(c, left - 1)..];
      }
    }
  }
}
