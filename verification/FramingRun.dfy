/** Whole connections: a stream that arrives in any number of completions, cut in each. */
module FramingRun {
  import opened Framing

  /** What has been cut, and is left in a ring of `cap` bytes, after the completions that brought `chunks`. */
  function Run<T>(chunks: seq<seq<T>>, r: Rules<T>): Cut<T> {
    if chunks == [] then Cut([], [], [], Again)
    else
      var n := |chunks| - 1;
      var c := Run(chunks[..n], r);
      Onto(c.frames, Drain(c.rest + chunks[n], r, 0))
  }

  /** Another receive is posted: nothing ended the connection, and the ring has room. */
  predicate Posted<T>(c: Cut<T>, cap: nat) {
    c.end == Again && |c.rest| < cap - 1
  }

  /** Each completion answers a posted receive, and brings no more than the ring has room for. */
  predicate Fits<T>(chunks: seq<seq<T>>, r: Rules<T>, cap: nat) {
    chunks == [] ||
    var n := |chunks| - 1;
    var c := Run(chunks[..n], r);
    Fits(chunks[..n], r, cap) && Posted(c, cap) && |c.rest| + |chunks[n]| <= cap - 1
  }

  lemma FlatSnoc<T>(x: seq<seq<T>>, y: seq<T>)
    ensures Flat(x + [y]) == Flat(x) + y
  {
    FlatSplit(x, [y]);
    assert Flat([y]) == y + Flat([y][1..]);
  }

  /**
   * However the stream is split into completions, the messages are those of its greedy parse, in order, and the bytes
   * left are those it leaves; a connection given up for too many messages in one completion has a prefix of them.
   */
  lemma {:induction false} ChunksDoNotMatter<T>(chunks: seq<seq<T>>, r: Rules<T>, cap: nat)
    requires Fits(chunks, r, cap)
    ensures var c := Run(chunks, r); var p := Parse(Flat(chunks), r);
            if c.end == OverSend then c.frames <= p.frames && c.bad == [] else c == p
  {
    if chunks != [] {
      var n := |chunks| - 1;
      var c := Run(chunks[..n], r);
      var b := c.rest + chunks[n];
      ChunksDoNotMatter(chunks[..n], r, cap);
      assert chunks == chunks[..n] + [chunks[n]];
      FlatSnoc(chunks[..n], chunks[n]);
      ParseSplit(Flat(chunks[..n]), chunks[n], r);
      DrainIsPrefix(b, r);
      if Drain(b, r, 0).end == OverSend {
        PrefixAfter(c.frames, Drain(b, r, 0).frames, Parse(b, r).frames);
      }
    }
  }

  lemma PrefixAfter<T>(x: seq<T>, y: seq<T>, z: seq<T>)
    requires y <= z
    ensures x + y <= x + z
  {
  }

  /** One completion cuts as the parse does, or gives up after the first of its messages. */
  lemma DrainIsPrefix<T>(b: seq<T>, r: Rules<T>)
    ensures var c := Drain(b, r, 0); var p := Parse(b, r);
            if c.end == OverSend then c.frames <= p.frames && c.bad == [] else c == p
  {
    DrainIsParse(b, r, 0);
    ParseEnd(b, r);
  }

  lemma {:induction false} ParseEnd<T>(b: seq<T>, r: Rules<T>)
    ensures Parse(b, r).end != OverSend
    decreases |b|
  {
    if Taken(b, r) { ParseEnd(b[Len(b, r) + HEADER..], r); }
  }

  /** Every byte received is in a message delivered, in the one refused, or still in the ring. */
  lemma {:induction false} RunConserves<T>(chunks: seq<seq<T>>, r: Rules<T>, cap: nat)
    requires Fits(chunks, r, cap)
    ensures var c := Run(chunks, r); Flat(c.frames) + (c.bad + c.rest) == Flat(chunks)
    ensures |Run(chunks, r).rest| <= if cap == 0 then 0 else cap - 1
  {
    if chunks != [] {
      var n := |chunks| - 1;
      var c := Run(chunks[..n], r);
      var b := c.rest + chunks[n];
      RunConserves(chunks[..n], r, cap);
      ChunksDoNotMatter(chunks[..n], r, cap);
      ParseIsExact(Flat(chunks[..n]), r);
      assert chunks == chunks[..n] + [chunks[n]];
      FlatSnoc(chunks[..n], chunks[n]);
      DrainConserves(b, r);
      var d := Drain(b, r, 0);
      FlatSplit(c.frames, d.frames);
      Assoc(Flat(c.frames), c.rest, chunks[n]);
      Assoc(Flat(c.frames), Flat(d.frames), d.bad + d.rest);
      assert c.bad + c.rest == c.rest;
    }
  }

  /** The same of one completion. */
  lemma DrainConserves<T>(b: seq<T>, r: Rules<T>)
    ensures var c := Drain(b, r, 0); Flat(c.frames) + (c.bad + c.rest) == b
    ensures |Drain(b, r, 0).rest| <= |b|
  {
    var c := Parse(b, r);
    ParseConserves(b, r);
    DrainIsParse(b, r, 0);
    if |c.frames| >= OVERSEND - 1 { FlatFirst(c.frames, OVERSEND - 1, b, c.bad + c.rest); }
  }

  /** The bytes behind the first `n` messages. */
  lemma FlatFirst<T>(ms: seq<seq<T>>, n: nat, b: seq<T>, tail: seq<T>)
    requires n <= |ms| && Flat(ms) + tail == b
    ensures |Flat(ms[..n])| <= |b| && b[..|Flat(ms[..n])|] == Flat(ms[..n])
  {
    FlatSplit(ms[..n], ms[n..]);
    assert ms == ms[..n] + ms[n..];
  }

  /** Two connections that receive the same stream and are not given up for too many messages deliver the same. */
  lemma SameStreamSameMessages<T>(x: seq<seq<T>>, y: seq<seq<T>>, r: Rules<T>, cap: nat)
    requires Fits(x, r, cap) && Fits(y, r, cap) && Flat(x) == Flat(y)
    requires Run(x, r).end != OverSend && Run(y, r).end != OverSend
    ensures Run(x, r) == Run(y, r)
  {
    ChunksDoNotMatter(x, r, cap);
    ChunksDoNotMatter(y, r, cap);
  }

  /** A stream of well-formed messages parses back to them, and what follows is parsed on its own. */
  lemma {:induction false} ParseOfMessages<T>(ms: seq<seq<T>>, tail: seq<T>, r: Rules<T>)
    requires forall m :: m in ms ==> Exact(m, r)
    ensures Parse(Flat(ms) + tail, r) == Onto(ms, Parse(tail, r))
  {
    if ms == [] {
      assert Flat(ms) + tail == tail;
      assert [] + Parse(tail, r).frames == Parse(tail, r).frames;
    } else {
      var m := ms[0];
      assert m in ms && Exact(m, r);
      var more := Flat(ms[1..]) + tail;
      ParseOfMessages(ms[1..], tail, r);
      Assoc(m, Flat(ms[1..]), tail);
      CutOff(m, more, |m|);
      CutOff(m, more, HEADER);
      assert m[..|m|] == m && m[|m|..] + more == more;
      assert ms == [m] + ms[1..];
      Assoc([m], ms[1..], Parse(tail, r).frames);
    }
  }

  /**
   * Well-formed messages sent back to back arrive as sent, however the stream is split, in connections that are
   * not given up for too many messages in one completion.
   */
  lemma MessagesArrive<T>(ms: seq<seq<T>>, chunks: seq<seq<T>>, r: Rules<T>, cap: nat)
    requires (forall m :: m in ms ==> Exact(m, r)) && Flat(chunks) == Flat(ms)
    requires Fits(chunks, r, cap)
    ensures var c := Run(chunks, r); if c.end == OverSend then c.frames <= ms else c == Cut(ms, [], [], Again)
  {
    ParseOfMessages(ms, [], r);
    assert Flat(ms) + [] == Flat(ms) && ms + [] == ms;
    ChunksDoNotMatter(chunks, r, cap);
  }

  /**
   * The ring can fill up and end the connection only on a message that it cannot hold: with every length that passes
   * below `cap - 5`, a receive is always posted again.
   */
  lemma NeverFull<T>(chunks: seq<seq<T>>, r: Rules<T>, cap: nat)
    requires Fits(chunks, r, cap) && cap > HEADER && Run(chunks, r).end == Again
    ensures Posted(Run(chunks, r), cap) || (r.max > cap - HEADER && Len(Run(chunks, r).rest, r) >= cap - HEADER)
  {
    RunConserves(chunks, r, cap);
    ChunksDoNotMatter(chunks, r, cap);
    ParseIsExact(Flat(chunks), r);
  }

  /** And on such a message it does. */
  lemma FullOnTooLong<T>(h: seq<T>, x: T, r: Rules<T>, cap: nat)
    requires |h| == HEADER && cap > HEADER && cap - HEADER <= r.len(h) < r.max
    ensures exists chunks :: Fits(chunks, r, cap) && Run(chunks, r).end == Again && !Posted(Run(chunks, r), cap)
  {
    var b := h + seq(cap - 1 - HEADER, i => x);
    var chunks := [b];
    assert chunks[..0] == [];
    assert [] + b == b && b[..HEADER] == h;
    assert !Taken(b, r);
    assert Run(chunks, r).rest == b;
    assert Fits(chunks[..0], r, cap);
  }

  /** Only a whole message above the size of the message buffer overruns it: the limit and the ring must allow one. */
  lemma OverrunNeeds<T>(chunks: seq<seq<T>>, r: Rules<T>, cap: nat)
    requires Fits(chunks, r, cap) && Run(chunks, r).end == Overrun
    ensures r.room + 1 < cap && r.room + 1 < r.max + HEADER
  {
    RunConserves(chunks, r, cap);
    ChunksDoNotMatter(chunks, r, cap);
    ParseIsExact(Flat(chunks), r);
  }

  /** And such a message does. */
  lemma OverrunBy<T>(h: seq<T>, x: T, r: Rules<T>, cap: nat)
    requires |h| == HEADER && r.room < r.len(h) + HEADER < cap && r.len(h) < r.max
    ensures exists chunks :: Fits(chunks, r, cap) && Run(chunks, r).end == Overrun
  {
    var b := h + seq(r.len(h), _ => x);
    var chunks := [b];
    assert chunks[..0] == [];
    assert [] + b == b && b[..HEADER] == h;
    assert Whole(b, r) && !Taken(b, r);
    assert Fits(chunks[..0], r, cap);
    assert Fits(chunks, r, cap) && Run(chunks, r).end == Overrun;
  }

  // ---- too many messages at once

  /** Every message has at least `l` bytes. */
  ghost predicate AtLeast<T>(ms: seq<seq<T>>, l: nat) { forall i :: 0 <= i < |ms| ==> l <= |ms[i]| }

  lemma {:induction false} FlatLength<T>(ms: seq<seq<T>>, l: nat)
    requires AtLeast(ms, l)
    ensures |Flat(ms)| >= |ms| * l
  {
    if ms != [] {
      FlatLength(ms[1..], l);
      assert |ms| * l == l + |ms[1..]| * l;
    }
  }

  /** A completion that is given up holds 149 messages and another header. */
  lemma GivenUpHolds<T>(b: seq<T>, r: Rules<T>, l: nat)
    requires Drain(b, r, 0).end == OverSend && AtLeast(Drain(b, r, 0).frames, l)
    ensures |b| >= (OVERSEND - 1) * l + HEADER
    ensures |Drain(b, r, 0).frames| == OVERSEND - 1 && Drain(b, r, 0).frames <= Parse(b, r).frames
  {
    DrainIsParse(b, r, 0);
    ParseEnd(b, r);
    FlatLength(Drain(b, r, 0).frames, l);
  }

  /** The last completion of a connection given up for too many messages. */
  lemma GivenUpLast<T>(chunks: seq<seq<T>>, r: Rules<T>, cap: nat) returns (b: seq<T>)
    requires Fits(chunks, r, cap) && Run(chunks, r).end == OverSend
    ensures Drain(b, r, 0).end == OverSend && |b| + 1 <= cap
    ensures forall m :: m in Drain(b, r, 0).frames ==> m in Run(chunks, r).frames
  {
    var n := |chunks| - 1;
    b := Run(chunks[..n], r).rest + chunks[n];
  }

  lemma GivenUpHasMessages<T>(chunks: seq<seq<T>>, r: Rules<T>, cap: nat)
    requires Fits(chunks, r, cap) && Run(chunks, r).end == OverSend
    ensures |Parse(Flat(chunks), r).frames| >= OVERSEND - 1
  {
    var n := |chunks| - 1;
    var b := Run(chunks[..n], r).rest + chunks[n];
    ChunksDoNotMatter(chunks, r, cap);
    GivenUpHolds(b, r, 0);
  }

  /** A connection whose messages are all so long that the ring does not hold 149 of them and a header is never given
      up for too many; so the split into completions does not matter at all. */
  lemma NeverGivenUp<T>(chunks: seq<seq<T>>, r: Rules<T>, cap: nat, l: nat)
    requires Fits(chunks, r, cap) && AtLeast(Parse(Flat(chunks), r).frames, l) && cap <= (OVERSEND - 1) * l + HEADER
    ensures Run(chunks, r) == Parse(Flat(chunks), r) && Run(chunks, r).end != OverSend
  {
    ChunksDoNotMatter(chunks, r, cap);
    ParseEnd(Flat(chunks), r);
    if Run(chunks, r).end == OverSend {
      var b := GivenUpLast(chunks, r, cap);
      LongToo(Drain(b, r, 0).frames, Run(chunks, r).frames, Parse(Flat(chunks), r).frames, l);
      GivenUpHolds(b, r, l);
    }
  }

  lemma LongToo<T>(ms: seq<seq<T>>, all: seq<seq<T>>, more: seq<seq<T>>, l: nat)
    requires (forall m :: m in ms ==> m in all) && all <= more && AtLeast(more, l)
    ensures AtLeast(ms, l)
  {
    forall i | 0 <= i < |ms| ensures l <= |ms[i]| { assert ms[i] in all; }
  }

  /** Every message that is cut off has a header. */
  lemma CutHasHeader<T>(b: seq<T>, r: Rules<T>)
    ensures AtLeast(Parse(b, r).frames, HEADER)
  {
    ParseIsExact(b, r);
    var ms := Parse(b, r).frames;
    forall i | 0 <= i < |ms| ensures HEADER <= |ms[i]| { assert ms[i] in ms; }
  }

  function Copies<T>(m: seq<T>, n: nat): (ms: seq<seq<T>>)
    ensures |ms| == n && forall i :: 0 <= i < n ==> ms[i] == m
  {
    seq(n, _ => m)
  }

  lemma {:induction false} CopiesLength<T>(m: seq<T>, n: nat)
    ensures |Flat(Copies(m, n))| == n * |m|
  {
    if n > 0 {
      CopiesLength(m, n - 1);
      assert Copies(m, n)[1..] == Copies(m, n - 1);
      assert n * |m| == |m| + (n - 1) * |m|;
    }
  }

  /** 149 copies of a message, and its header once more, in one completion. */
  lemma GivesUpOn<T>(m: seq<T>, r: Rules<T>, cap: nat) returns (chunks: seq<seq<T>>)
    requires Exact(m, r) && cap > (OVERSEND - 1) * |m| + HEADER
    ensures Fits(chunks, r, cap) && Run(chunks, r).end == OverSend
    ensures AtLeast(Parse(Flat(chunks), r).frames, |m|)
  {
    var ms, h := Copies(m, OVERSEND - 1), m[..HEADER];
    var b := Flat(ms) + h;
    CopiesLength(m, OVERSEND - 1);
    ParseOfMessages(ms, h, r);
    DrainIsParse(b, r, 0);
    HeaderAlone(m, r);
    chunks := [b];
    OneChunk(b, r, cap);
    assert Parse(b, r).frames[..OVERSEND - 1] == ms;
  }

  lemma HeaderAlone<T>(m: seq<T>, r: Rules<T>)
    requires Exact(m, r)
    ensures AtLeast(Parse(m[..HEADER], r).frames, |m|)
  {
    var h := m[..HEADER];
    assert h[..HEADER] == h;
    if Taken(h, r) { assert h[..HEADER] == m && h[HEADER..] == []; }
  }

  lemma OneChunk<T>(b: seq<T>, r: Rules<T>, cap: nat)
    requires |b| < cap && cap > 1
    ensures Fits([b], r, cap) && Run([b], r) == Drain(b, r, 0) && Flat([b]) == b
  {
    assert [b][..0] == [] && [] + b == b;
    assert Fits([b][..0], r, cap);
    assert [] + Drain(b, r, 0).frames == Drain(b, r, 0).frames;
    assert Flat([b]) == b + Flat([b][1..]);
  }

  /** Well-formed messages of such a length arrive as sent, without exception. */
  lemma LongMessagesArrive<T>(ms: seq<seq<T>>, chunks: seq<seq<T>>, r: Rules<T>, cap: nat, l: nat)
    requires (forall m :: m in ms ==> Exact(m, r)) && Flat(chunks) == Flat(ms) && Fits(chunks, r, cap)
    requires AtLeast(ms, l) && cap <= (OVERSEND - 1) * l + HEADER
    ensures Run(chunks, r) == Cut(ms, [], [], Again)
  {
    ParseOfMessages(ms, [], r);
    assert Flat(ms) + [] == Flat(ms) && ms + [] == ms;
    NeverGivenUp(chunks, r, cap, l);
  }

  /** What `f` makes of each message. */
  function Each<T, U>(f: T -> U, ms: seq<T>): (r: seq<U>)
    ensures |r| == |ms|
  {
    if ms == [] then [] else Each(f, ms[..|ms| - 1]) + [f(ms[|ms| - 1])]
  }

  lemma EachSnoc<T, U>(f: T -> U, ms: seq<T>, m: T)
    ensures Each(f, ms + [m]) == Each(f, ms) + [f(m)]
  {
    assert (ms + [m])[..|ms|] == ms;
  }

  lemma {:induction false} EachAt<T, U>(f: T -> U, ms: seq<T>)
    ensures forall i :: 0 <= i < |ms| ==> Each(f, ms)[i] == f(ms[i])
  {
    if ms != [] { EachAt(f, ms[..|ms| - 1]); }
  }

  // ---- one iteration of the loop

  /** Having cut `done` and counted `count` headers, the loop that ends in `all` has the bytes `s` left. */
  ghost predicate Midway<T(!new)>(all: Cut<T>, done: seq<seq<T>>, s: seq<T>, r: Rules<T>, count: nat) {
    forall c: Cut<T> :: Drains(c, s, r, count) ==> all == Onto(done, c)
  }

  predicate Drains<T(==)>(c: Cut<T>, s: seq<T>, r: Rules<T>, count: nat) { c == Drain(s, r, count) }

  lemma Started<T(!new)>(b: seq<T>, r: Rules<T>)
    ensures Midway(Drain(b, r, 0), [], b, r, 0)
  {
  }

  /** Where the loop ends without taking another message. */
  lemma Stops<T(!new)>(all: Cut<T>, done: seq<seq<T>>, s: seq<T>, r: Rules<T>, count: nat)
    requires Midway(all, done, s, r, count)
    ensures |s| < HEADER ==> all == Cut(done, [], s, Again)
    ensures |s| >= HEADER && count + 1 >= OVERSEND ==> all == Cut(done, [], s, OverSend)
    ensures |s| >= HEADER && count + 1 < OVERSEND && r.len(s[..HEADER]) >= r.max ==>
              all == Cut(done, [], s, TooLong)
    ensures |s| >= HEADER && count + 1 < OVERSEND && r.len(s[..HEADER]) < r.max && |s| < r.len(s[..HEADER]) + HEADER ==>
              all == Cut(done, [], s, Again)
    ensures count + 1 < OVERSEND && Whole(s, r) && Len(s, r) + HEADER > r.room ==> all == Cut(done, [], s, Overrun)
  {
    assert Drains(Drain(s, r, count), s, r, count);
    assert done + [] == done;
  }

  /** And with one more. */
  lemma Advances<T(!new)>(all: Cut<T>, done: seq<seq<T>>, s: seq<T>, r: Rules<T>, count: nat, n: nat)
    requires Midway(all, done, s, r, count) && Taken(s, r) && count + 1 < OVERSEND && n == r.len(s[..HEADER]) + HEADER
    ensures if r.pass(s[..n]) then Midway(all, done + [s[..n]], s[n..], r, count + 1)
            else all == Cut(done, s[..n], s[n..], BadSum)
  {
    assert Drains(Drain(s, r, count), s, r, count);
    if r.pass(s[..n]) {
      Assoc(done, [s[..n]], Drain(s[n..], r, count + 1).frames);
    } else {
      assert done + [] == done;
    }
  }
}
