/** The Stub's reads undo the Proxy's writes, and only those; nothing is handed over from a cut-off message. */
module WireTrip {
  import opened Wire

  /** The arguments of a call fit the signature: each dynamic one is as long as the field before it says. */
  ghost predicate Fits<T>(types: seq<Type>, words: seq<Name>, env: Env<T>, size: seq<T> -> nat, i: nat)
    requires i <= |words| == |types|
  {
    forall k :: FIRST <= k < i ==> FitsAt(types, words, env, size, k)
  }

  ghost predicate FitsAt<T>(types: seq<Type>, words: seq<Name>, env: Env<T>, size: seq<T> -> nat, k: nat)
    requires FIRST <= k < |words| == |types|
  {
    && words[k] in env
    && match types[k]
       case Scalar(w) => |env[words[k]]| == w
       case Sized(n) => |env[words[k]]| == 2 * n
       case Dynamic => |env[words[k]]| == size(Value(env, words[k - 1])) <= DYNAMIC
  }

  /** The Stub's locals, with whatever they hold before the reads. */
  ghost predicate Declared<T>(types: seq<Type>, words: seq<Name>, vars: Env<T>, i: nat)
    requires i <= |words| == |types|
  {
    forall k :: FIRST <= k < i ==> DeclaredAt(types, words, vars, k)
  }

  ghost predicate DeclaredAt<T>(types: seq<Type>, words: seq<Name>, vars: Env<T>, k: nat)
    requires FIRST <= k < |words| == |types|
  {
    words[k] in vars && |vars[words[k]]| == LocalOf(types, words, k).bytes
  }

  /** The field values in order, which is what the payload should be. */
  function Data<T>(words: seq<Name>, env: Env<T>, i: nat): seq<T>
    requires i <= |words|
  {
    if i <= FIRST then [] else Data(words, env, i - 1) + Value(env, words[i - 1])
  }

  lemma WriteSnoc<T>(puts: seq<Put>, p: Put, env: Env<T>, buf: seq<T>, size: seq<T> -> nat, cap: nat)
    ensures Write(puts + [p], env, buf, size, cap) ==
            match Write(puts, env, buf, size, cap)
            case None => None
            case Some(b) => if |b| + |Bytes(p, env, size)| > cap then None else Some(b + Bytes(p, env, size))
  {
    assert (puts + [p])[..|puts|] == puts;
  }

  lemma ReadSnoc<T>(gets: seq<Get>, g: Get, vars: Env<T>, buf: seq<T>, size: seq<T> -> nat)
    ensures Read(gets + [g], vars, buf, size) ==
            match Read(gets, vars, buf, size)
            case Got(v, rest) => ReadOne(g, v, rest, size)
            case HasNotData => HasNotData
            case Overrun => Overrun
  {
    assert (gets + [g])[..|gets|] == gets;
  }

  lemma Assoc<T>(x: seq<T>, y: seq<T>, z: seq<T>)
    ensures (x + y) + z == x + (y + z)
  {
  }

  /** One put copies its whole argument. */
  lemma PutsValue<T>(types: seq<Type>, words: seq<Name>, env: Env<T>, size: seq<T> -> nat, k: nat)
    requires FIRST <= k < |words| == |types| && FitsAt(types, words, env, size, k)
    ensures Bytes(PutOf(types, words, k), env, size) == Value(env, words[k])
  {
  }

  /** The message after puts of the bytes `d`. */
  function Appended<T>(buf: seq<T>, d: seq<T>, cap: nat): Option<seq<T>> {
    if |buf| + |d| <= cap then Some(buf + d) else None
  }

  lemma WriteNext<T>(puts: seq<Put>, p: Put, env: Env<T>, buf: seq<T>, d: seq<T>, x: seq<T>, size: seq<T> -> nat,
                     cap: nat)
    requires Write(puts, env, buf, size, cap) == Appended(buf, d, cap) && Bytes(p, env, size) == x && |buf| <= cap
    ensures Write(puts + [p], env, buf, size, cap) == Appended(buf, d + x, cap)
  {
    WriteSnoc(puts, p, env, buf, size, cap);
    Assoc(buf, d, x);
  }

  /** The Proxy's puts append the field values; they throw exactly when these do not fit. */
  lemma {:induction false} WritesData<T>(types: seq<Type>, words: seq<Name>, env: Env<T>, buf: seq<T>,
                                         size: seq<T> -> nat, cap: nat, i: nat)
    requires i <= |words| == |types| && Fits(types, words, env, size, i) && |buf| <= cap
    ensures Write(Puts(types, words, i), env, buf, size, cap) == Appended(buf, Data(words, env, i), cap)
  {
    if i <= FIRST {
      assert buf + [] == buf;
    } else {
      WritesData(types, words, env, buf, size, cap, i - 1);
      assert FitsAt(types, words, env, size, i - 1);
      PutsValue(types, words, env, size, i - 1);
      WriteNext(Puts(types, words, i - 1), PutOf(types, words, i - 1), env, buf, Data(words, env, i - 1),
                Value(env, words[i - 1]), size, cap);
    }
  }

  /** The locals after the reads: each starts with its value, and a longer buffer keeps the rest of what it held. */
  function Filled<T>(words: seq<Name>, env: Env<T>, vars: Env<T>, i: nat): Env<T>
    requires i <= |words|
  {
    Mixed(Over, words, env, vars, i)
  }

  /** Each name in turn gets what `f` makes of the two values. */
  function Mixed<T>(f: (seq<T>, seq<T>) -> seq<T>, words: seq<Name>, env: Env<T>, vars: Env<T>, i: nat): Env<T>
    requires i <= |words|
  {
    if i <= FIRST then vars
    else
      var v := Mixed(f, words, env, vars, i - 1);
      v[words[i - 1] := f(Value(env, words[i - 1]), Value(v, words[i - 1]))]
  }

  /** `x` written over the start of `s`. */
  function Over<T>(x: seq<T>, s: seq<T>): seq<T> {
    x + Past(s, |x|)
  }

  function Past<T>(s: seq<T>, n: nat): seq<T> {
    if n <= |s| then s[n..] else []
  }

  lemma Apart(words: seq<Name>, i: nat, k: nat)
    requires Distinct(words) && i < |words| && k < |words| && i != k
    ensures words[i] != words[k]
  {
    assert Differ(words, if i < k then i else k, if i < k then k else i);
  }

  lemma PutAt<T>(v: Env<T>, name: Name, x: seq<T>, other: Name)
    ensures Value(v[name := x], other) == if other == name then x else Value(v, other)
  {
  }

  lemma SameName(words: seq<Name>, i: nat, k: nat)
    requires Distinct(words) && i < |words| && k < |words|
    ensures words[i] == words[k] <==> i == k
  {
    if i != k { Apart(words, i, k); }
  }

  lemma {:induction false} MixedAt<T>(f: (seq<T>, seq<T>) -> seq<T>, words: seq<Name>, env: Env<T>, vars: Env<T>,
                                      i: nat, k: nat)
    requires i <= |words| && FIRST <= k < |words| && Distinct(words)
    ensures Value(Mixed(f, words, env, vars, i), words[k]) ==
            if k < i then f(Value(env, words[k]), Value(vars, words[k])) else Value(vars, words[k])
    decreases i
  {
    if i > FIRST {
      var v := Mixed(f, words, env, vars, i - 1);
      MixedAt(f, words, env, vars, i - 1, k);
      SameName(words, i - 1, k);
      PutAt(v, words[i - 1], f(Value(env, words[i - 1]), Value(v, words[i - 1])), words[k]);
    }
  }

  lemma FilledAt<T>(words: seq<Name>, env: Env<T>, vars: Env<T>, i: nat, k: nat)
    requires i <= |words| && FIRST <= k < |words| && Distinct(words)
    ensures Value(Filled(words, env, vars, i), words[k]) ==
            if k < i then Over(Value(env, words[k]), Value(vars, words[k])) else Value(vars, words[k])
  {
    MixedAt(Over, words, env, vars, i, k);
  }

  /** One get reads a whole argument. */
  lemma GetsValue<T>(types: seq<Type>, words: seq<Name>, env: Env<T>, vars: Env<T>, tail: seq<T>,
                     size: seq<T> -> nat, k: nat, n: nat)
    requires Signature(types, words, n) && FIRST <= k < n && FitsAt(types, words, env, size, k)
    requires |Value(vars, words[k])| == LocalOf(types, words, k).bytes
    requires types[k].Dynamic? ==> Value(vars, words[k - 1]) == Value(env, words[k - 1])
    ensures var x := Value(env, words[k]);
            ReadOne(GetOf(types, words, k), vars, x + tail, size) ==
            Got(vars[words[k] := Over(x, Value(vars, words[k]))], tail)
  {
    if types[k].Dynamic? {
      assert Led(types, k);
      Apart(words, k - 1, k);
    }
    var x := Value(env, words[k]);
    assert (x + tail)[..|x|] == x && (x + tail)[|x|..] == tail;
  }

  lemma ReadNext<T>(gets: seq<Get>, g: Get, vars: Env<T>, buf: seq<T>, size: seq<T> -> nat,
                    v: Env<T>, rest: seq<T>, out: Got<T>)
    requires Read(gets, vars, buf, size) == Got(v, rest) && ReadOne(g, v, rest, size) == out
    ensures Read(gets + [g], vars, buf, size) == out
  {
    ReadSnoc(gets, g, vars, buf, size);
  }

  /** When its turn comes, the length before a dynamic field has been read. */
  lemma ReadyAt<T>(types: seq<Type>, words: seq<Name>, env: Env<T>, vars: Env<T>, size: seq<T> -> nat, k: nat, i: nat)
    requires Signature(types, words, i) && FIRST <= k < i
    requires Fits(types, words, env, size, i) && Declared(types, words, vars, i)
    ensures var v := Filled(words, env, vars, k);
            && |Value(v, words[k])| == LocalOf(types, words, k).bytes
            && (types[k].Dynamic? ==> Value(v, words[k - 1]) == Value(env, words[k - 1]))
  {
    FilledAt(words, env, vars, k, k);
    assert Led(types, k) && DeclaredAt(types, words, vars, k);
    if types[k].Dynamic? {
      assert FitsAt(types, words, env, size, k - 1) && DeclaredAt(types, words, vars, k - 1);
      FilledAt(words, env, vars, k, k - 1);
    }
  }

  lemma FilledNext<T>(words: seq<Name>, env: Env<T>, vars: Env<T>, i: nat)
    requires FIRST < i <= |words|
    ensures var v := Filled(words, env, vars, i - 1);
            Filled(words, env, vars, i) == v[words[i - 1] := Over(Value(env, words[i - 1]), Value(v, words[i - 1]))]
  {
  }

  lemma ReadsInto<T>(types: seq<Type>, words: seq<Name>, env: Env<T>, vars: Env<T>, tail: seq<T>,
                     size: seq<T> -> nat, k: nat, i: nat, v: Env<T>)
    requires Signature(types, words, i) && FIRST <= k < i && v == Filled(words, env, vars, k)
    requires Fits(types, words, env, size, i) && Declared(types, words, vars, i)
    ensures ReadOne(GetOf(types, words, k), v, Value(env, words[k]) + tail, size) ==
            Got(v[words[k] := Over(Value(env, words[k]), Value(v, words[k]))], tail)
  {
    ReadyAt(types, words, env, vars, size, k, i);
    assert FitsAt(types, words, env, size, k);
    GetsValue(types, words, env, v, tail, size, k, i);
  }

  lemma ReadsOne<T>(types: seq<Type>, words: seq<Name>, env: Env<T>, vars: Env<T>, tail: seq<T>,
                    size: seq<T> -> nat, i: nat)
    requires Signature(types, words, i) && FIRST < i
    requires Fits(types, words, env, size, i) && Declared(types, words, vars, i)
    ensures ReadOne(GetOf(types, words, i - 1), Filled(words, env, vars, i - 1), Value(env, words[i - 1]) + tail,
                    size) ==
            Got(Filled(words, env, vars, i), tail)
  {
    ReadsInto(types, words, env, vars, tail, size, i - 1, i, Filled(words, env, vars, i - 1));
    FilledNext(words, env, vars, i);
  }

  lemma FewerFit<T>(types: seq<Type>, words: seq<Name>, env: Env<T>, size: seq<T> -> nat, i: nat)
    requires 0 < i <= |words| == |types| && Fits(types, words, env, size, i)
    ensures Fits(types, words, env, size, i - 1)
  {
  }

  /** The Stub's gets read them back, leaving what follows. */
  lemma {:induction false} ReadsData<T>(types: seq<Type>, words: seq<Name>, env: Env<T>, vars: Env<T>, tail: seq<T>,
                                        size: seq<T> -> nat, i: nat)
    requires Signature(types, words, i)
    requires Fits(types, words, env, size, i) && Declared(types, words, vars, i)
    ensures Read(Gets(types, words, i), vars, Data(words, env, i) + tail, size) ==
            Got(Filled(words, env, vars, i), tail)
    decreases i
  {
    if i <= FIRST {
      assert Data(words, env, i) + tail == tail;
    } else {
      Fewer(types, words, vars, i);
      FewerFit(types, words, env, size, i);
      var x := Value(env, words[i - 1]);
      ReadsData(types, words, env, vars, x + tail, size, i - 1);
      ReadsOne(types, words, env, vars, tail, size, i);
      Assoc(Data(words, env, i - 1), x, tail);
      ReadNext(Gets(types, words, i - 1), GetOf(types, words, i - 1), vars, Data(words, env, i - 1) + (x + tail), size,
               Filled(words, env, vars, i - 1), x + tail, Got(Filled(words, env, vars, i), tail));
    }
  }

  /** What the handler gets for parameter `k` is the caller's argument; a dynamic buffer starts with it. */
  ghost predicate Handed<T>(types: seq<Type>, words: seq<Name>, env: Env<T>, got: Env<T>, k: nat)
    requires 2 <= k < |words| == |types|
  {
    if types[k].Dynamic? then Value(env, words[k]) <= Value(got, words[k])
    else Value(got, words[k]) == Value(env, words[k])
  }

  lemma HandsOver<T>(types: seq<Type>, words: seq<Name>, env: Env<T>, vars: Env<T>, size: seq<T> -> nat,
                     i: nat, k: nat)
    requires Signature(types, words, i) && FIRST <= k < i
    requires Fits(types, words, env, size, i) && Declared(types, words, vars, i)
    ensures Handed(types, words, env, Filled(words, env, vars, i), k)
  {
    assert FitsAt(types, words, env, size, k) && DeclaredAt(types, words, vars, k);
    FilledAt(words, env, vars, i, k);
  }

  /** The reads of the fields before parameter `i` end with `tail` unread, every argument handed over. */
  ghost predicate Arrived<T>(types: seq<Type>, words: seq<Name>, env: Env<T>, g: Got<T>, tail: seq<T>, i: nat)
    requires i <= |words| == |types|
  {
    g.Got? && g.rest == tail && forall k :: 2 <= k < i ==> Handed(types, words, env, g.vars, k)
  }

  lemma Arrives<T>(types: seq<Type>, words: seq<Name>, env: Env<T>, vars: Env<T>, tail: seq<T>, size: seq<T> -> nat,
                   i: nat)
    requires Signature(types, words, i)
    requires Fits(types, words, env, size, i) && Declared(types, words, vars, i)
    ensures Arrived(types, words, env, Read(Gets(types, words, i), vars, Data(words, env, i) + tail, size), tail, i)
  {
    ReadsData(types, words, env, vars, tail, size, i);
    forall k | FIRST <= k < i
      ensures Handed(types, words, env, Filled(words, env, vars, i), k)
    {
      HandsOver(types, words, env, vars, size, i, k);
    }
  }

  /**
   * The call arrives: from what the Proxy's puts of the fields before `i` added to any buffer, the Stub's gets take
   * exactly that and hand every argument over; and the puts succeed exactly when the arguments fit.
   */
  lemma RoundTrip<T>(types: seq<Type>, words: seq<Name>, env: Env<T>, vars: Env<T>, buf: seq<T>, tail: seq<T>,
                     size: seq<T> -> nat, cap: nat, i: nat)
    requires Signature(types, words, i) && |buf| <= cap
    requires Fits(types, words, env, size, i) && Declared(types, words, vars, i)
    ensures var w := Write(Puts(types, words, i), env, buf, size, cap);
            && (w.Some? <==> |buf| + |Data(words, env, i)| <= cap)
            && (w.Some? ==>
                  && buf <= w.value
                  && Arrived(types, words, env, Read(Gets(types, words, i), vars, w.value[|buf|..] + tail, size), tail,
                             i))
  {
    var d := Data(words, env, i);
    WritesData(types, words, env, buf, size, cap, i);
    assert (buf + d)[|buf|..] == d;
    Arrives(types, words, env, vars, tail, size, i);
  }

  // ---- messages that no Proxy made

  /** One get past the end of what came. */
  lemma GetsNothing<T>(types: seq<Type>, words: seq<Name>, env: Env<T>, vars: Env<T>, part: seq<T>,
                       size: seq<T> -> nat, i: nat)
    requires Signature(types, words, i) && FIRST < i
    requires Fits(types, words, env, size, i) && Declared(types, words, vars, i)
    requires |part| < |Value(env, words[i - 1])|
    ensures ReadOne(GetOf(types, words, i - 1), Filled(words, env, vars, i - 1), part, size) == HasNotData
  {
    ReadyAt(types, words, env, vars, size, i - 1, i);
    assert FitsAt(types, words, env, size, i - 1);
  }

  lemma CutWhere<T>(d: seq<T>, x: seq<T>, b: seq<T>)
    requires b < d + x
    ensures b < d || (|b| >= |d| && b == d + b[|d|..] && |b[|d|..]| < |x|)
  {
    assert d == (d + x)[..|d|];
  }

  lemma ThrowsNext<T>(gets: seq<Get>, g: Get, vars: Env<T>, b: seq<T>, size: seq<T> -> nat)
    requires Read(gets, vars, b, size) == HasNotData
    ensures Read(gets + [g], vars, b, size) == HasNotData
  {
    ReadSnoc(gets, g, vars, b, size);
  }

  /** The payload ends inside the last of the first fields. */
  lemma CutInside<T>(types: seq<Type>, words: seq<Name>, env: Env<T>, vars: Env<T>, part: seq<T>,
                     size: seq<T> -> nat, i: nat)
    requires Signature(types, words, i) && FIRST < i
    requires Fits(types, words, env, size, i) && Declared(types, words, vars, i)
    requires |part| < |Value(env, words[i - 1])|
    ensures Read(Gets(types, words, i), vars, Data(words, env, i - 1) + part, size) == HasNotData
  {
    ReadsData(types, words, env, vars, part, size, i - 1);
    GetsNothing(types, words, env, vars, part, size, i);
    ReadNext(Gets(types, words, i - 1), GetOf(types, words, i - 1), vars, Data(words, env, i - 1) + part, size,
             Filled(words, env, vars, i - 1), part, HasNotData);
  }

  /** A payload cut short anywhere throws HasNotData, so the handler is not called. */
  lemma {:induction false} CutShortThrows<T>(types: seq<Type>, words: seq<Name>, env: Env<T>, vars: Env<T>,
                                             b: seq<T>, size: seq<T> -> nat, i: nat)
    requires Signature(types, words, i)
    requires Fits(types, words, env, size, i) && Declared(types, words, vars, i)
    requires b < Data(words, env, i)
    ensures Read(Gets(types, words, i), vars, b, size) == HasNotData
    decreases i
  {
    var d := Data(words, env, i - 1);
    CutWhere(d, Value(env, words[i - 1]), b);
    if b < d {
      CutShortThrows(types, words, env, vars, b, size, i - 1);
      ThrowsNext(Gets(types, words, i - 1), GetOf(types, words, i - 1), vars, b, size);
    } else {
      CutInside(types, words, env, vars, b[|d|..], size, i);
    }
  }

  /** No local is overrun, and all keep their sizes. */
  ghost predicate Within<T>(types: seq<Type>, words: seq<Name>, g: Got<T>, n: nat, i: nat)
    requires i <= |words| == |types|
  {
    g != Overrun && (g.Got? ==> Declared(types, words, g.vars, i) && |g.rest| <= n)
  }

  lemma WithinNext<T>(types: seq<Type>, words: seq<Name>, gets: seq<Get>, x: Get, vars: Env<T>, b: seq<T>,
                      size: seq<T> -> nat, n: nat, i: nat, g: Got<T>)
    requires i <= |words| == |types| && g == Read(gets, vars, b, size) && Within(types, words, g, n, i)
    requires g.Got? ==> Within(types, words, ReadOne(x, g.vars, g.rest, size), n, i)
    ensures Within(types, words, Read(gets + [x], vars, b, size), n, i)
  {
    ReadSnoc(gets, x, vars, b, size);
  }

  lemma GetsMore(types: seq<Type>, words: seq<Name>, i: nat) returns (fewer: seq<Get>)
    requires FIRST < i <= |words| == |types|
    ensures fewer == Gets(types, words, i - 1) && Gets(types, words, i) == fewer + [GetOf(types, words, i - 1)]
  {
    fewer := Gets(types, words, i - 1);
  }

  lemma {:induction false} ReadsWithin<T>(types: seq<Type>, words: seq<Name>, vars: Env<T>, b: seq<T>,
                                          size: seq<T> -> nat, n: nat, i: nat, gets: seq<Get>) returns (g: Got<T>)
    requires Signature(types, words, n) && i <= n && gets == Gets(types, words, i)
    requires Declared(types, words, vars, n) && |b| <= DYNAMIC
    ensures g == Read(gets, vars, b, size) && Within(types, words, g, |b|, n)
    decreases i
  {
    if i <= FIRST {
      g := NoneWithin(types, words, vars, b, size, n, gets);
    } else {
      var fewer := GetsMore(types, words, i);
      var h := ReadsWithin(types, words, vars, b, size, n, i - 1, fewer);
      g := OneMoreWithin(types, words, vars, b, size, n, i - 1, fewer, gets, h);
    }
  }

  lemma NoneWithin<T>(types: seq<Type>, words: seq<Name>, vars: Env<T>, b: seq<T>, size: seq<T> -> nat, n: nat,
                      gets: seq<Get>) returns (g: Got<T>)
    requires gets == [] && n <= |words| == |types| && Declared(types, words, vars, n)
    ensures g == Read(gets, vars, b, size) && Within(types, words, g, |b|, n)
  {
    g := Got(vars, b);
  }

  /** Reads keep every local's size, and never pass a local's end in a message of at most 4000 bytes. */
  lemma NeverOverruns<T>(types: seq<Type>, words: seq<Name>, vars: Env<T>, b: seq<T>, size: seq<T> -> nat, n: nat,
                         i: nat)
    requires Signature(types, words, n) && i <= n
    requires Declared(types, words, vars, n) && |b| <= 4000
    ensures Within(types, words, Read(Gets(types, words, i), vars, b, size), |b|, n)
  {
    var g := ReadsWithin(types, words, vars, b, size, n, i, Gets(types, words, i));
  }

  lemma OneMoreWithin<T>(types: seq<Type>, words: seq<Name>, vars: Env<T>, b: seq<T>, size: seq<T> -> nat, n: nat,
                         k: nat, gets: seq<Get>, more: seq<Get>, g: Got<T>) returns (h: Got<T>)
    requires Signature(types, words, n) && FIRST <= k < n && |b| <= DYNAMIC && more == gets + [GetOf(types, words, k)]
    requires g == Read(gets, vars, b, size) && Within(types, words, g, |b|, n)
    ensures h == Read(more, vars, b, size) && Within(types, words, h, |b|, n)
  {
    h := Read(more, vars, b, size);
    if g.Got? { FillsWithin(types, words, g.vars, g.rest, size, |b|, n, k); }
    WithinNext(types, words, gets, GetOf(types, words, k), vars, b, size, |b|, n, g);
  }

  lemma FillsWithin<T>(types: seq<Type>, words: seq<Name>, vars: Env<T>, b: seq<T>, size: seq<T> -> nat, m: nat,
                       n: nat, k: nat)
    requires Signature(types, words, n) && FIRST <= k < n
    requires Declared(types, words, vars, n) && |b| <= m <= DYNAMIC
    ensures Within(types, words, ReadOne(GetOf(types, words, k), vars, b, size), m, n)
  {
    assert DeclaredAt(types, words, vars, k);
    var g := ReadOne(GetOf(types, words, k), vars, b, size);
    if g.Got? {
      forall j | FIRST <= j < n
        ensures DeclaredAt(types, words, g.vars, j)
      {
        assert DeclaredAt(types, words, vars, j);
        if j != k { Apart(words, j, k); }
      }
    }
  }

  // ---- and back

  ghost predicate Agree<T>(words: seq<Name>, v: Env<T>, w: Env<T>, i: nat)
    requires i <= |words|
  {
    forall k :: FIRST <= k < i ==> Value(v, words[k]) == Value(w, words[k])
  }

  /** The puts depend on the fields alone. */
  lemma {:induction false} WriteFrame<T>(types: seq<Type>, words: seq<Name>, v: Env<T>, w: Env<T>, buf: seq<T>,
                                         size: seq<T> -> nat, cap: nat, i: nat)
    requires Signature(types, words, i) && Agree(words, v, w, i)
    ensures Write(Puts(types, words, i), v, buf, size, cap) == Write(Puts(types, words, i), w, buf, size, cap)
    decreases i
  {
    if i > FIRST {
      WriteFrame(types, words, v, w, buf, size, cap, i - 1);
      BytesFrame(types, words, v, w, size, i);
      WriteSnoc(Puts(types, words, i - 1), PutOf(types, words, i - 1), v, buf, size, cap);
      WriteSnoc(Puts(types, words, i - 1), PutOf(types, words, i - 1), w, buf, size, cap);
    }
  }

  lemma BytesFrame<T>(types: seq<Type>, words: seq<Name>, v: Env<T>, w: Env<T>, size: seq<T> -> nat, i: nat)
    requires Signature(types, words, i) && FIRST < i && Agree(words, v, w, i)
    ensures Bytes(PutOf(types, words, i - 1), v, size) == Bytes(PutOf(types, words, i - 1), w, size)
  {
    assert Led(types, i - 1);
  }

  /** Putting back what one get took. */
  lemma OneBack<T>(types: seq<Type>, words: seq<Name>, vars: Env<T>, b: seq<T>, size: seq<T> -> nat, i: nat)
    requires Signature(types, words, i) && FIRST < i
    requires |Value(vars, words[i - 1])| == LocalOf(types, words, i - 1).bytes
    ensures var g := ReadOne(GetOf(types, words, i - 1), vars, b, size);
            g.Got? ==> Bytes(PutOf(types, words, i - 1), g.vars, size) + g.rest == b
  {
    assert Led(types, i - 1);
    if types[i - 1].Dynamic? { Apart(words, i - 2, i - 1); }
  }

  /** One get changes one local. */
  lemma OneOnly<T>(g: Get, vars: Env<T>, b: seq<T>, size: seq<T> -> nat, other: Name)
    requires g.name != other
    ensures var got := ReadOne(g, vars, b, size); got.Got? ==> Value(got.vars, other) == Value(vars, other)
  {
  }

  lemma OthersStay<T>(types: seq<Type>, words: seq<Name>, vars: Env<T>, b: seq<T>, size: seq<T> -> nat, i: nat)
    requires Signature(types, words, i) && FIRST < i
    ensures var g := ReadOne(GetOf(types, words, i - 1), vars, b, size);
            g.Got? ==> Agree(words, vars, g.vars, i - 1) && Untouched(words, vars, g.vars, i)
  {
    var x := GetOf(types, words, i - 1);
    assert x.name == words[i - 1];
    forall j | FIRST <= j < |words| && j != i - 1
      ensures var g := ReadOne(x, vars, b, size); g.Got? ==> Value(vars, words[j]) == Value(g.vars, words[j])
    {
      Apart(words, j, i - 1);
      OneOnly(x, vars, b, size, words[j]);
    }
  }

  /** The gets leave the locals they have not reached as they were. */
  ghost predicate Untouched<T>(words: seq<Name>, v: Env<T>, w: Env<T>, i: nat)
  {
    forall k :: i <= k < |words| ==> Value(v, words[k]) == Value(w, words[k])
  }

  /** The bytes read are those the puts write of the values now in `g.vars`. */
  ghost predicate FromProxy<T>(types: seq<Type>, words: seq<Name>, g: Got<T>, b: seq<T>, size: seq<T> -> nat, i: nat)
    requires i <= |words| == |types| && g.Got?
  {
    |g.rest| <= |b| &&
    var n := |b| - |g.rest|;
    b[n..] == g.rest && Write(Puts(types, words, i), g.vars, [], size, |b|) == Some(b[..n])
  }

  lemma Fewer<T>(types: seq<Type>, words: seq<Name>, vars: Env<T>, i: nat)
    requires FIRST < i && Signature(types, words, i) && Declared(types, words, vars, i)
    ensures Signature(types, words, i - 1) && Declared(types, words, vars, i - 1)
    ensures |Value(vars, words[i - 1])| == LocalOf(types, words, i - 1).bytes
  {
    assert DeclaredAt(types, words, vars, i - 1);
  }

  lemma NothingRead<T>(types: seq<Type>, words: seq<Name>, vars: Env<T>, b: seq<T>, size: seq<T> -> nat, i: nat)
    requires i <= FIRST && i <= |words| == |types|
    ensures Read(Gets(types, words, i), vars, b, size) == Got(vars, b)
    ensures FromProxy(types, words, Got(vars, b), b, size, i)
  {
    assert b[..0] == [] && b[0..] == b;
  }

  /** What the Stub accepts is what a Proxy would have written of the values it hands over. */
  lemma {:induction false} ReadsWhatWrites<T>(types: seq<Type>, words: seq<Name>, vars: Env<T>, b: seq<T>,
                                              size: seq<T> -> nat, i: nat)
    requires Signature(types, words, i) && Declared(types, words, vars, i)
    ensures var g := Read(Gets(types, words, i), vars, b, size);
            g.Got? ==>
              Untouched(words, vars, g.vars, if i < FIRST then FIRST else i) && FromProxy(types, words, g, b, size, i)
    decreases i
  {
    if i <= FIRST {
      NothingRead(types, words, vars, b, size, i);
    } else {
      Fewer(types, words, vars, i);
      ReadsWhatWrites(types, words, vars, b, size, i - 1);
      var x := GetOf(types, words, i - 1);
      ReadSnoc(Gets(types, words, i - 1), x, vars, b, size);
      var h := Read(Gets(types, words, i - 1), vars, b, size);
      if h.Got? { WritesNext(types, words, vars, h, b, size, i, ReadOne(x, h.vars, h.rest, size)); }
    }
  }

  /** Behind what the puts of the earlier fields write, the put of this one writes what its get has read. */
  lemma PutsBehind<T>(types: seq<Type>, words: seq<Name>, h: Got<T>, g: Got<T>, b: seq<T>, size: seq<T> -> nat, i: nat)
    requires Signature(types, words, i) && FIRST < i && h.Got? && g.Got? && FromProxy(types, words, h, b, size, i - 1)
    requires Agree(words, h.vars, g.vars, i - 1) && Bytes(PutOf(types, words, i - 1), g.vars, size) + g.rest == h.rest
    ensures FromProxy(types, words, g, b, size, i)
  {
    var sent := b[..|b| - |h.rest|];
    var x := Bytes(PutOf(types, words, i - 1), g.vars, size);
    SentMore(b, sent, x, h.rest, g.rest);
    WritesMore(types, words, h.vars, g.vars, sent, x, size, |b|, i);
    IsFromProxy(types, words, g, b, size, i, sent + x);
  }

  lemma IsFromProxy<T>(types: seq<Type>, words: seq<Name>, g: Got<T>, b: seq<T>, size: seq<T> -> nat, i: nat,
                       sent: seq<T>)
    requires i <= |words| == |types| && g.Got? && |g.rest| <= |b|
    requires sent == b[..|b| - |g.rest|] && b[|b| - |g.rest|..] == g.rest
    requires Write(Puts(types, words, i), g.vars, [], size, |b|) == Some(sent)
    ensures FromProxy(types, words, g, b, size, i)
  {
  }

  lemma WritesMore<T>(types: seq<Type>, words: seq<Name>, v: Env<T>, w: Env<T>, sent: seq<T>, x: seq<T>,
                      size: seq<T> -> nat, cap: nat, i: nat)
    requires Signature(types, words, i) && FIRST < i && Agree(words, v, w, i - 1)
    requires Write(Puts(types, words, i - 1), v, [], size, cap) == Some(sent)
    requires x == Bytes(PutOf(types, words, i - 1), w, size) && |sent + x| <= cap
    ensures Write(Puts(types, words, i), w, [], size, cap) == Some(sent + x)
  {
    WriteFrame(types, words, v, w, [], size, cap, i - 1);
    OnePutMore(Puts(types, words, i - 1), PutOf(types, words, i - 1), w, sent, x, size, cap);
  }

  lemma OnePutMore<T>(puts: seq<Put>, p: Put, w: Env<T>, sent: seq<T>, x: seq<T>, size: seq<T> -> nat, cap: nat)
    requires Write(puts, w, [], size, cap) == Some(sent) && x == Bytes(p, w, size) && |sent + x| <= cap
    ensures Write(puts + [p], w, [], size, cap) == Some(sent + x)
  {
    WriteSnoc(puts, p, w, [], size, cap);
  }

  lemma SentMore<T>(b: seq<T>, sent: seq<T>, x: seq<T>, was: seq<T>, rest: seq<T>)
    requires |was| <= |b| && sent == b[..|b| - |was|] && was == b[|b| - |was|..] && x + rest == was
    ensures b[..|b| - |rest|] == sent + x && b[|b| - |rest|..] == rest && |sent + x| <= |b|
  {
    assert b == sent + was;
    Assoc(sent, x, rest);
  }

  lemma WritesNext<T>(types: seq<Type>, words: seq<Name>, vars: Env<T>, h: Got<T>, b: seq<T>,
                      size: seq<T> -> nat, i: nat, g: Got<T>)
    requires Signature(types, words, i) && FIRST < i && Declared(types, words, vars, i)
    requires h.Got? && Untouched(words, vars, h.vars, i - 1) && FromProxy(types, words, h, b, size, i - 1)
    requires g == ReadOne(GetOf(types, words, i - 1), h.vars, h.rest, size)
    ensures g.Got? ==> Untouched(words, vars, g.vars, i) && FromProxy(types, words, g, b, size, i)
  {
    Fewer(types, words, vars, i);
    assert Value(vars, words[i - 1]) == Value(h.vars, words[i - 1]);
    OneBack(types, words, h.vars, h.rest, size, i);
    OthersStay(types, words, h.vars, h.rest, size, i);
    if g.Got? { PutsBehind(types, words, h, g, b, size, i); }
  }
}
