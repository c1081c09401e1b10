/** Replace_CustomeType: every `target...'` in a signature becomes `rep`. */
module CustomTypes {
  // ---- searching

  /** `t` stands in `s` at `k`. */
  predicate Occurs(s: string, t: string, k: nat) {
    k + |t| <= |s| && forall j :: 0 <= j < |t| ==> s[k + j] == t[j]
  }

  /** `find` from `i` on; the end of the text is `npos`. */
  function Find(s: string, t: string, i: nat): (k: nat)
    requires i <= |s|
    ensures i <= k <= |s| && (k < |s| ==> k + |t| <= |s|)
    decreases |s| - i
  {
    if i == |s| || Occurs(s, t, i) then i else Find(s, t, i + 1)
  }

  /** The first closing quote from `i` on. */
  function Quote(s: string, i: nat): (k: nat)
    requires i <= |s|
    ensures i <= k <= |s|
    decreases |s| - i
  {
    if i == |s| || s[i] == '\'' then i else Quote(s, i + 1)
  }

  /** No target starts before `at`. */
  ghost predicate Clear(s: string, t: string, at: nat) {
    at <= |s| && forall k :: 0 <= k < at ==> !Occurs(s, t, k)
  }

  lemma {:induction false} FindIs(s: string, t: string, i: nat, k: nat)
    requires i <= k <= |s| && (k < |s| ==> Occurs(s, t, k)) && forall j :: i <= j < k ==> !Occurs(s, t, j)
    ensures Find(s, t, i) == k
    decreases k - i
  {
    if i < k { FindIs(s, t, i + 1, k); }
  }

  lemma {:induction false} FindFinds(s: string, t: string, i: nat)
    requires i <= |s|
    ensures var k := Find(s, t, i);
            (k < |s| ==> Occurs(s, t, k)) && forall j :: i <= j < k ==> !Occurs(s, t, j)
    decreases |s| - i
  {
    if i < |s| && !Occurs(s, t, i) { FindFinds(s, t, i + 1); }
  }

  // ---- what the loop leaves

  /** The replacement does not make new targets: it is shorter, and neither end of it occurs in one. */
  predicate Fits(t: string, rep: string) {
    0 < |rep| < |t| && rep[0] !in t && rep[|rep| - 1] !in t
  }

  /** After an iteration: the text, and where its part without targets ends. */
  datatype Step = Stay | Go(text: string, at: nat)

  /**
   * One iteration on a text without targets before `at`. From a target without a closing quote on, the replacement
   * takes the place of all text; at the very start of it, it is put in front.
   */
  function Next(s: string, at: nat, t: string, rep: string): Step
    requires at <= |s|
  {
    var p := Find(s, t, at);
    if p == |s| then Stay
    else
      var q := Quote(s, p + |t|);
      if q < |s| then Go(s[..p] + rep + s[q + 1..], p + |rep|)
      else if p > 0 then Go(s[..p] + rep, p + |rep|)
      else Go(rep + s, |rep|)
  }

  lemma NextIs(s: string, at: nat, t: string, rep: string, p: nat, q: nat)
    requires at <= |s| && p == Find(s, t, at) < |s| && q == Quote(s, p + |t|)
    ensures q < |s| ==> Next(s, at, t, rep) == Go(s[..p] + rep + s[q + 1..], p + |rep|)
    ensures q == |s| && p > 0 ==> Next(s, at, t, rep) == Go(s[..p] + rep, p + |rep|)
    ensures q == |s| && p == 0 ==> Next(s, at, t, rep) == Go(rep + s, |rep|)
  {
  }

  /** The text after all iterations. */
  function Swap(s: string, at: nat, t: string, rep: string): string
    requires Fits(t, rep) && at <= |s|
    decreases |s| - at, at == 0
  {
    match Next(s, at, t, rep)
    case Stay => s
    case Go(x, a) => Swap(x, a, t, rep)
  }

  /** A replacement at `p` keeps the text clear up to its end. */
  lemma PutsNone(s: string, p: nat, x: string, t: string, rep: string)
    requires Fits(t, rep) && Clear(s, t, p) && p + |rep| <= |x|
    requires forall j :: 0 <= j < p ==> x[j] == s[j]
    requires forall j :: 0 <= j < |rep| ==> x[p + j] == rep[j]
    ensures Clear(x, t, p + |rep|)
  {
    forall k | 0 <= k < p + |rep|
      ensures !Occurs(x, t, k)
    {
      if k + |t| <= p {
        assert !Occurs(s, t, k);
        var j :| 0 <= j < |t| && s[k + j] != t[j];
        assert x[k + j] != t[j];
      } else if k < p {
        Clash(x, t, k, p - k, rep[0], p);
      } else {
        Clash(x, t, k, p + |rep| - 1 - k, rep[|rep| - 1], p + |rep| - 1);
      }
    }
  }

  /** A character that is not in the target, inside the place in question. */
  lemma Clash(x: string, t: string, k: nat, j: nat, c: char, i: nat)
    requires j < |t| && c !in t && i == k + j < |x| && x[i] == c
    ensures !Occurs(x, t, k)
  {
    assert t[j] in t;
  }

  lemma NextIsClear(s: string, at: nat, t: string, rep: string)
    requires Fits(t, rep) && Clear(s, t, at)
    ensures var n := Next(s, at, t, rep); if n.Go? then Clear(n.text, t, n.at) else Find(s, t, 0) == |s|
  {
    var p := Find(s, t, at);
    FindFinds(s, t, at);
    assert Clear(s, t, p);
    if p == |s| {
      FindIs(s, t, 0, |s|);
    } else {
      var q := Quote(s, p + |t|);
      NextIs(s, at, t, rep, p, q);
      if q < |s| {
        PutsNone(s, p, s[..p] + rep + s[q + 1..], t, rep);
      } else if p > 0 {
        PutsNone(s, p, s[..p] + rep, t, rep);
      } else {
        PutsNone(s, 0, rep + s, t, rep);
      }
    }
  }

  /** No occurrence is left, whatever the quotes. */
  lemma {:induction false} SwapLeavesNone(s: string, at: nat, t: string, rep: string)
    requires Fits(t, rep) && Clear(s, t, at)
    ensures Find(Swap(s, at, t, rep), t, 0) == |Swap(s, at, t, rep)|
    decreases |s| - at, at == 0
  {
    NextIsClear(s, at, t, rep);
    var n := Next(s, at, t, rep);
    if n.Go? { SwapLeavesNone(n.text, n.at, t, rep); }
  }

  /** A search from the start finds what one from the clear part's end does. */
  lemma Resume(s: string, at: nat, t: string)
    requires Clear(s, t, at)
    ensures Find(s, t, 0) == Find(s, t, at)
  {
    FindFinds(s, t, at);
    FindIs(s, t, 0, Find(s, t, at));
  }

  /** One iteration, on a text whose part before `at` is clear. */
  lemma Iterates(s: string, at: nat, t: string, rep: string, x: string, a: nat)
    requires Fits(t, rep) && Clear(s, t, at) && Next(s, at, t, rep) == Go(x, a)
    ensures Clear(x, t, a) && Find(x, t, 0) == Find(x, t, a) && Swap(s, at, t, rep) == Swap(x, a, t, rep)
    ensures |x| - a < |s| - at || (|x| - a == |s| - at && at == 0 < a)
  {
    NextIsClear(s, at, t, rep);
    Resume(x, a, t);
  }

  /** What the three branches make of the text. */
  method ReplaceOne(s: string, pos: nat, target: string, rep: string, ghost at: nat)
    returns (str: string, ghost next: nat)
    requires Fits(target, rep) && at <= |s| && pos == Find(s, target, at) < |s|
    ensures Next(s, at, target, rep) == Go(str, next)
  {
    var numStart := pos + |target|;
    var numEnd := Quote(s, numStart);
    NextIs(s, at, target, rep, pos, numEnd);
    if numEnd != |s| {
      str, next := s[..pos] + rep + s[numEnd + 1..], pos + |rep|;
    } else if pos > 0 {
      str, next := s[..pos] + rep, pos + |rep|;
    } else {
      str, next := rep + s, |rep|;
    }
  }

  /** The loop, on a text that becomes `all`. */
  method ReplaceLoop(s: string, target: string, rep: string, ghost all: string) returns (str: string)
    requires Fits(target, rep) && all == Swap(s, 0, target, rep)
    ensures str == all
  {
    str := s;
    ghost var at := 0;
    var pos := Find(str, target, 0);
    while pos != |str|
      invariant Clear(str, target, at) && pos == Find(str, target, at) && all == Swap(str, at, target, rep)
      decreases |str| - at, at == 0
    {
      ghost var was, from := str, at;
      str, at := ReplaceOne(str, pos, target, rep, at);
      Iterates(was, from, target, rep, str, at);
      pos := Find(str, target, 0);
    }
  }

  method ReplaceCustomType(s: string, target: string, rep: string) returns (str: string)
    requires Fits(target, rep)
    ensures str == Swap(s, 0, target, rep)
    ensures Find(str, target, 0) == |str|
  {
    SwapLeavesNone(s, 0, target, rep);
    str := ReplaceLoop(s, target, rep, Swap(s, 0, target, rep));
  }

  /** The two replacements that FuncMaker makes. */
  lemma RealOnesFit()
    ensures Fits("SizedArray'", "WCHAR*") && Fits("DynamicArray'", "WCHAR*")
  {
  }

  // ---- a target without a closing quote

  lemma {:induction false} NoQuote(s: string, i: nat)
    requires i <= |s| && forall k :: i <= k < |s| ==> s[k] != '\''
    ensures Quote(s, i) == |s|
    decreases |s| - i
  {
    if i < |s| { NoQuote(s, i + 1); }
  }

  lemma {:induction false} QuoteFinds(s: string, i: nat)
    requires i <= |s| && Quote(s, i) == |s|
    ensures forall k :: i <= k < |s| ==> s[k] != '\''
    decreases |s| - i
  {
    if i < |s| { QuoteFinds(s, i + 1); }
  }

  /** Put in front of an unclosed target, the replacement makes the next iteration cut behind it. */
  lemma NextOfFront(s: string, t: string, rep: string)
    requires Fits(t, rep) && Occurs(s, t, 0) && Quote(s, |t|) == |s|
    ensures Next(rep + s, |rep|, t, rep) == Go(rep + rep, |rep + rep|)
  {
    var x := rep + s;
    OccursBehind(rep, s, t);
    NoQuoteBehind(rep, s, |t|);
    NextIs(x, |rep|, t, rep, |rep|, |x|);
    assert x[..|rep|] == rep;
  }

  lemma OccursBehind(x: string, s: string, t: string)
    requires Occurs(s, t, 0)
    ensures Occurs(x + s, t, |x|)
  {
    forall j | 0 <= j < |t|
      ensures (x + s)[|x| + j] == t[j]
    {
      assert s[0 + j] == t[j];
    }
  }

  lemma NoQuoteBehind(x: string, s: string, i: nat)
    requires i <= |s| && Quote(s, i) == |s|
    ensures Quote(x + s, |x| + i) == |x + s|
  {
    QuoteFinds(s, i);
    forall k | |x| + i <= k < |x + s|
      ensures (x + s)[k] != '\''
    {
      assert (x + s)[k] == s[k - |x|];
    }
    NoQuote(x + s, |x| + i);
  }

  lemma SwapGoes(s: string, at: nat, t: string, rep: string, x: string, a: nat)
    requires Fits(t, rep) && at <= |s| && Next(s, at, t, rep) == Go(x, a)
    ensures Swap(s, at, t, rep) == Swap(x, a, t, rep)
  {
  }

  lemma SwapStays(s: string, t: string, rep: string)
    requires Fits(t, rep)
    ensures Swap(s, |s|, t, rep) == s
  {
  }

  lemma SwapCuts(s: string, i: nat, p: nat, t: string, rep: string)
    requires Fits(t, rep) && i <= |s| && 0 < p == Find(s, t, i) < |s| && Quote(s, p + |t|) == |s|
    ensures Swap(s, i, t, rep) == s[..p] + rep
  {
    NextIs(s, i, t, rep, p, |s|);
    SwapGoes(s, i, t, rep, s[..p] + rep, p + |rep|);
    SwapStays(s[..p] + rep, t, rep);
  }

  /** When the first target of all is the one without a closing quote. */
  lemma UnclosedFirst(s: string, p: nat, t: string, rep: string)
    requires Fits(t, rep) && p == Find(s, t, 0) < |s| && Quote(s, p + |t|) == |s|
    ensures Swap(s, 0, t, rep) == if p > 0 then s[..p] + rep else rep + rep
  {
    if p > 0 {
      SwapCuts(s, 0, p, t, rep);
    } else {
      NextIs(s, 0, t, rep, 0, |s|);
      FindFinds(s, t, 0);
      NextOfFront(s, t, rep);
      SwapGoes(s, 0, t, rep, rep + s, |rep|);
      SwapGoes(rep + s, |rep|, t, rep, rep + rep, |rep + rep|);
      SwapStays(rep + rep, t, rep);
    }
  }

  // ---- the same of what the loop makes of a text

  predicate IsSwap(x: string, s: string, at: nat, t: string, rep: string)
    requires Fits(t, rep) && at <= |s|
  {
    x == Swap(s, at, t, rep)
  }

  /** The loop makes `all` of the text `s` that is clear before `at`. */
  ghost predicate Becomes(s: string, at: nat, t: string, rep: string, all: string)
    requires Fits(t, rep) && at <= |s|
  {
    forall x :: IsSwap(x, s, at, t, rep) ==> x == all
  }

  lemma BecomesSwap(s: string, at: nat, t: string, rep: string, all: string)
    requires Fits(t, rep) && at <= |s|
    ensures Becomes(s, at, t, rep, all) <==> Swap(s, at, t, rep) == all
  {
    assert IsSwap(Swap(s, at, t, rep), s, at, t, rep);
  }

  lemma BecomesGoes(s: string, at: nat, t: string, rep: string, x: string, a: nat, all: string)
    requires Fits(t, rep) && at <= |s| && Next(s, at, t, rep) == Go(x, a) && Becomes(x, a, t, rep, all)
    ensures Becomes(s, at, t, rep, all)
  {
    BecomesSwap(x, a, t, rep, all);
    SwapGoes(s, at, t, rep, x, a);
    BecomesSwap(s, at, t, rep, all);
  }

  lemma NextClosed(s: string, at: nat, t: string, rep: string, p: nat, q: nat, x: string)
    requires at <= |s| && p == Find(s, t, at) < |s| && q == Quote(s, p + |t|) < |s| && x == s[..p] + rep + s[q + 1..]
    ensures Next(s, at, t, rep) == Go(x, p + |rep|)
  {
    NextIs(s, at, t, rep, p, q);
  }

  // ---- signatures with closed quotes

  /** Text without a target, then a target with its quoted part. */
  datatype Piece = Piece(outside: string, inside: string)

  predicate WellQuoted(p: Piece, t: string) {
    Find(p.outside + t, t, 0) == |p.outside| && '\'' !in p.inside
  }

  function Written(ps: seq<Piece>, t: string, last: string): string {
    if ps == [] then last else (ps[0].outside + t) + ((ps[0].inside + "'") + Written(ps[1..], t, last))
  }

  function Outside(ps: seq<Piece>, rep: string, last: string): string {
    if ps == [] then last else (ps[0].outside + rep) + Outside(ps[1..], rep, last)
  }

  /** `x` stands in the text from `i` to `j`. */
  ghost predicate Holds(s: string, i: nat, j: nat, x: string) {
    i <= j <= |s| && s[i..j] == x
  }

  lemma HoldsParts(s: string, i: nat, m: nat, j: nat, x: string, y: string)
    requires Holds(s, i, j, x + y) && m == i + |x|
    ensures Holds(s, i, m, x) && Holds(s, m, j, y)
  {
    assert s[i..m] == (x + y)[..|x|] == x;
    assert s[m..j] == (x + y)[|x|..] == y;
  }

  lemma HoldsOccurs(s: string, p: nat, j: nat, t: string)
    requires Holds(s, p, j, t)
    ensures Occurs(s, t, p)
  {
    forall k | 0 <= k < |t|
      ensures s[p + k] == t[k]
    {
      assert s[p..j][k] == t[k];
    }
  }

  lemma OccursInside(s: string, i: nat, j: nat, x: string, t: string, k: nat, d: nat)
    requires Holds(s, i, j, x) && d + |t| <= |x| && k == i + d && Occurs(s, t, k)
    ensures Occurs(x, t, d)
  {
    forall c | 0 <= c < |t|
      ensures x[d + c] == t[c]
    {
      assert s[k + c] == t[c] && s[i..j][d + c] == s[k + c];
    }
  }

  /** The target of a piece is the first behind the pieces before it. */
  lemma FindsPiece(s: string, i: nat, p: nat, j: nat, o: string, t: string)
    requires t != "" && Find(o + t, t, 0) == |o| && Holds(s, i, j, o + t) && p == i + |o|
    ensures Find(s, t, i) == p < |s|
  {
    HoldsParts(s, i, p, j, o, t);
    FindFinds(o + t, t, 0);
    HoldsOccurs(s, p, j, t);
    forall k | i <= k < p
      ensures !Occurs(s, t, k)
    {
      if Occurs(s, t, k) { OccursInside(s, i, j, o + t, t, k, k - i); }
    }
    FindIs(s, t, i, p);
  }

  lemma {:induction false} QuoteIs(s: string, i: nat, q: nat)
    requires i <= q < |s| && s[q] == '\'' && forall k :: i <= k < q ==> s[k] != '\''
    ensures Quote(s, i) == q
    decreases q - i
  {
    if i < q { QuoteIs(s, i + 1, q); }
  }

  lemma QuotesPiece(s: string, m: nat, q: nat, inside: string)
    requires Holds(s, m, q + 1, inside + "'") && '\'' !in inside && q == m + |inside|
    ensures m <= q < |s| && Quote(s, m) == q
  {
    HoldsParts(s, m, q, q + 1, inside, "'");
    forall k | m <= k < q
      ensures s[k] != '\''
    {
      assert s[m..q][k - m] in inside;
    }
    assert s[q..q + 1][0] == '\'';
    QuoteIs(s, m, q);
  }

  /** Where the loop finds a piece. */
  lemma LocatesPiece(s: string, i: nat, p: nat, m: nat, q: nat, x: Piece, t: string)
    requires t != "" && WellQuoted(x, t) && p == i + |x.outside|
    requires Holds(s, i, m, x.outside + t) && Holds(s, m, q + 1, x.inside + "'")
    ensures p == Find(s, t, i) < |s| && m == p + |t| && q == Quote(s, m) < |s|
  {
    FindsPiece(s, i, p, m, x.outside, t);
    QuotesPiece(s, m, q, x.inside);
  }

  /** What stands behind the replaced piece. */
  lemma HoldsBehind(s: string, p: nat, q: nat, rep: string, x: string, i: nat, r: string)
    requires p <= q <= |s| && x == s[..p] + rep + s[q..] && i == p + |rep| && Holds(s, q, |s|, r)
    ensures Holds(x, i, |x|, r) && x[..i] == s[..p] + rep
  {
    assert s[q..] == s[q..|s|];
    assert x[i..|x|] == s[q..];
  }

  lemma Regroup(a: string, b: string, c: string, d: string)
    ensures ((a + b) + c) + d == a + ((b + c) + d)
  {
  }

  lemma WholeIs(s: string, i: nat, x: string)
    requires i <= |s| && Holds(s, i, |s|, x)
    ensures s == s[..i] + x
  {
  }

  /** A piece taken out of the text leaves what is outside it, with the rest behind. */
  lemma TakesPiece(s: string, i: nat, x: Piece, rest: string, t: string, rep: string)
    returns (p: nat, q: nat, after: string)
    requires t != "" && WellQuoted(x, t) && Holds(s, i, |s|, (x.outside + t) + ((x.inside + "'") + rest))
    ensures p == Find(s, t, i) < |s| && q == Quote(s, p + |t|) < |s| && after == s[..p] + rep + s[q + 1..]
    ensures Holds(after, p + |rep|, |after|, rest) && after[..p + |rep|] == (s[..i] + x.outside) + rep
  {
    p := i + |x.outside|;
    var m := p + |t|;
    q := m + |x.inside|;
    after := s[..p] + rep + s[q + 1..];
    HoldsParts(s, i, m, |s|, x.outside + t, (x.inside + "'") + rest);
    HoldsParts(s, m, q + 1, |s|, x.inside + "'", rest);
    LocatesPiece(s, i, p, m, q, x, t);
    HoldsBehind(s, p, q + 1, rep, after, p + |rep|, rest);
    HoldsParts(s, i, p, m, x.outside, t);
    UpTo(s, i, p, x.outside);
  }

  lemma UpTo(s: string, i: nat, p: nat, x: string)
    requires Holds(s, i, p, x)
    ensures s[..p] == s[..i] + x
  {
  }

  lemma SwapsPiece(s: string, i: nat, t: string, rep: string, p: nat, q: nat, after: string, all: string)
    requires Fits(t, rep) && i <= |s| && p == Find(s, t, i) < |s| && q == Quote(s, p + |t|) < |s|
    requires after == s[..p] + rep + s[q + 1..] && Becomes(after, p + |rep|, t, rep, all)
    ensures Becomes(s, i, t, rep, all)
  {
    NextClosed(s, i, t, rep, p, q, after);
    BecomesGoes(s, i, t, rep, after, p + |rep|, all);
  }

  /** And so does one iteration. */
  lemma PieceGoes(s: string, i: nat, x: Piece, rest: string, t: string, rep: string) returns (after: string, at: nat)
    requires Fits(t, rep) && WellQuoted(x, t) && Holds(s, i, |s|, (x.outside + t) + ((x.inside + "'") + rest))
    ensures 0 < at <= |after| && Holds(after, at, |after|, rest) && after[..at] == (s[..i] + x.outside) + rep
    ensures forall all :: Becomes(after, at, t, rep, all) ==> Becomes(s, i, t, rep, all)
  {
    var p, q;
    p, q, after := TakesPiece(s, i, x, rest, t, rep);
    at := p + |rep|;
    forall all | Becomes(after, at, t, rep, all)
      ensures Becomes(s, i, t, rep, all)
    {
      SwapsPiece(s, i, t, rep, p, q, after, all);
    }
  }

  /** The text behind the last piece stays. */
  lemma StaysLast(s: string, i: nat, t: string, rep: string, last: string)
    requires Fits(t, rep) && Find(last, t, 0) == |last| && i <= |s| && Holds(s, i, |s|, last)
    ensures Swap(s, i, t, rep) == s[..i] + last
  {
    FindFinds(last, t, 0);
    forall k | i <= k < |s|
      ensures !Occurs(s, t, k)
    {
      if Occurs(s, t, k) { OccursInside(s, i, |s|, last, t, k, k - i); }
    }
    FindIs(s, t, i, |s|);
    WholeIs(s, i, last);
  }

  lemma {:induction false} KeepsOutside(s: string, i: nat, ps: seq<Piece>, t: string, rep: string, last: string)
    requires Fits(t, rep) && (forall x :: x in ps ==> WellQuoted(x, t)) && Find(last, t, 0) == |last|
    requires i <= |s| && Holds(s, i, |s|, Written(ps, t, last))
    ensures Becomes(s, i, t, rep, s[..i] + Outside(ps, rep, last))
    decreases |ps|
  {
    if ps == [] {
      StaysLast(s, i, t, rep, last);
      BecomesSwap(s, i, t, rep, s[..i] + last);
    } else {
      assert ps[0] in ps;
      var after, at := PieceGoes(s, i, ps[0], Written(ps[1..], t, last), t, rep);
      KeepsOutside(after, at, ps[1..], t, rep, last);
      Regroup(s[..i], ps[0].outside, rep, Outside(ps[1..], rep, last));
    }
  }

  /** Nothing outside the quoted parts changes, behind any text that has no target. */
  lemma SwapKeepsOutside(s: string, i: nat, ps: seq<Piece>, t: string, rep: string, last: string)
    requires Fits(t, rep) && (forall x :: x in ps ==> WellQuoted(x, t)) && Find(last, t, 0) == |last|
    requires i <= |s| && Holds(s, i, |s|, Written(ps, t, last))
    ensures Swap(s, i, t, rep) == s[..i] + Outside(ps, rep, last)
  {
    KeepsOutside(s, i, ps, t, rep, last);
    BecomesSwap(s, i, t, rep, s[..i] + Outside(ps, rep, last));
  }

  // ---- and with one that is not closed

  lemma Joined(s: string, i: nat, p: nat, o: string, rep: string)
    requires Holds(s, i, p, o)
    ensures s[..p] + rep == s[..i] + (o + rep)
  {
    UpTo(s, i, p, o);
    Append(s[..i], o, rep);
  }

  lemma Append(a: string, b: string, c: string)
    ensures (a + b) + c == a + (b + c)
  {
  }

  lemma LocatesOpen(s: string, i: nat, p: nat, m: nat, o: string, rest: string, t: string)
    requires t != "" && Find(o + t, t, 0) == |o| && '\'' !in rest && p == i + |o| && m == p + |t|
    requires i <= |s| && Holds(s, i, |s|, (o + t) + rest)
    ensures p == Find(s, t, i) < |s| && Quote(s, m) == |s| && Holds(s, i, p, o)
  {
    HoldsParts(s, i, m, |s|, o + t, rest);
    FindsPiece(s, i, p, m, o, t);
    forall k | m <= k < |s|
      ensures s[k] != '\''
    {
      assert s[m..|s|][k - m] in rest;
    }
    NoQuote(s, m);
    HoldsParts(s, i, p, m, o, t);
  }

  lemma CutsBecome(s: string, i: nat, p: nat, t: string, rep: string)
    requires Fits(t, rep) && i <= |s| && 0 < p == Find(s, t, i) < |s| && Quote(s, p + |t|) == |s|
    ensures Becomes(s, i, t, rep, s[..p] + rep)
  {
    SwapCuts(s, i, p, t, rep);
    BecomesSwap(s, i, t, rep, s[..p] + rep);
  }

  /** The last iteration, at the target that is not closed, behind other text, */
  lemma LosesBehind(s: string, i: nat, p: nat, o: string, rest: string, t: string, rep: string)
    requires Fits(t, rep) && Find(o + t, t, 0) == |o| && '\'' !in rest && 0 < p == i + |o|
    requires i <= |s| && Holds(s, i, |s|, (o + t) + rest)
    ensures Becomes(s, i, t, rep, s[..i] + (o + rep))
  {
    LocatesOpen(s, i, p, p + |t|, o, rest, t);
    CutsBecome(s, i, p, t, rep);
    Joined(s, i, p, o, rep);
  }

  /** and at the start. */
  lemma LosesAll(s: string, rest: string, t: string, rep: string)
    requires Fits(t, rep) && Find("" + t, t, 0) == 0 && '\'' !in rest && Holds(s, 0, |s|, ("" + t) + rest)
    ensures Becomes(s, 0, t, rep, rep + rep)
  {
    LocatesOpen(s, 0, 0, |t|, "", rest, t);
    UnclosedFirst(s, 0, t, rep);
    BecomesSwap(s, 0, t, rep, rep + rep);
  }

  /** The text that is left when the rest is lost. */
  function Kept(s: string, i: nat, ps: seq<Piece>, o: string, rep: string): string
    requires i <= |s|
  {
    if i + |o| > 0 || ps != [] then s[..i] + Outside(ps, rep, o + rep) else rep + rep
  }

  lemma {:induction false} KeepsOnly(s: string, i: nat, ps: seq<Piece>, o: string, rest: string, t: string, rep: string)
    requires Fits(t, rep) && (forall x :: x in ps ==> WellQuoted(x, t)) && Find(o + t, t, 0) == |o| && '\'' !in rest
    requires i <= |s| && Holds(s, i, |s|, Written(ps, t, (o + t) + rest))
    ensures Becomes(s, i, t, rep, Kept(s, i, ps, o, rep))
    decreases |ps|
  {
    if ps == [] {
      if i + |o| > 0 { LosesBehind(s, i, i + |o|, o, rest, t, rep); } else { LosesAll(s, rest, t, rep); }
    } else {
      assert ps[0] in ps;
      var after, at := PieceGoes(s, i, ps[0], Written(ps[1..], t, (o + t) + rest), t, rep);
      KeepsOnly(after, at, ps[1..], o, rest, t, rep);
      Regroup(s[..i], ps[0].outside, rep, Outside(ps[1..], rep, o + rep));
    }
  }

  /** From the first target without a closing quote on the text is lost, whatever closed ones stand before it; where
      nothing at all stands before it, the replacement stands there twice. */
  lemma UnclosedLosesTheRest(s: string, i: nat, ps: seq<Piece>, o: string, rest: string, t: string, rep: string)
    requires Fits(t, rep) && (forall x :: x in ps ==> WellQuoted(x, t)) && Find(o + t, t, 0) == |o| && '\'' !in rest
    requires i <= |s| && Holds(s, i, |s|, Written(ps, t, (o + t) + rest))
    ensures i + |o| > 0 || ps != [] ==> Swap(s, i, t, rep) == s[..i] + Outside(ps, rep, o + rep)
    ensures i + |o| == 0 && ps == [] ==> Swap(s, i, t, rep) == rep + rep
  {
    KeepsOnly(s, i, ps, o, rest, t, rep);
    BecomesSwap(s, i, t, rep, Kept(s, i, ps, o, rep));
  }

  lemma UpToTarget(s: string, t: string, p: nat)
    requires Occurs(s, t, p)
    ensures s[..p] + t == s[..p + |t|]
  {
    assert forall j :: 0 <= j < |t| ==> s[p + j] == t[j];
  }

  lemma OccursBefore(s: string, t: string, m: nat, k: nat)
    requires m <= |s| && Occurs(s[..m], t, k)
    ensures Occurs(s, t, k)
  {
    forall j | 0 <= j < |t|
      ensures s[k + j] == t[j]
    {
      assert s[..m][k + j] == t[j];
    }
  }

  /** A text up to its first target. */
  lemma CutAtTarget(s: string, t: string, p: nat)
    requires t != "" && p == Find(s, t, 0) < |s|
    ensures p + |t| <= |s| && s[..p] + t == s[..p + |t|] && Find(s[..p] + t, t, 0) == p
  {
    FindFinds(s, t, 0);
    UpToTarget(s, t, p);
    var x := s[..p + |t|];
    forall k | 0 <= k < p
      ensures !Occurs(x, t, k)
    {
      if Occurs(x, t, k) { OccursBefore(s, t, p + |t|, k); }
    }
    FirstIn(s, x, t, p);
  }

  lemma FirstIn(s: string, x: string, t: string, p: nat)
    requires t != "" && Occurs(s, t, p) && x == s[..p + |t|] && forall k :: 0 <= k < p ==> !Occurs(x, t, k)
    ensures Find(x, t, 0) == p
  {
    assert Occurs(x, t, p);
    FindIs(x, t, 0, p);
  }

  /** Every text is of one of the two kinds: pieces with closed quotes and text without a target, or pieces with closed
      quotes and then a target that is not closed. */
  lemma {:induction false} EveryTextIs(s: string, t: string)
    returns (ps: seq<Piece>, closed: bool, o: string, rest: string)
    requires t != ""
    ensures forall x :: x in ps ==> WellQuoted(x, t)
    ensures closed ==> Find(o, t, 0) == |o| && s == Written(ps, t, o)
    ensures !closed ==> Find(o + t, t, 0) == |o| && '\'' !in rest && s == Written(ps, t, (o + t) + rest)
    decreases |s|
  {
    var p := Find(s, t, 0);
    if p == |s| {
      ps, closed, o, rest := [], true, s, "";
    } else {
      CutAtTarget(s, t, p);
      var q := Quote(s, p + |t|);
      if q == |s| {
        QuoteFinds(s, p + |t|);
        ps, closed, o, rest := [], false, s[..p], s[p + |t|..];
      } else {
        var x := FirstPiece(s, t, p, q);
        var more;
        more, closed, o, rest := EveryTextIs(s[q + 1..], t);
        ps := WithPiece(x, more, t);
      }
    }
  }

  lemma FirstPiece(s: string, t: string, p: nat, q: nat) returns (x: Piece)
    requires t != "" && p == Find(s, t, 0) < |s| && s[..p] + t == s[..p + |t|] && Find(s[..p] + t, t, 0) == p
    requires q == Quote(s, p + |t|) < |s|
    ensures WellQuoted(x, t) && s == (x.outside + t) + ((x.inside + "'") + s[q + 1..])
  {
    QuoteEnds(s, p + |t|);
    x := PieceOf(s[..p], s[p + |t|..q], t);
    ThreeParts(s, p, p + |t|, q, t);
  }

  lemma PieceOf(outside: string, inside: string, t: string) returns (x: Piece)
    requires Find(outside + t, t, 0) == |outside| && '\'' !in inside
    ensures x == Piece(outside, inside) && WellQuoted(x, t)
  {
    x := Piece(outside, inside);
  }

  lemma ThreeParts(s: string, p: nat, m: nat, q: nat, t: string)
    requires p <= m <= q < |s| && s[q] == '\'' && s[..p] + t == s[..m]
    ensures s == (s[..p] + t) + ((s[m..q] + "'") + s[q + 1..])
  {
    assert s[m..q] + "'" == s[m..q + 1];
    assert s == s[..m] + (s[m..q + 1] + s[q + 1..]);
  }

  lemma WithPiece(x: Piece, ps: seq<Piece>, t: string) returns (more: seq<Piece>)
    requires WellQuoted(x, t) && forall y :: y in ps ==> WellQuoted(y, t)
    ensures forall y :: y in more ==> WellQuoted(y, t)
    ensures forall last :: Written(more, t, last) == (x.outside + t) + ((x.inside + "'") + Written(ps, t, last))
  {
    more := [x] + ps;
    forall y | y in more ensures WellQuoted(y, t) {}
    assert more[1..] == ps && more[0] == x;
  }

  /** Nothing before the closing quote is one. */
  lemma {:induction false} QuoteEnds(s: string, i: nat)
    requires i <= |s| && Quote(s, i) < |s|
    ensures '\'' !in s[i..Quote(s, i)] && s[Quote(s, i)] == '\''
    decreases |s| - i
  {
    if s[i] != '\'' {
      QuoteEnds(s, i + 1);
      assert s[i..Quote(s, i)] == [s[i]] + s[i + 1..Quote(s, i)];
    }
  }

  /** Text without the target's first character does not hide one. */
  lemma TargetBehind(o: string, t: string)
    requires t != "" && t[0] !in o
    ensures Find(o + t, t, 0) == |o|
  {
    assert Occurs(o + t, t, |o|);
    forall k | 0 <= k < |o|
      ensures !Occurs(o + t, t, k)
    {
      assert (o + t)[k] == o[k] && o[k] in o;
    }
    FindIs(o + t, t, 0, |o|);
  }

  /** One closed target before the unclosed one. */
  lemma OneClosed(s: string, x: Piece, o: string, rest: string, t: string, rep: string)
    requires Fits(t, rep) && WellQuoted(x, t) && Find(o + t, t, 0) == |o| && '\'' !in rest
    requires s == (x.outside + t) + ((x.inside + "'") + ((o + t) + rest))
    ensures Swap(s, 0, t, rep) == (x.outside + rep) + (o + rep)
  {
    var last := (o + t) + rest;
    assert [x][1..] == [] && Written([], t, last) == last;
    assert Written([x], t, last) == s;
    UnclosedLosesTheRest(s, 0, [x], o, rest, t, rep);
    assert Outside([], rep, o + rep) == o + rep;
    assert Outside([x], rep, o + rep) == (x.outside + rep) + (o + rep);
    assert s[..0] + Outside([x], rep, o + rep) == Outside([x], rep, o + rep);
  }

  lemma FirstUnclosed(s: string, o: string, rest: string, t: string, rep: string)
    requires Fits(t, rep) && Find(o + t, t, 0) == |o| && '\'' !in rest && s == (o + t) + rest
    ensures Swap(s, 0, t, rep) == if o != "" then o + rep else rep + rep
  {
    assert s[0..|s|] == s && s[..0] + (o + rep) == o + rep;
    if o != "" { LosesBehind(s, 0, |o|, o, rest, t, rep); } else { LosesAll(s, rest, t, rep); }
    BecomesSwap(s, 0, t, rep, if o != "" then o + rep else rep + rep);
  }

  lemma LostParts(s: string, t: string, rep: string)
    requires s == "F(SizedArray'20 ID, int x)" && t == "SizedArray'" && rep == "WCHAR*"
    ensures s == ("F(" + t) + "20 ID, int x)" && "F(" + rep == "F(WCHAR*"
  {
  }

  /** In the middle, */
  lemma ParametersAreLost(s: string, t: string, rep: string)
    requires s == "F(SizedArray'20 ID, int x)" && t == "SizedArray'" && rep == "WCHAR*"
    ensures Swap(s, 0, t, rep) == "F(WCHAR*"
  {
    RealOnesFit();
    LostParts(s, t, rep);
    TargetBehind("F(", t);
    FirstUnclosed(s, "F(", "20 ID, int x)", t, rep);
  }

  lemma DoubledParts(s: string, t: string, rep: string)
    requires s == "SizedArray'20 ID)" && t == "SizedArray'" && rep == "WCHAR*"
    ensures s == ("" + t) + "20 ID)" && rep + rep == "WCHAR*WCHAR*"
  {
  }

  /** at the start, */
  lemma StartIsDoubled(s: string, t: string, rep: string)
    requires s == "SizedArray'20 ID)" && t == "SizedArray'" && rep == "WCHAR*"
    ensures Swap(s, 0, t, rep) == "WCHAR*WCHAR*"
  {
    RealOnesFit();
    DoubledParts(s, t, rep);
    TargetBehind("", t);
    FirstUnclosed(s, "", "20 ID)", t, rep);
  }

  lemma MixedIs(t: string)
    ensures "F(" + t + "20' A, " + t + "20 B, int x)" == ("F(" + t) + (("20" + "'") + ((" A, " + t) + "20 B, int x)"))
  {
    assert "20' A, " == "20'" + " A, ";
  }

  lemma MixedGives(rep: string)
    requires rep == "WCHAR*"
    ensures ("F(" + rep) + (" A, " + rep) == "F(WCHAR* A, WCHAR*"
  {
    assert "F(" + rep == "F(WCHAR*" && " A, " + rep == " A, WCHAR*";
  }

  /** and behind a closed one. */
  lemma OneOfTwoIsLost(t: string, rep: string)
    requires t == "SizedArray'" && rep == "WCHAR*"
    ensures Swap("F(" + t + "20' A, " + t + "20 B, int x)", 0, t, rep) == "F(WCHAR* A, WCHAR*"
  {
    RealOnesFit();
    TargetBehind("F(", t);
    TargetBehind(" A, ", t);
    MixedIs(t);
    MixedGives(rep);
    OneClosed("F(" + t + "20' A, " + t + "20 B, int x)", Piece("F(", "20"), " A, ", "20 B, int x)", t, rep);
  }
}
