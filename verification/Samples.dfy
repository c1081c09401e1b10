/** What the profiler's three smallest and three largest samples should be, and what trimming by them computes. */
module Samples {
  /** `AbnormalBufferSize` and INT_MAX. */
  const K: nat := 3
  const TOP := 0x7FFF_FFFF

  predicate Sorted(s: seq<int>) {
    forall i, j :: 0 <= i < j < |s| ==> s[i] <= s[j]
  }

  /** Insertion before the first larger element. */
  function Insert(x: int, s: seq<int>): (r: seq<int>)
    ensures |r| == |s| + 1
  {
    if s == [] then [x]
    else if s[0] > x then [x] + s
    else [s[0]] + Insert(x, s[1..])
  }

  function Sort(s: seq<int>): (r: seq<int>)
    ensures |r| == |s|
  {
    if s == [] then [] else Insert(s[|s| - 1], Sort(s[..|s| - 1]))
  }

  function Sum(s: seq<int>): int {
    if s == [] then 0 else s[0] + Sum(s[1..])
  }

  lemma {:induction false} SumSplit(x: seq<int>, y: seq<int>)
    ensures Sum(x + y) == Sum(x) + Sum(y)
  {
    if x == [] {
      assert x + y == y;
    } else {
      SumSplit(x[1..], y);
      assert (x + y)[1..] == x[1..] + y;
    }
  }

  /** Where insertion puts the element. */
  lemma {:induction false} InsertAt(x: int, s: seq<int>, i: nat)
    requires i <= |s| && (forall k :: 0 <= k < i ==> s[k] <= x) && (i < |s| ==> s[i] > x)
    ensures Insert(x, s) == s[..i] + [x] + s[i..]
  {
    if i > 0 { InsertAt(x, s[1..], i - 1); }
  }

  lemma {:induction false} Place(x: int, s: seq<int>) returns (i: nat)
    ensures i <= |s| && (forall k :: 0 <= k < i ==> s[k] <= x) && (i < |s| ==> s[i] > x)
  {
    i := 0;
    while i < |s| && s[i] <= x
      invariant i <= |s| && forall k :: 0 <= k < i ==> s[k] <= x
    {
      i := i + 1;
    }
  }

  lemma InsertKeepsOrder(x: int, s: seq<int>)
    requires Sorted(s)
    ensures Sorted(Insert(x, s))
  {
    var i := Place(x, s);
    InsertAt(x, s, i);
  }

  lemma InsertAdds(x: int, s: seq<int>)
    ensures multiset(Insert(x, s)) == multiset(s) + multiset{x}
    ensures Sum(Insert(x, s)) == Sum(s) + x
  {
    var i := Place(x, s);
    InsertAt(x, s, i);
    assert s == s[..i] + s[i..];
    AddsBetween(s[..i], x, s[i..]);
  }

  lemma AddsBetween(a: seq<int>, x: int, b: seq<int>)
    ensures multiset(a + [x] + b) == multiset(a + b) + multiset{x}
    ensures Sum(a + [x] + b) == Sum(a + b) + x
  {
    SumSplit(a, b);
    SumSplit(a + [x], b);
    SumSplit(a, [x]);
    assert Sum([x]) == x;
  }

  lemma InsertKeepsSorted(x: int, s: seq<int>)
    requires Sorted(s)
    ensures Sorted(Insert(x, s)) && multiset(Insert(x, s)) == multiset(s) + multiset{x}
    ensures Sum(Insert(x, s)) == Sum(s) + x
  {
    InsertKeepsOrder(x, s);
    InsertAdds(x, s);
  }

  lemma {:induction false} SortIsSorted(s: seq<int>)
    ensures Sorted(Sort(s)) && multiset(Sort(s)) == multiset(s) && Sum(Sort(s)) == Sum(s)
  {
    if s != [] {
      var n := |s| - 1;
      SortIsSorted(s[..n]);
      InsertKeepsSorted(s[n], Sort(s[..n]));
      assert s == s[..n] + [s[n]];
      SumSplit(s[..n], [s[n]]);
      assert Sum([s[n]]) == s[n];
    }
  }

  /** The first `k` after an insertion come from the first `k` before it. */
  lemma InsertLow(x: int, s: seq<int>, k: nat)
    requires k <= |s|
    ensures Insert(x, s)[..k] == Insert(x, s[..k])[..k]
  {
    var i := Place(x, s);
    InsertAt(x, s, i);
    if i < k {
      InsertAt(x, s[..k], i);
      assert s[..k][..i] == s[..i] && s[..k][i..] == s[i..k];
      assert (s[..i] + [x] + s[i..])[..k] == s[..i] + [x] + s[i..k - 1];
    } else {
      InsertAt(x, s[..k], k);
      assert (s[..i] + [x] + s[i..])[..k] == s[..k];
    }
  }

  lemma InsertBetween(x: int, a: seq<int>, b: seq<int>)
    requires (forall k :: 0 <= k < |a| ==> a[k] <= x) && (b != [] ==> b[0] > x)
    ensures Insert(x, a + b) == a + [x] + b
  {
    InsertAt(x, a + b, |a|);
    assert (a + b)[..|a|] == a && (a + b)[|a|..] == b;
  }

  lemma Regroup(p: seq<int>, q: seq<int>, r: seq<int>, s: seq<int>)
    ensures (p + q) + r + s == p + (q + r + s)
  {
  }

  lemma DropInside(lo: seq<int>, t: seq<int>)
    requires t != []
    ensures (lo + t)[|lo| + 1..] == t[1..]
  {
  }

  /** Insertion above the lower part, and inside it. */
  lemma InsertUp(x: int, lo: seq<int>, a: seq<int>, b: seq<int>)
    requires (forall k :: 0 <= k < |lo| ==> lo[k] <= x) && (forall k :: 0 <= k < |a| ==> a[k] <= x)
    requires b != [] ==> b[0] > x
    ensures Insert(x, lo + (a + b))[|lo| + 1..] == Insert(x, a + b)[1..]
  {
    InsertBetween(x, a, b);
    InsertBetween(x, lo + a, b);
    Regroup(lo, a, [x], b);
    Regroup(lo, a, [], b);
    assert (lo + a) + [] == lo + a && a + [] == a;
    DropInside(lo, a + [x] + b);
  }

  lemma InsertDown(x: int, a: seq<int>, b: seq<int>, hi: seq<int>)
    requires (forall k :: 0 <= k < |a| ==> a[k] <= x) && b != [] && b[0] > x && (hi != [] ==> hi[0] > x)
    ensures Insert(x, (a + b) + hi)[|a + b| + 1..] == Insert(x, hi)[1..]
  {
    InsertBetween(x, [], hi);
    assert [] + hi == hi && [] + [x] + hi == [x] + hi;
    InsertBetween(x, a, b + hi);
    assert (a + b) + hi == a + (b + hi);
    assert a + [x] + (b + hi) == (a + [x] + b) + hi;
  }

  /** And the last ones from the last ones. */
  lemma InsertHigh(x: int, s: seq<int>, m: nat)
    requires m <= |s| && Sorted(s)
    ensures Insert(x, s)[m + 1..] == Insert(x, s[m..])[1..]
  {
    var lo, hi := s[..m], s[m..];
    assert s == lo + hi;
    var i := Place(x, lo);
    if i == m {
      var j := Place(x, hi);
      assert hi == hi[..j] + hi[j..];
      InsertUp(x, lo, hi[..j], hi[j..]);
    } else {
      assert lo == lo[..i] + lo[i..];
      InsertDown(x, lo[..i], lo[i..], hi);
    }
  }

  // ---- what the two arrays should hold

  const TOPS := [TOP, TOP, TOP]
  const ZEROS := [0, 0, 0]

  /** The three smallest of the samples and the initial values, ascending. */
  function Lows(samples: seq<int>): (r: seq<int>)
    ensures |r| == 3
  {
    Sort(TOPS + samples)[..K]
  }

  /** The three largest of the samples and the initial values, ascending; `_max` holds them in the other order. */
  function Highs(samples: seq<int>): (r: seq<int>)
    ensures |r| == 3
  {
    Sort(ZEROS + samples)[|samples|..]
  }

  lemma SortSnoc(pad: seq<int>, s: seq<int>, x: int)
    ensures Sort(pad + (s + [x])) == Insert(x, Sort(pad + s))
  {
    assert pad + (s + [x]) == (pad + s) + [x];
    assert ((pad + s) + [x])[..|pad + s|] == pad + s;
  }

  lemma LowsSnoc(samples: seq<int>, x: int)
    ensures Lows(samples + [x]) == Insert(x, Lows(samples))[..3]
    ensures Sorted(Lows(samples))
  {
    SortSnoc(TOPS, samples, x);
    InsertLow(x, Sort(TOPS + samples), K);
    SortIsSorted(TOPS + samples);
  }

  lemma HighsSnoc(samples: seq<int>, x: int)
    ensures Highs(samples + [x]) == Insert(x, Highs(samples))[1..]
    ensures Sorted(Highs(samples))
  {
    SortSnoc(ZEROS, samples, x);
    SortIsSorted(ZEROS + samples);
    InsertHigh(x, Sort(ZEROS + samples), |samples|);
  }

  // ---- what trimming by them computes

  lemma HeadIsLeast(a: seq<int>, y: int)
    requires Sorted(a) && y in multiset(a)
    ensures a != [] && a[0] <= y
  {
    assert y in a;
  }

  lemma WithoutHead(a: seq<int>)
    requires a != [] && Sorted(a)
    ensures multiset(a[1..]) == multiset(a) - multiset{a[0]} && Sorted(a[1..])
  {
    assert a == [a[0]] + a[1..];
  }

  lemma SameHeads(a: seq<int>, b: seq<int>)
    requires Sorted(a) && Sorted(b) && multiset(a) == multiset(b) && a != []
    ensures b != [] && a[0] == b[0]
  {
    HeadIsLeast(b, a[0]);
    HeadIsLeast(a, b[0]);
  }

  lemma {:induction false} SortedUnique(a: seq<int>, b: seq<int>)
    requires Sorted(a) && Sorted(b) && multiset(a) == multiset(b)
    ensures a == b
  {
    if a == [] {
      assert |multiset(b)| == 0;
    } else {
      SameHeads(a, b);
      WithoutHead(a);
      WithoutHead(b);
      SortedUnique(a[1..], b[1..]);
      assert a == [a[0]] + a[1..] && b == [b[0]] + b[1..];
    }
  }

  /** Inserting three equal values. */
  function Thrice(x: int, s: seq<int>): (r: seq<int>)
    ensures |r| == |s| + 3
  {
    Insert(x, Insert(x, Insert(x, s)))
  }

  lemma SortThrice(x: int, samples: seq<int>)
    ensures Sort([x, x, x] + samples) == Thrice(x, Sort(samples))
  {
    SortIsSorted(samples);
    SortIsSorted([x, x, x] + samples);
    ThriceKeepsSorted(x, Sort(samples));
    ThreeMore(x, samples);
    SortedUnique(Sort([x, x, x] + samples), Thrice(x, Sort(samples)));
  }

  lemma ThriceKeepsSorted(x: int, s: seq<int>)
    requires Sorted(s)
    ensures Sorted(Thrice(x, s)) && multiset(Thrice(x, s)) == multiset(s) + multiset{x, x, x}
  {
    InsertKeepsSorted(x, s);
    InsertKeepsSorted(x, Insert(x, s));
    InsertKeepsSorted(x, Insert(x, Insert(x, s)));
  }

  lemma ThreeMore(x: int, samples: seq<int>)
    ensures multiset([x, x, x] + samples) == multiset(samples) + multiset{x, x, x}
  {
  }

  lemma ThriceAt(x: int, s: seq<int>, i: nat)
    requires i <= |s| && (forall k :: 0 <= k < i ==> s[k] <= x) && (i < |s| ==> s[i] > x)
    ensures Thrice(x, s) == s[..i] + [x, x, x] + s[i..]
  {
    var a, b := s[..i], s[i..];
    assert s == a + b;
    InsertBetween(x, a, b);
    InsertBetween(x, a + [x], b);
    InsertBetween(x, a + [x] + [x], b);
    assert a + [x] + [x] + [x] == a + [x, x, x];
  }

  lemma SortThriceAt(x: int, samples: seq<int>, i: nat)
    requires i <= |samples| && (forall k :: 0 <= k < i ==> Sort(samples)[k] <= x)
    requires i < |samples| ==> Sort(samples)[i] > x
    ensures Sort([x, x, x] + samples) == Sort(samples)[..i] + [x, x, x] + Sort(samples)[i..]
  {
    SortThrice(x, samples);
    ThriceAt(x, Sort(samples), i);
  }

  lemma SumOfThree(s: seq<int>)
    requires |s| == K
    ensures Sum(s) == s[0] + s[1] + s[2]
  {
    var t := s[1..];
    var u := t[1..];
    assert u[1..] == [];
    assert Sum(u) == u[0] && Sum(t) == t[0] + Sum(u);
  }

  lemma LowPart(x: int, s: seq<int>, i: nat, t: seq<int>)
    requires i <= |s| && t == s[..i] + [x, x, x] + s[i..]
    requires K <= |s| && Sorted(s) && (forall k :: 0 <= k < i ==> s[k] <= x) && (i < |s| ==> s[i] > x)
    ensures if s[K - 1] <= x then t[..K] == s[..K] else Sum(t[..K]) < Sum(s[..K])
  {
    SumOfThree(t[..K]);
    SumOfThree(s[..K]);
    if s[K - 1] <= x {
      assert i >= K;
      assert t[..K] == s[..K];
    } else {
      assert t[K - 1] == x && t[0] <= s[0] && t[1] <= s[1];
    }
  }

  /** The lows are the three smallest samples, unless the third of these exceeds the initial value. */
  lemma LowsAre(samples: seq<int>)
    requires |samples| >= K
    ensures var s := Sort(samples);
            if s[K - 1] <= TOP then Lows(samples) == s[..K] else Sum(Lows(samples)) < Sum(s[..K])
  {
    var s := Sort(samples);
    var i := Place(TOP, s);
    SortIsSorted(samples);
    SortThriceAt(TOP, samples, i);
    LowPart(TOP, s, i, Sort(TOPS + samples));
  }

  lemma HighPart(x: int, s: seq<int>, i: nat, t: seq<int>)
    requires i <= |s| && t == s[..i] + [x, x, x] + s[i..]
    requires K <= |s| && Sorted(s) && (forall k :: 0 <= k < i ==> s[k] <= x) && (i < |s| ==> s[i] > x)
    ensures if x <= s[|s| - K] then t[|s|..] == s[|s| - K..] else Sum(t[|s|..]) > Sum(s[|s| - K..])
  {
    var n := |s|;
    var high, was := t[n..], s[n - K..];
    SumOfThree(high);
    SumOfThree(was);
    assert high[0] == t[n] && high[1] == t[n + 1] && high[2] == t[n + 2];
    assert was[0] == s[n - 3] && was[1] == s[n - 2] && was[2] == s[n - 1];
    assert forall k :: 0 <= k < n + 3 ==> t[k] == if k < i then s[k] else if k < i + 3 then x else s[k - 3];
    if x > s[n - K] { assert i > n - K; }
  }

  /** And the highs the three largest, unless the third from the end is negative. */
  lemma HighsAre(samples: seq<int>)
    requires |samples| >= K
    ensures var s := Sort(samples); var n := |samples|;
            if s[n - K] >= 0 then Highs(samples) == s[n - K..] else Sum(Highs(samples)) > Sum(s[n - K..])
  {
    var s := Sort(samples);
    var i := Place(0, s);
    SortIsSorted(samples);
    SortThriceAt(0, samples, i);
    HighsOf(samples, s, i, Sort(ZEROS + samples));
  }

  lemma HighsOf(samples: seq<int>, s: seq<int>, i: nat, t: seq<int>)
    requires K <= |samples| == |s| && Sorted(s) && i <= |s| && t == Sort(ZEROS + samples) == s[..i] + ZEROS + s[i..]
    requires (forall k :: 0 <= k < i ==> s[k] <= 0) && (i < |s| ==> s[i] > 0)
    ensures var n := |samples|;
            if s[n - K] >= 0 then Highs(samples) == s[n - K..] else Sum(Highs(samples)) > Sum(s[n - K..])
  {
    HighPart(0, s, i, t);
    assert Highs(samples) == t[|s|..];
  }

  /** What CreateProfile averages: all the samples' time, less the lows and the highs. */
  function Trimmed(samples: seq<int>): int {
    Sum(samples) - Sum(Lows(samples)) - Sum(Highs(samples))
  }

  /** The samples between the three smallest and the three largest. */
  function Middle(samples: seq<int>): seq<int>
    requires |samples| >= 6
  {
    Sort(samples)[3..|samples| - 3]
  }

  /** The third smallest sample is at most INT_MAX and the third largest is not negative. */
  predicate Tame(samples: seq<int>)
    requires |samples| >= 3
  {
    Sort(samples)[2] <= 0x7FFF_FFFF && Sort(samples)[|samples| - 3] >= 0
  }

  /** The trimmed total is that of the middle samples exactly when the initial values have all been displaced. */
  lemma TrimmedIsMiddle(samples: seq<int>)
    requires |samples| >= 6
    ensures Trimmed(samples) == Sum(Middle(samples)) <==> Tame(samples)
  {
    LowsAre(samples);
    HighsAre(samples);
    SortIsSorted(samples);
    SumOfParts(Sort(samples), K, |samples| - K);
  }

  lemma SumOfParts(s: seq<int>, i: nat, j: nat)
    requires i <= j <= |s|
    ensures Sum(s) == Sum(s[..i]) + Sum(s[i..j]) + Sum(s[j..])
  {
    SumSplit(s[..j], s[j..]);
    SumSplit(s[..i], s[i..j]);
    assert s == s[..j] + s[j..] && s[..j] == s[..i] + s[i..j];
  }

  lemma {:induction false} SumBounds(s: seq<int>, lo: int, hi: int)
    requires forall i :: 0 <= i < |s| ==> lo <= s[i] <= hi
    ensures lo * |s| <= Sum(s) <= hi * |s|
  {
    if s != [] {
      SumBounds(s[1..], lo, hi);
      assert lo * |s| == lo + lo * |s[1..]| && hi * |s| == hi + hi * |s[1..]|;
    }
  }

  /** Sorting makes up no sample. */
  lemma SortedOnes(samples: seq<int>, k: nat)
    requires k < |samples|
    ensures Sort(samples)[k] in samples
  {
    SortIsSorted(samples);
    assert Sort(samples)[k] in multiset(Sort(samples));
  }

  lemma Ends(samples: seq<int>)
    requires |samples| >= 3 && Tame(samples)
    ensures Lows(samples)[2] == Sort(samples)[2] && Highs(samples)[0] == Sort(samples)[|samples| - 3]
  {
    LowsAre(samples);
    HighsAre(samples);
  }

  lemma MiddleLies(samples: seq<int>)
    requires |samples| > 6
    ensures var m, s := Middle(samples), Sort(samples);
            |m| == |samples| - 6 && forall i :: 0 <= i < |m| ==> s[2] <= m[i] <= s[|s| - 3]
  {
    SortIsSorted(samples);
  }

  /** The mean of the middle samples lies between the third smallest and the third largest. */
  lemma MeanIsBetween(samples: seq<int>)
    requires |samples| > 6 && Tame(samples)
    ensures var n := |samples| - 6;
            Lows(samples)[2] * n <= Trimmed(samples) <= Highs(samples)[0] * n
  {
    TrimmedIsMiddle(samples);
    Ends(samples);
    MiddleLies(samples);
    SumBounds(Middle(samples), Lows(samples)[2], Highs(samples)[0]);
  }

  /** For samples from 0 to INT_MAX trimming is exact, and its total is not negative. */
  lemma OrdinaryTrims(samples: seq<int>)
    requires |samples| >= 6 && forall x :: x in samples ==> 0 <= x <= 0x7FFF_FFFF
    ensures Tame(samples) && Trimmed(samples) == Sum(Middle(samples)) >= 0
  {
    SortedOnes(samples, K - 1);
    SortedOnes(samples, |samples| - K);
    TrimmedIsMiddle(samples);
    var m := Middle(samples);
    forall i | 0 <= i < |m|
      ensures 0 <= m[i] <= TOP
    {
      SortedOnes(samples, K + i);
    }
    SumBounds(m, 0, TOP);
  }
}
