/** CProfileManager: up to 30 entries, found by tag, each keeping its three smallest and three largest samples. */
module Profiler {
  import opened Samples

  /** A tag is the address of a literal; 0 is the null of an entry not in use. */
  type Tag = nat

  const ENTRIES: nat := 30

  /** One insertion into `_min`, ascending. */
  method KeepLow(a: array<int>, x: int)
    requires a.Length == K && Sorted(a[..])
    modifies a
    ensures a[..] == Insert(x, old(a[..]))[..K]
  {
    ghost var was := a[..];
    if x < a[K - 1] {
      var i := 0;
      while a[i] <= x
        invariant i < K && a[..] == was
        invariant forall k :: 0 <= k < i ==> a[k] <= x
        decreases K - i
      {
        i := i + 1;
      }
      InsertAt(x, was, i);
      Shift(a, i);
      a[i] := x;
    } else {
      InsertAt(x, was, K);
    }
  }

  /** The inner loop of both insertions: everything from `i` on moves one place up, the last drops out. */
  method Shift(a: array<int>, i: nat)
    requires i < a.Length
    modifies a
    ensures forall k :: 0 <= k <= i ==> a[k] == old(a[k])
    ensures forall k :: i < k < a.Length ==> a[k] == old(a[k - 1])
  {
    var j := a.Length - 1;
    while j != i
      invariant i <= j < a.Length
      invariant forall k :: 0 <= k <= j ==> a[k] == old(a[k])
      invariant forall k :: j < k < a.Length ==> a[k] == old(a[k - 1])
    {
      a[j] := a[j - 1];
      j := j - 1;
    }
  }

  function Reversed(s: seq<int>): (r: seq<int>)
    ensures |r| == |s|
  {
    seq(|s|, i requires 0 <= i < |s| => s[|s| - 1 - i])
  }

  /** Where a value goes in three ascending ones whose last `i` are at least as large; equal values do not matter. */
  lemma HighPlace(x: int, s: seq<int>, i: nat)
    requires |s| == K && Sorted(s) && i <= K
    requires forall k :: K - i <= k < K ==> s[k] >= x
    requires i < K ==> s[K - 1 - i] < x
    ensures Insert(x, s)[1..] == if i == K then s else s[1..K - i] + [x] + s[K - i..]
  {
    var p := Place(x, s);
    InsertAt(x, s, p);
    assert p >= K - i;
    assert forall k :: K - i <= k < p ==> s[k] == x;
  }

  /** One insertion into `_max`, descending. */
  method KeepHigh(a: array<int>, x: int)
    requires a.Length == K && Sorted(Reversed(a[..]))
    modifies a
    ensures Reversed(a[..]) == Insert(x, Reversed(old(a[..])))[1..]
  {
    ghost var was := Reversed(a[..]);
    assert was == [a[2], a[1], a[0]];
    if a[K - 1] < x {
      var i := 0;
      while a[i] >= x
        invariant i < K && a[..] == old(a[..])
        invariant forall k :: 0 <= k < i ==> a[k] >= x
        decreases K - i
      {
        i := i + 1;
      }
      HighPlace(x, was, i);
      Shift(a, i);
      a[i] := x;
      assert Reversed(a[..]) == [a[2], a[1], a[0]];
    } else {
      HighPlace(x, was, K);
    }
  }

  lemma Initially()
    ensures Lows([]) == TOPS && Highs([]) == ZEROS
  {
    SortThriceAt(TOP, [], 0);
    SortThriceAt(0, [], 0);
    assert TOPS + [] == TOPS && ZEROS + [] == ZEROS;
  }

  class Entry {
    var tag: Tag
    var totalTime: int
    var totalCnt: int
    const min: array<int>
    const max: array<int>
    var avg: real
    /** The samples since the entry was made or reset. */
    ghost var samples: seq<int>

    ghost predicate Valid()
      reads this, min, max
    {
      && min != max && min.Length == max.Length == K
      && totalTime == Sum(samples) && totalCnt == |samples|
      && min[..] == Lows(samples) && Reversed(max[..]) == Highs(samples)
    }

    constructor ()
      ensures Valid() && tag == 0 && samples == [] && fresh(min) && fresh(max)
    {
      tag, totalTime, totalCnt, avg, samples := 0, 0, 0, 0.0, [];
      min := new int[K](_ => TOP);
      max := new int[K](_ => 0);
      new;
      Initially();
      assert min[..] == TOPS && Reversed(max[..]) == ZEROS;
    }

    method Add(x: int)
      requires Valid()
      modifies this, min, max
      ensures Valid() && samples == old(samples) + [x] && tag == old(tag)
    {
      LowsSnoc(samples, x);
      HighsSnoc(samples, x);
      SumSplit(samples, [x]);
      assert Sum([x]) == x;
      totalCnt := totalCnt + 1;
      totalTime := totalTime + x;
      KeepLow(min, x);
      KeepHigh(max, x);
      samples := samples + [x];
    }

    /** The tag is kept. */
    method InitEntry()
      requires Valid()
      modifies this, min, max
      ensures Valid() && samples == [] && tag == old(tag)
    {
      totalTime, totalCnt, samples := 0, 0, [];
      var i := 0;
      while i < K
        invariant i <= K && forall k :: 0 <= k < i ==> min[k] == TOP && max[k] == 0
        modifies min, max
      {
        min[i] := TOP;
        max[i] := 0;
        i := i + 1;
      }
      Initially();
      assert min[..] == TOPS && Reversed(max[..]) == ZEROS;
    }

    /** The mean that CreateProfile reports of an entry with more than six samples; it breaks on a negative total. */
    method Average(frequency: real) returns (broke: bool)
      requires Valid() && totalCnt > 6 && frequency > 0.0
      modifies this`avg
      ensures Valid() && broke == (Trimmed(samples) < 0)
      ensures avg == Trimmed(samples) as real / (|samples| - 6) as real * 1000000.0 / frequency
    {
      var abnormalSum := 0;
      var j := 0;
      while j < K
        invariant j <= K && abnormalSum == Sum(min[..j]) + Sum(max[..j])
      {
        SumSplit(min[..j], [min[j]]);
        SumSplit(max[..j], [max[j]]);
        assert min[..j + 1] == min[..j] + [min[j]] && max[..j + 1] == max[..j] + [max[j]];
        abnormalSum := abnormalSum + min[j];
        abnormalSum := abnormalSum + max[j];
        j := j + 1;
      }
      assert min[..K] == min[..] && max[..K] == max[..];
      SumOfThree(max[..]);
      SumOfThree(Reversed(max[..]));
      broke := totalTime < abnormalSum;
      var total := totalTime - abnormalSum;
      avg := total as real / (totalCnt - 2 * K) as real * 1000000.0 / frequency;
    }
  }

  // ---- the table of entries

  /** An entry's tag and its samples. */
  datatype Row = Row(tag: Tag, samples: seq<int>)

  /** Of `n` rows in use, row `i` holds the samples of its tag; the first row not in use holds those of a null tag. */
  ghost predicate Holds(row: Row, i: nat, n: nat, log: map<Tag, seq<int>>, stray: seq<int>) {
    if i < n then row.tag != 0 && row.tag in log && log[row.tag] == row.samples
    else row == Row(0, if i == n then stray else [])
  }

  ghost predicate Has(rows: seq<Row>, t: Tag) {
    exists i :: 0 <= i < |rows| && rows[i].tag == t
  }

  /** The rows, the samples of every known tag, and those of a null tag agree. */
  ghost predicate Table(rows: seq<Row>, n: nat, log: map<Tag, seq<int>>, stray: seq<int>) {
    && |rows| == ENTRIES && n == |log| <= ENTRIES
    && (forall i :: 0 <= i < ENTRIES ==> Holds(rows[i], i, n, log, stray))
    && (forall i, j :: 0 <= i < j < n ==> rows[i].tag != rows[j].tag)
    && (forall t :: t in log ==> t != 0 && Has(rows, t))
    && (n == ENTRIES ==> stray == [])
  }

  lemma HasStill(rows: seq<Row>, i: nat, row: Row, t: Tag)
    requires i < |rows| && Has(rows, t) && (rows[i].tag == t ==> row.tag == t)
    ensures Has(rows[i := row], t)
  {
    var k :| 0 <= k < |rows| && rows[k].tag == t;
    assert rows[i := row][k].tag == t;
  }

  /** A new tag takes the first row not in use, with what it holds. */
  lemma TableClaims(rows: seq<Row>, n: nat, log: map<Tag, seq<int>>, stray: seq<int>, tag: Tag)
    requires Table(rows, n, log, stray) && tag != 0 && tag !in log && n < ENTRIES
    ensures rows[n] == Row(0, stray) && Table(rows[n := Row(tag, stray)], n + 1, log[tag := stray], [])
  {
    assert Holds(rows[n], n, n, log, stray);
    var after := rows[n := Row(tag, stray)];
    assert after[n].tag == tag;
    forall k | 0 <= k < ENTRIES
      ensures Holds(after[k], k, n + 1, log[tag := stray], [])
    {
      assert Holds(rows[k], k, n, log, stray);
    }
    forall t | t in log[tag := stray]
      ensures t != 0 && Has(after, t)
    {
      if t != tag { HasStill(rows, n, Row(tag, stray), t); }
    }
    forall i, j | 0 <= i < j < n + 1
      ensures after[i].tag != after[j].tag
    {
      assert Holds(rows[i], i, n, log, stray);
    }
  }

  lemma SameSize(log: map<Tag, seq<int>>, t: Tag, x: seq<int>)
    requires t in log
    ensures |log[t := x]| == |log|
  {
    assert log[t := x].Keys == log.Keys;
  }

  /** One more sample for a row in use. */
  lemma TableAdds(rows: seq<Row>, n: nat, log: map<Tag, seq<int>>, stray: seq<int>, i: nat, row: Row)
    requires Table(rows, n, log, stray) && i < n && rows[i].tag == row.tag
    ensures row.tag in log && log[row.tag] == rows[i].samples
    ensures Table(rows[i := row], n, log[row.tag := row.samples], stray)
  {
    var after, added := rows[i := row], log[row.tag := row.samples];
    assert Holds(rows[i], i, n, log, stray);
    SameSize(log, row.tag, row.samples);
    forall k | 0 <= k < ENTRIES
      ensures Holds(after[k], k, n, added, stray)
    {
      assert Holds(rows[k], k, n, log, stray);
    }
    forall t | t in added
      ensures t != 0 && Has(after, t)
    {
      HasStill(rows, i, row, t);
    }
  }

  /** One more sample for the first row not in use. */
  lemma TableStrays(rows: seq<Row>, n: nat, log: map<Tag, seq<int>>, stray: seq<int>, x: int)
    requires Table(rows, n, log, stray) && n < ENTRIES
    ensures rows[n] == Row(0, stray) && Table(rows[n := Row(0, stray + [x])], n, log, stray + [x])
  {
    var after := rows[n := Row(0, stray + [x])];
    assert Holds(rows[n], n, n, log, stray);
    forall k | 0 <= k < ENTRIES
      ensures Holds(after[k], k, n, log, stray + [x])
    {
      assert Holds(rows[k], k, n, log, stray);
    }
    forall t | t in log
      ensures t != 0 && Has(after, t)
    {
      HasStill(rows, n, Row(0, stray + [x]), t);
    }
  }

  /** Where a search for `tag` from the first row ends. */
  lemma Searched(rows: seq<Row>, n: nat, log: map<Tag, seq<int>>, stray: seq<int>, tag: Tag, i: nat)
    requires Table(rows, n, log, stray) && i <= ENTRIES
    requires (i < ENTRIES ==> rows[i].tag == tag) && forall k :: 0 <= k < i ==> rows[k].tag != tag
    ensures tag == 0 ==> i == n
    ensures tag != 0 ==> if tag in log then i < n else i == ENTRIES
  {
    if i < ENTRIES { assert Holds(rows[i], i, n, log, stray); }
    if n < ENTRIES { assert Holds(rows[n], n, n, log, stray); }
  }

  /** The first `n` rows without their samples. */
  ghost function Emptied(rows: seq<Row>, n: nat): (r: seq<Row>)
    ensures |r| == |rows|
  {
    seq(|rows|, i requires 0 <= i < |rows| => if i < n then Row(rows[i].tag, []) else rows[i])
  }

  lemma EmptiedNext(rows: seq<Row>, n: nat)
    requires n < |rows|
    ensures Emptied(rows, n + 1) == Emptied(rows, n)[n := Row(rows[n].tag, [])]
  {
  }

  /** Every known tag without samples. */
  ghost function Cleared(log: map<Tag, seq<int>>): (r: map<Tag, seq<int>>)
    ensures r.Keys == log.Keys && |r| == |log|
  {
    var r: map<Tag, seq<int>> := map t | t in log :: [];
    assert r.Keys == log.Keys;
    r
  }

  lemma TableEmpties(rows: seq<Row>, n: nat, log: map<Tag, seq<int>>, stray: seq<int>, after: seq<Row>,
                     none: map<Tag, seq<int>>)
    requires Table(rows, n, log, stray) && after == Emptied(rows, ENTRIES) && none == Cleared(log)
    ensures Table(after, n, none, []) && |none| == n
  {
    forall k | 0 <= k < ENTRIES
      ensures Holds(after[k], k, n, none, [])
    {
      assert Holds(rows[k], k, n, log, stray);
    }
    forall t | t in none
      ensures t != 0 && Has(after, t)
    {
      assert t in log;
      EmptiedHas(rows, t);
    }
  }

  lemma EmptiedHas(rows: seq<Row>, t: Tag)
    requires Has(rows, t)
    ensures Has(Emptied(rows, ENTRIES), t)
  {
    var k :| 0 <= k < |rows| && rows[k].tag == t;
    assert Emptied(rows, ENTRIES)[k].tag == t;
  }

  ghost predicate Initial(e: Entry, owned: set<object>)
    reads e, e.min, e.max
  {
    e.Valid() && e.tag == 0 && e.samples == [] && e in owned && e.min in owned && e.max in owned
  }

  ghost predicate Separate(e: Entry, f: Entry) {
    e != f && {e.min, e.max} !! {f.min, f.max}
  }

  /** The 30 entries of a manager. */
  method MakeEntries() returns (made: seq<Entry>, ghost owned: set<object>)
    ensures |made| == ENTRIES && fresh(owned)
    ensures forall k :: 0 <= k < |made| ==> Initial(made[k], owned)
    ensures forall i, j :: 0 <= i < |made| && 0 <= j < |made| && i != j ==> Separate(made[i], made[j])
  {
    made, owned := [], {};
    while |made| < ENTRIES
      invariant |made| <= ENTRIES && fresh(owned)
      invariant forall k :: 0 <= k < |made| ==> Initial(made[k], owned)
      invariant forall i, j :: 0 <= i < |made| && 0 <= j < |made| && i != j ==> Separate(made[i], made[j])
    {
      var e := new Entry();
      assert forall k :: 0 <= k < |made| ==> Initial(made[k], owned) && Separate(made[k], e) && Separate(e, made[k]);
      owned := owned + {e, e.min, e.max};
      made := made + [e];
    }
  }

  /** The stack of free entries, its top last, when `n` are in use: they are claimed in order. */
  function Free(n: nat): (free: seq<nat>)
    requires n <= ENTRIES
  {
    seq(ENTRIES - n, p requires 0 <= p < ENTRIES - n => ENTRIES - 1 - p)
  }

  lemma FreePops(n: nat)
    requires n < ENTRIES
    ensures var free := Free(n); free[|free| - 1] == n && free[..|free| - 1] == Free(n + 1)
  {
  }

  class Manager {
    const entries: seq<Entry>
    /** A stack whose top is its last element. */
    var freeIndex: seq<nat>
    /** The entries' tags and samples, the samples of every tag seen since the last reset, and those that came under a
        null tag since the last new one. */
    ghost var rows: seq<Row>
    ghost var log: map<Tag, seq<int>>
    ghost var stray: seq<int>
    /** The entries and their arrays. */
    ghost const parts: set<object>

    /** No two entries share an array. */
    ghost predicate Apart(i: nat, j: nat)
      requires i < |entries| && j < |entries|
    {
      Separate(entries[i], entries[j])
    }

    ghost predicate Part(i: nat)
      requires i < |entries|
    {
      entries[i] in parts && entries[i].min in parts && entries[i].max in parts
    }

    ghost predicate Shape() {
      && |entries| == ENTRIES
      && this !in parts
      && (forall i :: 0 <= i < ENTRIES ==> Part(i))
      && (forall i, j :: 0 <= i < ENTRIES && 0 <= j < ENTRIES && i != j ==> Apart(i, j))
    }

    ghost predicate Mirrors(i: nat)
      requires i < |entries| && i < |rows|
      reads this`rows, entries[i], entries[i].min, entries[i].max
    {
      entries[i].Valid() && rows[i] == Row(entries[i].tag, entries[i].samples)
    }

    ghost predicate Valid()
      reads this, parts
    {
      && Shape()
      && Table(rows, |log|, log, stray)
      && freeIndex == Free(|log|)
      && (forall i :: 0 <= i < ENTRIES ==> Part(i) && Mirrors(i))
    }

    /** No tag is known, and the first entry is claimed first. */
    constructor ()
      ensures Valid() && fresh(parts) && |entries| == |freeIndex| == 30
      ensures log == map[] && stray == [] && freeIndex == Free(0)
    {
      var made, owned := MakeEntries();
      entries := made;
      parts := owned;
      rows := seq(ENTRIES, i => Row(0, []));
      log := map[];
      stray := [];
      freeIndex := Free(0);
      new;
      forall k | 0 <= k < ENTRIES
        ensures Part(k) && Mirrors(k)
      {
        assert Initial(entries[k], parts);
      }
    }

    /** The first entry with the tag, or `ENTRIES`; a null tag finds the first entry not in use. */
    method Find(tag: Tag) returns (i: nat)
      requires Valid()
      ensures i <= ENTRIES
      ensures tag == 0 ==> i == |log|
      ensures tag != 0 ==> if tag in log then i < |log| && rows[i].tag == tag else i == ENTRIES
    {
      i := 0;
      while i < ENTRIES
        invariant i <= ENTRIES && forall k :: 0 <= k < i ==> rows[k].tag != tag
      {
        assert Part(i) && Mirrors(i);
        if entries[i].tag == tag { break; }
        i := i + 1;
      }
      Searched(rows, |log|, log, stray, tag, i);
    }

    /** One more sample for entry `i`, in use or the first that is not. */
    method AddTo(i: nat, x: int)
      requires Valid() && i <= |log| && i < ENTRIES
      modifies this`rows, this`log, this`stray, parts
      ensures Valid()
      ensures i == old(|log|) ==> log == old(log) && stray == old(stray) + [x]
      ensures i < old(|log|) ==> stray == old(stray) && old(rows[i].tag in log)
      ensures i < old(|log|) ==> log == old(log[rows[i].tag := log[rows[i].tag] + [x]])
    {
      ghost var row := Row(rows[i].tag, rows[i].samples + [x]);
      if i < |log| {
        TableAdds(rows, |log|, log, stray, i, row);
      } else {
        TableStrays(rows, |log|, log, stray, x);
      }
      Write(i, x, row);
      if i < |log| {
        log := log[row.tag := row.samples];
      } else {
        stray := row.samples;
      }
    }

    /** The sample into the entry's own fields. */
    method Write(i: nat, x: int, ghost row: Row)
      requires Shape() && |rows| == ENTRIES && i < ENTRIES && row == Row(rows[i].tag, rows[i].samples + [x])
      requires forall k :: 0 <= k < ENTRIES ==> Part(k) && Mirrors(k)
      modifies this`rows, parts
      ensures rows == old(rows)[i := row]
      ensures forall k :: 0 <= k < ENTRIES ==> Part(k) && Mirrors(k)
    {
      assert Part(i) && Mirrors(i);
      entries[i].Add(x);
      rows := rows[i := row];
      forall k | 0 <= k < ENTRIES
        ensures Mirrors(k)
      {
        assert Part(k) && old(Mirrors(k));
        if k != i { assert Apart(k, i); }
      }
    }

    /** The top free entry for a new tag, with the samples that came under a null tag. */
    method Claim(tag: Tag) returns (i: nat)
      requires Valid() && tag != 0 && tag !in log && freeIndex != []
      modifies this`freeIndex, this`rows, this`log, this`stray, parts
      ensures Valid() && i == old(|log|) < |log| && rows[i].tag == tag
      ensures log == old(log)[tag := old(stray)] && stray == []
    {
      TableClaims(rows, |log|, log, stray, tag);
      FreePops(|log|);
      i := freeIndex[|freeIndex| - 1];
      freeIndex := freeIndex[..|freeIndex| - 1];
      Rename(i, tag);
      Adopt(tag);
    }

    /** The record of a new tag starts with what came under a null tag. */
    ghost method Adopt(tag: Tag)
      requires Shape() && |rows| == ENTRIES
      requires forall k :: 0 <= k < ENTRIES ==> Part(k) && Mirrors(k)
      modifies this`log, this`stray
      ensures log == old(log)[tag := old(stray)] && stray == []
      ensures forall k :: 0 <= k < ENTRIES ==> Part(k) && Mirrors(k)
    {
      log, stray := log[tag := stray], [];
      forall k | 0 <= k < ENTRIES
        ensures Mirrors(k)
      {
        assert Part(k) && old(Mirrors(k));
      }
    }

    method Rename(i: nat, tag: Tag)
      requires Shape() && |rows| == ENTRIES && i < ENTRIES
      requires forall k :: 0 <= k < ENTRIES ==> Part(k) && Mirrors(k)
      modifies this`rows, parts
      ensures rows == old(rows)[i := Row(tag, old(rows)[i].samples)]
      ensures forall k :: 0 <= k < ENTRIES ==> Part(k) && Mirrors(k)
    {
      assert Part(i) && Mirrors(i);
      entries[i].tag := tag;
      rows := rows[i := Row(tag, rows[i].samples)];
      forall k | 0 <= k < ENTRIES
        ensures Mirrors(k)
      {
        assert Part(k) && old(Mirrors(k));
        if k != i { assert Apart(k, i); }
      }
    }

    /** Breaks exactly on an unknown or null tag when 30 are already known. Otherwise a known tag has one more sample; a
        null tag's sample is kept aside, and counted for the next new tag; and no other tag changes. */
    method UpdateEntry(tag: Tag, x: int) returns (ok: bool)
      requires Valid()
      modifies this, parts
      ensures Valid()
      ensures ok <==> tag in old(log) || |old(log)| < 30
      ensures !ok ==> log == old(log) && stray == old(stray)
      ensures ok && tag == 0 ==> log == old(log) && stray == old(stray) + [x]
      ensures ok && tag in old(log) ==> log == old(log)[tag := old(log)[tag] + [x]] && stray == old(stray)
      ensures ok && tag != 0 && tag !in old(log) ==> log == old(log)[tag := old(stray) + [x]] && stray == []
    {
      var i := Find(tag);
      if i == ENTRIES {
        ok := StartTag(tag, x);
        return;
      }
      AddTo(i, x);
      ok := true;
    }

    /** The first sample of a new tag, if an entry is free. */
    method StartTag(tag: Tag, x: int) returns (ok: bool)
      requires Valid() && (tag == 0 ==> |log| == ENTRIES) && tag !in log
      modifies this, parts
      ensures Valid() && ok == (old(|log|) < ENTRIES)
      ensures if ok then log == old(log)[tag := old(stray) + [x]] && stray == []
              else log == old(log) && stray == old(stray)
    {
      if freeIndex == [] { return false; }
      var i := Claim(tag);
      AddTo(i, x);
      ok := true;
    }

    /** Every entry back to its initial values, under its tag. */
    method ResetEntry()
      requires Valid()
      modifies this`rows, this`log, this`stray, parts
      ensures Valid() && freeIndex == old(freeIndex)
      ensures log == Cleared(old(log)) && stray == []
    {
      TableEmpties(rows, |log|, log, stray, Emptied(rows, ENTRIES), Cleared(log));
      ResetEach();
      Forget();
    }

    /** The record of samples starts again. */
    ghost method Forget()
      requires Shape() && |rows| == ENTRIES
      requires forall k :: 0 <= k < ENTRIES ==> Part(k) && Mirrors(k)
      modifies this`log, this`stray
      ensures log == Cleared(old(log)) && stray == []
      ensures forall k :: 0 <= k < ENTRIES ==> Part(k) && Mirrors(k)
    {
      log, stray := Cleared(log), [];
      forall k | 0 <= k < ENTRIES
        ensures Mirrors(k)
      {
        assert Part(k) && old(Mirrors(k));
      }
    }

    method ResetEach()
      requires Shape() && |rows| == ENTRIES
      requires forall k :: 0 <= k < ENTRIES ==> Part(k) && Mirrors(k)
      modifies this`rows, parts
      ensures rows == Emptied(old(rows), ENTRIES)
      ensures forall k :: 0 <= k < ENTRIES ==> Part(k) && Mirrors(k)
    {
      ghost var was := rows;
      var i := 0;
      while i < ENTRIES
        invariant i <= ENTRIES && |rows| == ENTRIES && rows == Emptied(was, i)
        invariant forall k :: 0 <= k < ENTRIES ==> Part(k) && Mirrors(k)
      {
        EmptiedNext(was, i);
        ResetOne(i);
        i := i + 1;
      }
    }

    method ResetOne(i: nat)
      requires Shape() && |rows| == ENTRIES && i < ENTRIES
      requires forall k :: 0 <= k < ENTRIES ==> Part(k) && Mirrors(k)
      modifies this`rows, parts
      ensures rows == old(rows)[i := Row(old(rows)[i].tag, [])]
      ensures forall k :: 0 <= k < ENTRIES ==> Part(k) && Mirrors(k)
    {
      assert Part(i) && Mirrors(i);
      entries[i].InitEntry();
      rows := rows[i := Row(rows[i].tag, [])];
      forall k | 0 <= k < ENTRIES
        ensures Mirrors(k)
      {
        assert Part(k) && old(Mirrors(k));
        if k != i { assert Apart(k, i); }
      }
    }
  }
}
