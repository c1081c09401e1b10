/** The in-place loop that strips the default arguments from a signature. */
module Defaults {
  predicate IsStop(c: char) {
    c == ',' || c == ')'
  }

  /** The first `,` or `)` from `i` on, or the end. */
  function Stop(s: string, i: nat): (n: nat)
    requires i <= |s|
    ensures i <= n <= |s|
    decreases |s| - i
  {
    if i == |s| || IsStop(s[i]) then i else Stop(s, i + 1)
  }

  /** From each `=` on, everything up to the next `,` or `)` becomes a space; of the text from `i` on. */
  function Strip(s: string, i: nat): string
    requires i <= |s|
    decreases |s| - i
  {
    if i == |s| then ""
    else if s[i] != '=' then [s[i]] + Strip(s, i + 1)
    else if Stop(s, i) == |s| then " "
    else [' ', s[Stop(s, i)]] + Strip(s, Stop(s, i) + 1)
  }

  /** Every `=` is followed by a `,` or `)`. */
  ghost predicate Terminated(s: string) {
    forall i :: 0 <= i < |s| ==> TerminatedAt(s, i)
  }

  ghost predicate TerminatedAt(s: string, i: nat)
    requires i < |s|
  {
    s[i] == '=' ==> exists j :: i < j < |s| && (s[j] == ',' || s[j] == ')')
  }

  lemma {:induction false} StopBefore(s: string, i: nat, j: nat)
    requires i <= j < |s| && IsStop(s[j])
    ensures Stop(s, i) <= j && IsStop(s[Stop(s, i)])
    decreases j - i
  {
    if !IsStop(s[i]) { StopBefore(s, i + 1, j); }
  }

  lemma StopInside(s: string, i: nat)
    requires i < |s| && s[i] == '=' && TerminatedAt(s, i)
    ensures i < Stop(s, i) < |s|
  {
    var j :| i < j < |s| && (s[j] == ',' || s[j] == ')');
    StopBefore(s, i, j);
  }

  /** No `=` is left. */
  lemma {:induction false} StripLeavesNone(s: string, i: nat)
    requires i <= |s|
    ensures '=' !in Strip(s, i)
    decreases |s| - i
  {
    if i < |s| {
      if s[i] != '=' {
        StripLeavesNone(s, i + 1);
      } else if Stop(s, i) < |s| {
        StopIsStop(s, i);
        StripLeavesNone(s, Stop(s, i) + 1);
      }
    }
  }

  lemma {:induction false} StopIsStop(s: string, i: nat)
    requires i <= |s| && Stop(s, i) < |s|
    ensures IsStop(s[Stop(s, i)])
    decreases |s| - i
  {
    if !IsStop(s[i]) { StopIsStop(s, i + 1); }
  }

  lemma {:induction false} StripShortens(s: string, i: nat)
    requires i <= |s| && Terminated(s)
    ensures |Strip(s, i)| <= |s| - i
    decreases |s| - i
  {
    if i < |s| {
      assert TerminatedAt(s, i);
      if s[i] != '=' {
        StripShortens(s, i + 1);
      } else {
        StopInside(s, i);
        StripShortens(s, Stop(s, i) + 1);
      }
    }
  }

  // ---- parameter lists

  /** Text without `=` stays. */
  lemma {:induction false} StripKeeps(s: string, i: nat, j: nat)
    requires i <= j <= |s| && '=' !in s[i..j]
    ensures Strip(s, i) == s[i..j] + Strip(s, j)
    decreases j - i
  {
    if i == j {
      assert s[i..j] + Strip(s, j) == Strip(s, j);
    } else {
      assert s[i] in s[i..j] && s[i..j] == [s[i]] + s[i + 1..j];
      StripKeeps(s, i + 1, j);
      Regroup([s[i]], s[i + 1..j], Strip(s, j));
    }
  }

  lemma Regroup(a: string, b: string, c: string)
    ensures (a + b) + c == a + (b + c)
  {
  }

  /** So stripping twice is stripping once. */
  lemma StripTwice(s: string)
    ensures Strip(Strip(s, 0), 0) == Strip(s, 0)
  {
    var r := Strip(s, 0);
    StripLeavesNone(s, 0);
    StripKeeps(r, 0, |r|);
    assert r[0..|r|] == r && r + "" == r;
  }

  /** A default goes, with its `=`. */
  lemma {:induction false} StopAfter(s: string, i: nat, j: nat)
    requires i <= j < |s| && IsStop(s[j]) && forall k :: i <= k < j ==> !IsStop(s[k])
    ensures Stop(s, i) == j
    decreases j - i
  {
    if i < j { StopAfter(s, i + 1, j); }
  }

  /** A parameter as written: its declaration, its default if it has one, and the `,` or `)` behind it. */
  datatype Param = Plain(decl: string, end: char) | WithDefault(decl: string, value: string, end: char)

  predicate WellWritten(p: Param) {
    && '=' !in p.decl
    && (p.end == ',' || p.end == ')')
    && (p.WithDefault? ==> ',' !in p.value && ')' !in p.value)
  }

  function Text(p: Param): string {
    match p
    case Plain(d, e) => d + [e]
    case WithDefault(d, v, e) => d + ("=" + v + [e])
  }

  function BareText(p: Param): string {
    match p
    case Plain(d, e) => d + [e]
    case WithDefault(d, _, e) => d + [' ', e]
  }

  function Written(ps: seq<Param>): string {
    if ps == [] then "" else Text(ps[0]) + Written(ps[1..])
  }

  /** The list without its defaults, each leaving a space. */
  function Bare(ps: seq<Param>): string {
    if ps == [] then "" else BareText(ps[0]) + Bare(ps[1..])
  }

  /** `x` stands in the text at `i`. */
  ghost predicate At(s: string, i: nat, x: string) {
    i + |x| <= |s| && forall k :: i <= k < i + |x| ==> s[k] == x[k - i]
  }

  lemma AtParts(s: string, i: nat, j: nat, x: string, y: string)
    requires At(s, i, x + y) && j == i + |x|
    ensures At(s, i, x) && At(s, j, y) && j <= |s| && s[i..j] == x
  {
    assert forall k :: i <= k < j ==> s[k] == (x + y)[k - i];
    forall k | j <= k < j + |y|
      ensures s[k] == y[k - j]
    {
      assert s[k] == (x + y)[k - i];
    }
  }

  /** A default, with its `=`, wherever it stands. */
  lemma StripDefault(s: string, i: nat, j: nat, v: string, e: char)
    requires IsStop(e) && (forall k :: 0 <= k < |v| ==> !IsStop(v[k])) && At(s, i, ("=" + v) + [e]) && j == i + |v| + 2
    ensures j <= |s| && Strip(s, i) == [' ', e] + Strip(s, j)
  {
    AtParts(s, i, j - 1, "=" + v, [e]);
    AtParts(s, i, i + 1, "=", v);
    StopAfter(s, i, j - 1);
  }

  lemma StripPlain(s: string, i: nat, j: nat, d: string, e: char)
    requires '=' !in d && IsStop(e) && At(s, i, d + [e]) && j == i + |d| + 1
    ensures j <= |s| && Strip(s, i) == (d + [e]) + Strip(s, j)
  {
    assert (d + [e]) + "" == d + [e];
    AtParts(s, i, j, d + [e], "");
    StripKeeps(s, i, j);
  }

  lemma StripWithDefault(s: string, i: nat, h: nat, j: nat, d: string, v: string, e: char)
    requires '=' !in d && IsStop(e) && (forall k :: 0 <= k < |v| ==> !IsStop(v[k]))
    requires At(s, i, d + (("=" + v) + [e])) && h == i + |d| && j == h + |v| + 2
    ensures j <= |s| && Strip(s, i) == (d + [' ', e]) + Strip(s, j)
  {
    AtParts(s, i, h, d, ("=" + v) + [e]);
    StripKeeps(s, i, h);
    StripDefault(s, h, j, v, e);
    Regroup(d, [' ', e], Strip(s, j));
  }

  /** One parameter, wherever it stands in the text. */
  lemma StripParam(s: string, i: nat, j: nat, p: Param)
    requires WellWritten(p) && At(s, i, Text(p)) && j == i + |Text(p)|
    ensures j <= |s| && Strip(s, i) == BareText(p) + Strip(s, j)
  {
    match p
    case Plain(d, e) => StripPlain(s, i, j, d, e);
    case WithDefault(d, v, e) =>
      assert forall k :: 0 <= k < |v| ==> v[k] in v;
      StripWithDefault(s, i, i + |d|, j, d, v, e);
  }

  /** Stripping a parameter list leaves its declarations. */
  lemma {:induction false} StripIsBare(s: string, i: nat, ps: seq<Param>)
    requires (forall p :: p in ps ==> WellWritten(p)) && At(s, i, Written(ps)) && i + |Written(ps)| == |s|
    ensures Strip(s, i) == Bare(ps)
    decreases |ps|
  {
    if ps != [] {
      var j := i + |Text(ps[0])|;
      assert ps[0] in ps;
      AtParts(s, i, j, Text(ps[0]), Written(ps[1..]));
      StripParam(s, i, j, ps[0]);
      StripIsBare(s, j, ps[1..]);
    }
  }

  lemma StripTwo(a: Param, b: Param, s: string, r: string)
    requires WellWritten(a) && WellWritten(b) && s == Text(a) + Text(b) && r == BareText(a) + BareText(b)
    ensures Strip(s, 0) == r
  {
    TwoWritten(a, b);
    StripIsBare(s, 0, [a, b]);
  }

  lemma TwoWritten(a: Param, b: Param)
    ensures Written([a, b]) == Text(a) + Text(b) && Bare([a, b]) == BareText(a) + BareText(b)
  {
    var ps, qs := [a, b], [b];
    assert ps[1..] == qs && qs[1..] == [];
    assert Written(qs) == Text(b) + "" && Bare(qs) == BareText(b) + "";
    assert Text(b) + "" == Text(b) && BareText(b) + "" == BareText(b);
    assert Written(ps) == Text(a) + Written(qs) && Bare(ps) == BareText(a) + Bare(qs);
  }

  /** Two parameters with defaults. */
  lemma StripExample(s: string)
    requires s == "F(int a=1, int b=2)"
    ensures Strip(s, 0) == "F(int a , int b )"
  {
    var a, b := WithDefault("F(int a", "1", ','), WithDefault(" int b", "2", ')');
    assert Text(a) == "F(int a=1," && Text(b) == " int b=2)";
    assert BareText(a) == "F(int a ," && BareText(b) == " int b )";
    assert s == "F(int a=1," + " int b=2)" && "F(int a ," + " int b )" == "F(int a , int b )";
    StripTwo(a, b, s, "F(int a , int b )");
  }

  // ---- the loop

  /** The inner loop: to the next `,` or `)`; `inside` unless there is none, and it would read on behind the text. */
  method Skip(buffer: array<char>, from: nat, len: nat, ghost s: string) returns (i: nat, inside: bool)
    requires from < len == |s| <= buffer.Length
    requires forall k :: from <= k < len ==> buffer[k] == s[k]
    ensures i == Stop(s, from) && inside == (i < len)
  {
    i := from;
    while i < len
      invariant from <= i <= Stop(s, from) && Stop(s, i) == Stop(s, from)
      decreases len - i
    {
      if buffer[i] == ',' || buffer[i] == ')' { break; }
      i := i + 1;
    }
    inside := i < len;
  }

  /** One character behind the text written so far. */
  method Put(buffer: array<char>, current: nat, c: char)
    requires current < buffer.Length
    modifies buffer
    ensures buffer[current] == c && buffer[..current + 1] == old(buffer[..current]) + [c]
    ensures forall k :: 0 <= k < buffer.Length && k != current ==> buffer[k] == old(buffer[k])
  {
    buffer[current] := c;
  }

  /** Having written `out`, the loop that ends in `all` has the text of `s` from `i` on left. */
  ghost predicate Midway(all: string, out: string, s: string, i: nat) {
    i <= |s| && all == out + Strip(s, i)
  }

  /** What one iteration adds to the text, and where it goes on reading. */
  lemma Advances(all: string, out: string, s: string, i: nat)
    requires Midway(all, out, s, i) && i < |s| && (s[i] == '=' ==> Stop(s, i) < |s|)
    ensures s[i] != '=' ==> Midway(all, out + [s[i]], s, i + 1)
    ensures s[i] == '=' ==> var t := Stop(s, i); i < t && Midway(all, (out + [' ']) + [s[t]], s, t + 1)
  {
    if s[i] != '=' {
      Regroup(out, [s[i]], Strip(s, i + 1));
    } else {
      StopIsStop(s, i);
      var t := Stop(s, i);
      Regroup(out, [' ', s[t]], Strip(s, t + 1));
      assert out + [' ', s[t]] == (out + [' ']) + [s[t]];
    }
  }

  /** Every `=` before `i` is followed by a `,` or `)`. */
  ghost predicate TerminatedTo(s: string, i: nat) {
    i <= |s| && forall k :: 0 <= k < i ==> TerminatedAt(s, k)
  }

  lemma TerminatedMore(s: string, i: nat)
    requires TerminatedTo(s, i) && i < |s|
    ensures s[i] != '=' ==> TerminatedTo(s, i + 1)
    ensures s[i] == '=' && Stop(s, i) < |s| ==> TerminatedTo(s, Stop(s, i) + 1)
    ensures s[i] == '=' && Stop(s, i) == |s| ==> !Terminated(s)
  {
    if s[i] == '=' {
      if Stop(s, i) < |s| {
        StopIsStop(s, i);
      } else {
        if TerminatedAt(s, i) { StopInside(s, i); }
      }
    }
  }

  lemma Ended(all: string, out: string, s: string)
    requires Midway(all, out, s, |s|)
    ensures all == out
  {
  }

  /** The loop over the text `s` in the buffer. */
  method StripLoop(buffer: array<char>, len: nat, ghost s: string, ghost all: string)
    returns (current: nat, inside: bool)
    requires len < buffer.Length && s == buffer[..len] && Midway(all, "", s, 0)
    modifies buffer
    ensures inside <==> Terminated(s)
    ensures current <= len && (inside ==> buffer[..current] == all)
  {
    ghost var out := "";
    var i := 0;
    current, inside := 0, true;
    while i < len
      invariant current <= i <= len && TerminatedTo(s, i)
      invariant forall k :: i <= k < len ==> buffer[k] == s[k]
      invariant buffer[..current] == out && Midway(all, out, s, i)
      decreases len - i
    {
      TerminatedMore(s, i);
      if buffer[i] == '=' {
        var from := i;
        i, inside := Skip(buffer, from, len, s);
        if !inside { return; }
        Advances(all, out, s, from);
        Put(buffer, current, ' ');
        current := current + 1;
        out := out + [' '];
      } else {
        Advances(all, out, s, i);
      }
      Put(buffer, current, buffer[i]);
      current := current + 1;
      out := out + [s[i]];
      i := i + 1;
    }
    Ended(all, out, s);
  }

  /** The text of `len` characters in `buffer` becomes its stripped form, ended by a NUL, in place; unless some `=` has
      no `,` or `)` behind it, where the code reads on behind the text and this model stops. */
  method StripInPlace(buffer: array<char>, len: nat) returns (n: nat, inside: bool)
    requires 0 < len < buffer.Length
    modifies buffer
    ensures inside <==> Terminated(old(buffer[..len]))
    ensures inside ==> n <= len && buffer[..n] == old(Strip(buffer[..len], 0)) && buffer[n] == '\0'
  {
    ghost var s := buffer[..len];
    assert "" + Strip(s, 0) == Strip(s, 0);
    n, inside := StripLoop(buffer, len, s, Strip(s, 0));
    if inside { Put(buffer, n, '\0'); }
  }
}
