/** CRingBuffer: a receive ring whose two pointers may both rest on `_end`, and which never fills its last byte. */
module RingBuffer {
  import opened Cipher

  // ---- the pointer arithmetic, as offsets from `_begin` in a buffer of `n` bytes

  /** What the pointers may be: `r` returns to 0 only by ClearBuffer, and the ring is never full to the last byte. */
  predicate Pointers(n: nat, f: nat, r: nat) {
    && f <= n
    && r <= n
    && (f <= r ==> r - f < n)
    && (f > r ==> r > 0)
  }

  function Use(n: nat, f: nat, r: nat): nat
    requires Pointers(n, f, r)
  {
    if f <= r then r - f else n - f + r
  }

  function Free(n: nat, f: nat, r: nat): nat
    requires Pointers(n, f, r)
  {
    if f == 0 && f <= r then n - r - 1
    else if f <= r then (n - r) + f - 1
    else f - r - 1
  }

  function DirectFree(n: nat, f: nat, r: nat): nat
    requires Pointers(n, f, r)
  {
    if f <= r && f == 0 then n - r - 1
    else if f <= r then n - r
    else f - r - 1
  }

  function DirectUse(n: nat, f: nat, r: nat): int
    requires f <= n && r <= n
  {
    if f > r && r == 0 then n - f - 1
    else if f <= r then r - f
    else n - f
  }

  function Moved(n: nat, p: nat, k: nat): nat
    requires k <= n && p <= n
  {
    if n < p + k then p + k - n else p + k
  }

  /** The bytes between the pointers, oldest first. */
  function Held(s: seq<Byte>, f: nat, r: nat): seq<Byte>
    requires Pointers(|s|, f, r)
  {
    if f <= r then s[f..r] else s[f..] + s[..r]
  }

  /** Use and free space share all but one byte, and the direct parts never exceed them. */
  lemma Shared(n: nat, f: nat, r: nat)
    requires Pointers(n, f, r)
    ensures Use(n, f, r) + Free(n, f, r) == n - 1
    ensures DirectFree(n, f, r) <= Free(n, f, r) && 0 <= DirectUse(n, f, r) <= Use(n, f, r)
    ensures DirectFree(n, f, r) <= n - r && DirectUse(n, f, r) <= n - f
    ensures DirectFree(n, f, r) < Free(n, f, r) ==> DirectFree(n, f, r) == n - r
    ensures DirectUse(n, f, r) < Use(n, f, r) ==> DirectUse(n, f, r) == n - f
  {
  }

  /** Taking `k` bytes: the first `k` held are those from `f` on, then those at the start; the rest remain held. */
  lemma Taken(s: seq<Byte>, f: nat, r: nat, k: nat)
    requires Pointers(|s|, f, r) && k <= Use(|s|, f, r)
    ensures var d := DirectUse(|s|, f, r);
            Held(s, f, r)[..k] == if k <= d then s[f..f + k] else s[f..f + d] + s[..k - d]
    ensures Pointers(|s|, Moved(|s|, f, k), r)
    ensures Held(s, Moved(|s|, f, k), r) == Held(s, f, r)[k..]
  {
  }

  /** Where the byte `k` places after `p` lies. */
  function At(n: nat, p: nat, k: nat): nat
    requires p <= n && k < n
  {
    if p + k < n then p + k else p + k - n
  }

  lemma HeldAt(s: seq<Byte>, f: nat, r: nat)
    requires Pointers(|s|, f, r)
    ensures |Held(s, f, r)| == Use(|s|, f, r)
    ensures forall k :: 0 <= k < Use(|s|, f, r) ==> Held(s, f, r)[k] == s[At(|s|, f, k)]
  {
  }

  /** `t` holds the bytes `d` behind those `s` held, which it still holds. */
  predicate Written(s: seq<Byte>, t: seq<Byte>, f: nat, r: nat, d: seq<Byte>)
    requires Pointers(|s|, f, r) && |t| == |s| && |d| <= Free(|s|, f, r)
  {
    && (forall k :: 0 <= k < |d| ==> t[At(|s|, r, k)] == d[k])
    && (forall k :: 0 <= k < Use(|s|, f, r) ==> t[At(|s|, f, k)] == s[At(|s|, f, k)])
  }

  /** Once the rear is moved over them, they are held last. */
  lemma WrittenIsHeld(s: seq<Byte>, t: seq<Byte>, f: nat, r: nat, d: seq<Byte>)
    requires Pointers(|s|, f, r) && |t| == |s| && |d| <= Free(|s|, f, r) && Written(s, t, f, r, d)
    ensures Pointers(|s|, f, Moved(|s|, r, |d|))
    ensures Held(t, f, Moved(|s|, r, |d|)) == Held(s, f, r) + d
  {
    var u := Use(|s|, f, r);
    HeldAt(s, f, r);
    HeldAt(t, f, Moved(|s|, r, |d|));
    forall k | 0 <= k < u + |d|
      ensures Held(t, f, Moved(|s|, r, |d|))[k] == (Held(s, f, r) + d)[k]
    {
      if k >= u { assert At(|s|, f, k) == At(|s|, r, k - u); }
    }
  }

  // ---- the class

  method CopyOut(src: array<Byte>, from: nat, dest: array<Byte>, at: nat, k: nat)
    requires src != dest && from + k <= src.Length && at + k <= dest.Length
    modifies dest
    ensures forall i :: at <= i < at + k ==> dest[i] == src[i - at + from]
    ensures forall i :: 0 <= i < at || at + k <= i < dest.Length ==> dest[i] == old(dest[i])
  {
    forall i | 0 <= i < k {
      dest[at + i] := src[from + i];
    }
  }

  class CRingBuffer {
    const data: array<Byte>
    var front: nat
    var rear: nat

    ghost predicate Valid()
      reads this
    {
      Pointers(data.Length, front, rear)
    }

    ghost function Contents(): (s: seq<Byte>)
      requires Valid()
      reads this, data
    {
      Held(data[..], front, rear)
    }

    constructor (size: nat)
      requires size > 0
      ensures Valid() && Contents() == []
      ensures fresh(data) && data.Length == size
    {
      data := new Byte[size];
      front, rear := 0, 0;
    }

    method GetUseSize() returns (n: nat)
      requires Valid()
      ensures n == |Contents()|
    {
      n := Use(data.Length, front, rear);
    }

    method GetFreeSize() returns (n: nat)
      requires Valid()
      ensures n == data.Length - 1 - |Contents()|
    {
      n := Free(data.Length, front, rear);
    }

    /** Copies without taking; asked for more than it holds, it copies nothing and returns what it holds. */
    method Peek(dest: array<Byte>, size: nat) returns (n: nat)
      requires Valid() && dest != data && size <= dest.Length
      modifies dest
      ensures n == if size > |Contents()| then |Contents()| else size
      ensures dest[..] == if size > |Contents()| then old(dest[..]) else Contents()[..size] + old(dest[size..])
    {
      n := Use(data.Length, front, rear);
      if size > n { return; }
      CopyHeld(dest, size);
      HeldAt(data[..], front, rear);
      n := size;
    }

    /** The two copies of Peek and Dequeue. */
    method CopyHeld(dest: array<Byte>, size: nat)
      requires Valid() && dest != data && size <= |Contents()| && size <= dest.Length
      modifies dest
      ensures forall i :: 0 <= i < size ==> dest[i] == data[At(data.Length, front, i)]
      ensures forall i :: size <= i < dest.Length ==> dest[i] == old(dest[i])
    {
      Shared(data.Length, front, rear);
      var direct := DirectUse(data.Length, front, rear);
      var first := if size <= direct then size else direct;
      CopyOut(data, front, dest, 0, first);
      if size > direct {
        CopyOut(data, 0, dest, first, size - first);
      }
    }

    /** Takes `size` bytes, or nothing at all. */
    method Dequeue(dest: array<Byte>, size: nat) returns (n: nat)
      requires Valid() && dest != data && (size <= |Contents()| ==> size <= dest.Length)
      modifies this, dest
      ensures Valid()
      ensures n == if size > |old(Contents())| then 0 else size
      ensures Contents() == old(Contents())[n..]
      ensures dest[..] == old(Contents())[..n] + old(dest[n..])
    {
      var useSize := Use(data.Length, front, rear);
      if useSize < size { return 0; }
      Taken(data[..], front, rear, size);
      CopyHeld(dest, size);
      HeldAt(data[..], front, rear);
      assert dest[..] == Contents()[..size] + old(dest[size..]);
      MoveFront(size);
      n := size;
    }

    method MoveFront(size: nat)
      requires Valid() && size <= |Contents()|
      modifies this
      ensures Valid() && Contents() == old(Contents()[size..]) && rear == old(rear)
    {
      Taken(data[..], front, rear, size);
      var chk := front + size;
      if data.Length < chk { chk := chk - data.Length; }
      front := chk;
    }

    /** A receive of the bytes `d` posted into the two free segments, the second used only when the first is full. */
    method Receive(d: seq<Byte>)
      requires Valid() && |d| <= Free(data.Length, front, rear)
      modifies data
      ensures Written(old(data[..]), data[..], front, rear, d)
    {
      Shared(data.Length, front, rear);
      var direct := DirectFree(data.Length, front, rear);
      var first := if |d| <= direct then |d| else direct;
      forall i | 0 <= i < first {
        data[rear + i] := d[i];
      }
      forall i | 0 <= i < |d| - first {
        data[i] := d[first + i];
      }
    }

    /** Takes in the `d` bytes that a receive wrote behind the held ones. */
    method MoveRear(ghost was: seq<Byte>, ghost d: seq<Byte>, size: nat)
      requires Valid() && |was| == data.Length && |d| == size <= Free(data.Length, front, rear)
      requires Written(was, data[..], front, rear, d)
      modifies this
      ensures Valid() && Contents() == old(Held(was, front, rear)) + d
    {
      WrittenIsHeld(was, data[..], front, rear, d);
      var chk := rear + size;
      if data.Length < chk { chk := chk - data.Length; }
      rear := chk;
    }

    method ClearBuffer()
      requires Valid() && data.Length > 0
      modifies this
      ensures Valid() && Contents() == []
    {
      rear := 0;
      front := 0;
    }
  }
}
