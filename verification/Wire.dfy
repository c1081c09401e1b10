/**
 * What the IDL compiler emits for one signature, and what the emitted code does: the Proxy's put statements and the
 * Stub's get statements, over bytes `T` and any reading `size` of a length argument.
 */
module Wire {
  // ---- signatures

  datatype Name = Name(text: string)

  /** A parameter's type: a scalar, `SizedArray'n'` of wide characters, or `DynamicArray'length'`. */
  datatype Type = Scalar(width: nat) | Sized(n: nat) | Dynamic

  /** The fields follow SessionID and msg; `TypeOffset` parameters, as configured, follow them, wType first. */
  const FIRST: nat := 2
  /** `STUB_CPP_DEF_ARRBUFFERSIZE` wide characters. */
  const DYNAMIC: nat := 4000

  /** What a parameter list must be whose fields end before parameter `n`: one name each, and a scalar field before
      every dynamic one. */
  predicate Signature(types: seq<Type>, words: seq<Name>, n: nat) {
    && |types| == |words| >= n
    && Distinct(words)
    && (forall i :: FIRST <= i < n ==> Led(types, i))
  }

  predicate Distinct(words: seq<Name>) {
    forall i, j :: 0 <= i < j < |words| ==> Differ(words, i, j)
  }

  predicate Differ(words: seq<Name>, i: nat, j: nat)
    requires i < |words| && j < |words|
  {
    words[i] != words[j]
  }

  predicate Led(types: seq<Type>, i: nat)
    requires FIRST <= i < |types|
  {
    types[i].Dynamic? ==> i > FIRST && types[i - 1].Scalar?
  }

  // ---- emitted statements

  /** `*msg << name`, `msg->PutData(name, n)` and `msg->PutData(name, len)`. */
  datatype Put = PutVar(name: Name) | PutFixed(name: Name, n: nat) | PutSized(name: Name, len: Name)

  /** `*msg >> name`, `msg->GetData(name, n)` and `msg->GetData(name, len)`. */
  datatype Get = GetVar(name: Name) | GetFixed(name: Name, n: nat) | GetSized(name: Name, len: Name)

  /** A local variable of the Stub and its size in bytes. */
  datatype Local = Local(name: Name, bytes: nat)

  function PutOf(types: seq<Type>, words: seq<Name>, i: nat): Put
    requires 0 < i < |words| && i < |types|
  {
    match types[i]
    case Scalar(_) => PutVar(words[i])
    case Sized(n) => PutFixed(words[i], 2 * n)
    case Dynamic => PutSized(words[i], words[i - 1])
  }

  function GetOf(types: seq<Type>, words: seq<Name>, i: nat): Get
    requires 0 < i < |words| && i < |types|
  {
    match types[i]
    case Scalar(_) => GetVar(words[i])
    case Sized(n) => GetFixed(words[i], 2 * n)
    case Dynamic => GetSized(words[i], words[i - 1])
  }

  function LocalOf(types: seq<Type>, words: seq<Name>, i: nat): Local
    requires i < |words| && i < |types|
  {
    match types[i]
    case Scalar(w) => Local(words[i], w)
    case Sized(n) => Local(words[i], 2 * n)
    case Dynamic => Local(words[i], DYNAMIC)
  }

  /** The statements for the fields before parameter `i`. */
  function Puts(types: seq<Type>, words: seq<Name>, i: nat): seq<Put>
    requires i <= |words| && i <= |types|
  {
    if i <= FIRST then [] else Puts(types, words, i - 1) + [PutOf(types, words, i - 1)]
  }

  function Gets(types: seq<Type>, words: seq<Name>, i: nat): seq<Get>
    requires i <= |words| && i <= |types|
  {
    if i <= FIRST then [] else Gets(types, words, i - 1) + [GetOf(types, words, i - 1)]
  }

  function Locals(types: seq<Type>, words: seq<Name>, i: nat): seq<Local>
    requires i <= |words| && i <= |types|
  {
    if i <= FIRST then [] else Locals(types, words, i - 1) + [LocalOf(types, words, i - 1)]
  }

  /** The statement of parameter `k` stands `d` places before it: the put, the get or the local as the compiler spells
      it out. */
  predicate PutsIt(types: seq<Type>, words: seq<Name>, k: nat, out: seq<Put>, d: nat)
    requires 0 < k < |words| && k < |types| && d <= k < d + |out|
  {
    match types[k]
    case Scalar(_) => out[k - d] == PutVar(words[k])
    case Sized(n) => out[k - d] == PutFixed(words[k], n + n)
    case Dynamic => out[k - d] == PutSized(words[k], words[k - 1])
  }

  predicate GetsIt(types: seq<Type>, words: seq<Name>, k: nat, out: seq<Get>, d: nat)
    requires 0 < k < |words| && k < |types| && d <= k < d + |out|
  {
    match types[k]
    case Scalar(_) => out[k - d] == GetVar(words[k])
    case Sized(n) => out[k - d] == GetFixed(words[k], n + n)
    case Dynamic => out[k - d] == GetSized(words[k], words[k - 1])
  }

  predicate HoldsIt(types: seq<Type>, words: seq<Name>, k: nat, locals: seq<Local>, d: nat)
    requires k < |words| && k < |types| && d <= k < d + |locals|
  {
    match types[k]
    case Scalar(w) => locals[k - d] == Local(words[k], w)
    case Sized(n) => locals[k - d] == Local(words[k], n + n)
    case Dynamic => locals[k - d] == Local(words[k], 4000)
  }

  /** The puts of a signature stand in order, the first for its third word: SessionID and msg are not sent. */
  lemma {:induction false} PutsInOrder(types: seq<Type>, words: seq<Name>, i: nat)
    requires 2 <= i <= |words| && i <= |types|
    ensures |Puts(types, words, i)| == i - 2
    ensures forall k :: 2 <= k < i ==> PutsIt(types, words, k, Puts(types, words, i), 2)
  {
    if i > 2 {
      PutsInOrder(types, words, i - 1);
      var fewer, all := Puts(types, words, i - 1), Puts(types, words, i);
      forall k | 2 <= k < i ensures PutsIt(types, words, k, all, 2) {
        if k < i - 1 { assert PutsIt(types, words, k, fewer, 2); }
      }
    }
  }

  lemma {:induction false} GetsInOrder(types: seq<Type>, words: seq<Name>, i: nat)
    requires 2 <= i <= |words| && i <= |types|
    ensures |Gets(types, words, i)| == i - 2
    ensures forall k :: 2 <= k < i ==> GetsIt(types, words, k, Gets(types, words, i), 2)
  {
    if i > 2 {
      GetsInOrder(types, words, i - 1);
      var fewer, all := Gets(types, words, i - 1), Gets(types, words, i);
      forall k | 2 <= k < i ensures GetsIt(types, words, k, all, 2) {
        if k < i - 1 { assert GetsIt(types, words, k, fewer, 2); }
      }
    }
  }

  lemma {:induction false} LocalsInOrder(types: seq<Type>, words: seq<Name>, i: nat)
    requires 2 <= i <= |words| && i <= |types|
    ensures |Locals(types, words, i)| == i - 2
    ensures forall k :: 2 <= k < i ==> HoldsIt(types, words, k, Locals(types, words, i), 2)
  {
    if i > 2 {
      LocalsInOrder(types, words, i - 1);
      var fewer, all := Locals(types, words, i - 1), Locals(types, words, i);
      forall k | 2 <= k < i ensures HoldsIt(types, words, k, all, 2) {
        if k < i - 1 { assert HoldsIt(types, words, k, fewer, 2); }
      }
    }
  }

  lemma ProxyInOrder(types: seq<Type>, words: seq<Name>, n: nat, p: Put, out: seq<Put>)
    requires 2 <= n <= |words| && n <= |types| && out == [p] + Puts(types, words, n)
    ensures |out| == n - 1
    ensures forall k :: 2 <= k < n ==> PutsIt(types, words, k, out, 1)
  {
    PutsInOrder(types, words, n);
    forall k | 2 <= k < n ensures PutsIt(types, words, k, out, 1) {
      assert PutsIt(types, words, k, Puts(types, words, n), 2);
      assert out[k - 1] == Puts(types, words, n)[k - 2];
    }
  }

  /** MakeProxy's loop over one signature: the type word first, then the fields. */
  method EmitProxy(types: seq<Type>, words: seq<Name>, offset: nat) returns (out: seq<Put>)
    requires 0 < offset && 2 + offset <= |words| <= |types| + offset
    ensures out == [PutVar(words[|words| - offset])] + Puts(types, words, |words| - offset)
    ensures |out| == |words| - offset - 1 && out[0] == PutVar(words[|words| - offset])
    ensures forall k :: 2 <= k < |words| - offset ==> PutsIt(types, words, k, out, 1)
  {
    out := [PutVar(words[|words| - offset])];
    var i := FIRST;
    var iter := FIRST;
    while iter != |words| - offset
      invariant i == iter && FIRST <= i <= |words| - offset
      invariant out == [PutVar(words[|words| - offset])] + Puts(types, words, i)
      decreases |words| - iter
    {
      if types[i].Sized? {
        out := out + [PutFixed(words[i], types[i].n * 2)];
      } else if types[i].Dynamic? {
        out := out + [PutSized(words[i], words[i - 1])];
      } else {
        out := out + [PutVar(words[iter])];
      }
      iter := iter + 1;
      i := i + 1;
    }
    ProxyInOrder(types, words, |words| - offset, out[0], out);
  }

  /** MakeStub's three loops: the locals, the reads, and the handler's arguments. */
  method EmitStub(types: seq<Type>, words: seq<Name>, offset: nat)
    returns (locals: seq<Local>, out: seq<Get>, args: seq<Name>)
    requires 2 + offset <= |words| <= |types| + offset
    ensures locals == Locals(types, words, |words| - offset)
    ensures out == Gets(types, words, |words| - offset)
    ensures args == words[..|words| - offset]
    ensures |locals| == |out| == |words| - offset - 2
    ensures forall k :: 2 <= k < |words| - offset ==> HoldsIt(types, words, k, locals, 2)
    ensures forall k :: 2 <= k < |words| - offset ==> GetsIt(types, words, k, out, 2)
  {
    LocalsInOrder(types, words, |words| - offset);
    GetsInOrder(types, words, |words| - offset);
    var cnt := if |types| < |words| - offset then |types| else |words| - offset;
    locals := [];
    for i := FIRST to cnt
      invariant locals == Locals(types, words, i)
    {
      if types[i].Sized? {
        locals := locals + [Local(words[i], 2 * types[i].n)];
      } else if types[i].Dynamic? {
        locals := locals + [Local(words[i], 2 * 2000)];
      } else {
        locals := locals + [Local(words[i], types[i].width)];
      }
    }
    out := [];
    var i := FIRST;
    var iter := FIRST;
    while iter != |words| - offset
      invariant i == iter && FIRST <= i <= |words| - offset
      invariant out == Gets(types, words, i)
      decreases |words| - iter
    {
      if types[i].Sized? {
        out := out + [GetFixed(words[i], types[i].n * 2)];
      } else if types[i].Dynamic? {
        out := out + [GetSized(words[i], words[i - 1])];
      } else {
        out := out + [GetVar(words[iter])];
      }
      i := i + 1;
      iter := iter + 1;
    }
    args := [];
    for k := 0 to |words| - offset
      invariant args == words[..k]
    {
      args := args + [words[k]];
    }
  }

  // ---- what the emitted statements do

  type Env<T> = map<Name, seq<T>>

  function Value<T>(env: Env<T>, name: Name): seq<T> {
    if name in env then env[name] else []
  }

  function Upto<T>(s: seq<T>, n: nat): seq<T> {
    if n <= |s| then s[..n] else s
  }

  /** The bytes one put copies. */
  function Bytes<T>(p: Put, env: Env<T>, size: seq<T> -> nat): seq<T> {
    match p
    case PutVar(name) => Value(env, name)
    case PutFixed(name, n) => Upto(Value(env, name), n)
    case PutSized(name, len) => Upto(Value(env, name), size(Value(env, len)))
  }

  datatype Option<T> = None | Some(value: T)

  /** The message after the puts, in a buffer of `cap` bytes; None when one of them throws NotEnoughSpace. */
  function Write<T>(puts: seq<Put>, env: Env<T>, buf: seq<T>, size: seq<T> -> nat, cap: nat): Option<seq<T>> {
    if puts == [] then Some(buf)
    else
      var n := |puts| - 1;
      match Write(puts[..n], env, buf, size, cap)
      case None => None
      case Some(b) => if |b| + |Bytes(puts[n], env, size)| > cap then None else Some(b + Bytes(puts[n], env, size))
  }

  /** The locals and the unread bytes after the gets, or the exception, or a read past a local's end. */
  datatype Got<T> = Got(vars: Env<T>, rest: seq<T>) | HasNotData | Overrun

  /** One get of `n` bytes into the local `name`. */
  function Fill<T>(name: Name, n: nat, vars: Env<T>, buf: seq<T>): Got<T> {
    if n > |buf| then HasNotData
    else if n > |Value(vars, name)| then Overrun
    else Got(vars[name := buf[..n] + Value(vars, name)[n..]], buf[n..])
  }

  function ReadOne<T>(g: Get, vars: Env<T>, buf: seq<T>, size: seq<T> -> nat): Got<T> {
    match g
    case GetVar(name) => Fill(name, |Value(vars, name)|, vars, buf)
    case GetFixed(name, n) => Fill(name, n, vars, buf)
    case GetSized(name, len) => Fill(name, size(Value(vars, len)), vars, buf)
  }

  function Read<T>(gets: seq<Get>, vars: Env<T>, buf: seq<T>, size: seq<T> -> nat): Got<T> {
    if gets == [] then Got(vars, buf)
    else
      var n := |gets| - 1;
      match Read(gets[..n], vars, buf, size)
      case Got(v, rest) => ReadOne(gets[n], v, rest, size)
      case HasNotData => HasNotData
      case Overrun => Overrun
  }
}
