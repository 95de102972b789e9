/** Sequence vocabulary shared by the models: concatenation of chunks, first occurrence of a
    delimiter, and the optional value that stands for null or undefined. */
module Prelude {

  type byte = bv8

  /** The low eight bits of a number. */
  function ToByte(n: nat): byte {
    (n % 256) as bv8
  }

  /** The number that a byte stands for. */
  function Value(b: byte): nat {
    b as int
  }

  lemma ByteBound(b: byte)
    ensures Value(b) < 256
  {}

  lemma BitsValue(r: int)
    requires 0 <= r < 256
    ensures (r as bv8) as int == r
  {
    assert 0 <= (r as bv8) as int < 256;
  }

  lemma ToByteValue(n: nat)
    ensures Value(ToByte(n)) == n % 256
  {
    BitsValue(n % 256);
  }

  lemma ValueToByte(n: nat, b: byte)
    requires Value(b) == n % 256
    ensures ToByte(n) == b
  {
    ToByteValue(n);
    SameValue(ToByte(n), b);
  }

  lemma SameValue(a: byte, b: byte)
    requires Value(a) == Value(b)
    ensures a == b
  {
    assert (Value(a) as bv8) == a && (Value(b) as bv8) == b;
  }

  datatype Option<+T> = None | Some(value: T)

  function Min(x: int, y: int): int {
    if x <= y then x else y
  }

  function Max(x: int, y: int): int {
    if x >= y then x else y
  }

  /** All chunks one after the other. */
  function Concat<T>(parts: seq<seq<T>>): seq<T> {
    if parts == [] then [] else parts[0] + Concat(parts[1..])
  }

  lemma {:induction false} ConcatAppend<T>(a: seq<seq<T>>, b: seq<seq<T>>)
    ensures Concat(a + b) == Concat(a) + Concat(b)
  {
    if a == [] {
      assert a + b == b;
    } else {
      assert (a + b)[1..] == a[1..] + b;
      ConcatAppend(a[1..], b);
    }
  }

  lemma ConcatSnoc<T>(a: seq<seq<T>>, x: seq<T>)
    ensures Concat(a + [x]) == Concat(a) + x
  {
    ConcatAppend(a, [x]);
    assert Concat([x]) == x;
  }

  /** "pattern" stands in "s" at position "i". */
  predicate OccursAt<T(==)>(s: seq<T>, pattern: seq<T>, i: nat) {
    i + |pattern| <= |s| && s[i..i + |pattern|] == pattern
  }

  /** The CRLFCRLF that ends the head of an HTTP message. */
  const HEAD_END: seq<byte> := [13, 10, 13, 10]

  /** Position of the first occurrence at or after "from", as JavaScript's indexOf. */
  function IndexFrom<T(==)>(s: seq<T>, pattern: seq<T>, from: nat): (r: Option<nat>)
    ensures r.Some? ==> from <= r.value && OccursAt(s, pattern, r.value)
    ensures r.Some? ==> forall j: nat | from <= j < r.value :: !OccursAt(s, pattern, j)
    ensures r.None? ==> forall j: nat | from <= j :: !OccursAt(s, pattern, j)
    decreases |s| - from
  {
    if from + |pattern| > |s| then None
    else if OccursAt(s, pattern, from) then Some(from)
    else IndexFrom(s, pattern, from + 1)
  }

  function IndexOf<T(==)>(s: seq<T>, pattern: seq<T>): (r: Option<nat>)
    ensures r.Some? ==> OccursAt(s, pattern, r.value) && forall j: nat | j < r.value :: !OccursAt(s, pattern, j)
    ensures r.None? ==> forall j: nat :: !OccursAt(s, pattern, j)
  {
    IndexFrom(s, pattern, 0)
  }

  lemma OccursAtPrefix<T>(s: seq<T>, more: seq<T>, pattern: seq<T>, i: nat)
    requires i + |pattern| <= |s|
    ensures OccursAt(s + more, pattern, i) == OccursAt(s, pattern, i)
  {
    assert (s + more)[i..i + |pattern|] == s[i..i + |pattern|];
  }

  /** A position is the first occurrence exactly when IndexOf finds it. */
  lemma IndexOfIs<T>(s: seq<T>, pattern: seq<T>, i: nat)
    requires OccursAt(s, pattern, i)
    requires forall j: nat | j < i :: !OccursAt(s, pattern, j)
    ensures IndexOf(s, pattern) == Some(i)
  {
    assert IndexOf(s, pattern).Some?;
  }

  /** Bytes that arrive later never change an occurrence that was already found. */
  lemma IndexOfStable<T>(s: seq<T>, more: seq<T>, pattern: seq<T>)
    requires IndexOf(s, pattern).Some?
    ensures IndexOf(s + more, pattern) == IndexOf(s, pattern)
  {
    var i := IndexOf(s, pattern).value;
    forall j: nat | j <= i
      ensures OccursAt(s + more, pattern, j) == OccursAt(s, pattern, j)
    {
      OccursAtPrefix(s, more, pattern, j);
    }
    IndexOfIs(s + more, pattern, i);
  }
}
