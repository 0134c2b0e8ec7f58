/** Bytes, 32-bit words and sequence facts shared by every other module. */
module Common {

  newtype Byte = b: int | 0 <= b < 256

  const U32_RANGE := 0x1_0000_0000

  // Error numbers the modelled functions return (negated).
  const EIO := 5
  const ENXIO := 6
  const ENOMEM := 12
  const EBUSY := 16
  const ENODEV := 19
  const EINVAL := 22
  const EFBIG := 27
  const ENOSPC := 28
  const EPIPE := 32

  /** The value an `unsigned int` holds after a sum or difference of two of them has been stored in it. */
  function U32(x: int): (r: nat)
    requires -U32_RANGE <= x < 2 * U32_RANGE
    ensures r < U32_RANGE
  {
    if x < 0 then x + U32_RANGE else if x < U32_RANGE then x else x - U32_RANGE
  }

  /** An `unsigned int` read as an `int`. */
  function S32(x: nat): int
    requires x < U32_RANGE
  {
    if x < 0x8000_0000 then x else x - U32_RANGE
  }

  function Repeat<T>(x: T, n: nat): (r: seq<T>)
    ensures |r| == n && forall i :: 0 <= i < n ==> r[i] == x
  {
    seq(n, _ => x)
  }

  lemma RepeatSnoc<T>(x: T, n: nat)
    ensures Repeat(x, n + 1) == Repeat(x, n) + [x]
  {
  }

  function Zeros(n: nat): (r: seq<Byte>)
    ensures |r| == n && forall i :: 0 <= i < n ==> r[i] == 0
  {
    Repeat(0, n)
  }

  /** One of the events from number `from` on and before number `to` is as `p` says. */
  predicate SomeIn(p: nat -> bool, from: nat, to: nat) {
    exists i: nat :: from <= i < to && p(i)
  }

  lemma SomeInSplits(p: nat -> bool, a: nat, b: nat, c: nat)
    requires a <= b <= c
    ensures SomeIn(p, a, c) <==> SomeIn(p, a, b) || SomeIn(p, b, c)
  {
    if i: nat :| a <= i < c && p(i) {
      assert if i < b then SomeIn(p, a, b) else SomeIn(p, b, c);
    }
  }

  lemma SomeInNone(p: nat -> bool, a: nat)
    ensures !SomeIn(p, a, a) && (SomeIn(p, a, a + 1) <==> p(a))
  {
    if p(a) {
      assert a <= a < a + 1 && p(a);
    }
  }

  function Min(a: int, b: int): int {
    if a < b then a else b
  }

  function Flatten<T>(ss: seq<seq<T>>): seq<T> {
    if |ss| == 0 then [] else ss[0] + Flatten(ss[1..])
  }

  /** Blocks of the same lengths. */
  predicate AlikeBlocks<T>(a: seq<seq<T>>, b: seq<seq<T>>) {
    |a| == |b| && forall i :: 0 <= i < |a| ==> |a[i]| == |b[i]|
  }

  lemma {:induction false} FlattenConcat<T>(a: seq<seq<T>>, b: seq<seq<T>>)
    ensures Flatten(a + b) == Flatten(a) + Flatten(b)
  {
    if |a| == 0 {
      assert a + b == b;
    } else {
      assert (a + b)[1..] == a[1..] + b;
      FlattenConcat(a[1..], b);
    }
  }

  lemma FlattenSnoc<T>(a: seq<seq<T>>, x: seq<T>)
    ensures Flatten(a + [x]) == Flatten(a) + x
  {
    FlattenConcat(a, [x]);
    assert [x][1..] == [];
    assert Flatten([x]) == x + Flatten<T>([]);
  }

  /** `s` with `data` stored over it from position `at` on. */
  function Patch<T>(s: seq<T>, at: nat, data: seq<T>): (r: seq<T>)
    requires at + |data| <= |s|
    ensures |r| == |s|
  {
    s[..at] + data + s[at + |data|..]
  }

  /** Two adjacent stores are one store of the joined data. */
  lemma PatchPatch<T>(s: seq<T>, at: nat, d1: seq<T>, d2: seq<T>)
    requires at + |d1| + |d2| <= |s|
    ensures Patch(Patch(s, at, d1), at + |d1|, d2) == Patch(s, at, d1 + d2)
  {
  }

  lemma Subslice<T>(s: seq<T>, lo: nat, hi: nat, at: nat, count: nat)
    requires lo <= hi <= |s| && at + count <= hi - lo
    ensures s[lo..hi][at..at + count] == s[lo + at..lo + at + count]
  {
    var mid := s[lo..hi];
    var x, y := mid[at..at + count], s[lo + at..lo + at + count];
    assert forall i :: 0 <= i < count ==> x[i] == mid[at + i] && y[i] == s[lo + at + i];
    assert x == y;
  }

  lemma PatchInside<T>(s: seq<T>, lo: nat, hi: nat, at: nat, data: seq<T>)
    requires lo <= hi <= |s| && at + |data| <= hi - lo
    ensures Patch(s, lo + at, data)[lo..hi] == Patch(s[lo..hi], at, data)
  {
  }

  lemma PatchOutside<T>(s: seq<T>, lo: nat, hi: nat, at: nat, data: seq<T>)
    requires lo <= hi <= |s| && at + |data| <= |s| && (at + |data| <= lo || hi <= at)
    ensures Patch(s, at, data)[lo..hi] == s[lo..hi]
  {
  }
}
