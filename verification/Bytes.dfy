// Bytes and byte strings, shared by the machines below.
module Bytes {
  type byte = x: int | 0 <= x < 256
  type bytes = seq<byte>

  datatype Option<T> = None | Some(value: T)

  /** The unsigned little-endian 16-bit word held in two consecutive bytes. */
  function Word(lo: byte, hi: byte): (w: nat)
    ensures w < 0x1_0000
  {
    lo + 256 * hi
  }

  ghost predicate StrictlyIncreasing(s: seq<nat>) {
    forall i, j :: 0 <= i < j < |s| ==> s[i] < s[j]
  }

  function Zeros(n: nat): (z: bytes)
    ensures |z| == n && forall i :: 0 <= i < n ==> z[i] == 0
  {
    seq(n, _ => 0)
  }

  /** s with the bytes from p on replaced by d. */
  function Splice(s: bytes, p: nat, d: bytes): (r: bytes)
    requires p + |d| <= |s|
    ensures |r| == |s|
  {
    s[..p] + d + s[p + |d|..]
  }

  lemma Assoc<T>(a: seq<T>, b: seq<T>, c: seq<T>)
    ensures a + (b + c) == (a + b) + c
  {
  }

  function One(b: bool): nat { if b then 1 else 0 }

  function Pow10(n: nat): nat { if n == 0 then 1 else 10 * Pow10(n - 1) }

  function Min(a: int, b: int): int {
    if a <= b then a else b
  }

  lemma Multiples(a: nat, b: nat, n: nat)
    requires a < b
    ensures a * n + n <= b * n
  {
    assert b * n == a * n + n + (b - a - 1) * n;
  }

  lemma DivUnique(i: nat, n: nat, q: nat, r: nat)
    requires r < n && i == q * n + r
    ensures i / n == q
  {
    var q', r' := i / n, i % n;
    assert i == q' * n + r';
    if q' < q {
      Multiples(q', q, n);
    } else if q < q' {
      Multiples(q, q', n);
    }
  }

  lemma ModUnique(i: nat, n: nat, q: nat, r: nat)
    requires r < n && i == q * n + r
    ensures i % n == r
  {
    DivUnique(i, n, q, r);
  }
}
