/** Byte strings, machine words and small result types shared by every module. */
module Bytes {
  type Byte = b: int | 0 <= b < 256
  type Blob = seq<Byte>

  const TWO64: int := 0x1_0000_0000_0000_0000
  type Uint64 = x: int | 0 <= x < 0x1_0000_0000_0000_0000
  type Uint16 = x: int | 0 <= x < 0x1_0000

  /** A 32-byte digest, and a hash function producing one. Nothing is assumed of a
      `Hasher`; lemmas that need collision freedom say for which blobs. */
  type Digest = d: Blob | |d| == 32 witness seq(32, i => 0)
  type Hasher = Blob -> Digest

  datatype Option<+T> = None | Some(value: T)

  /** No two distinct blobs of `u` have the same digest. */
  ghost predicate CollisionFree(h: Hasher, u: iset<Blob>) {
    forall a, b :: a in u && b in u && h(a) == h(b) ==> a == b
  }

  lemma Assoc<T>(a: seq<T>, b: seq<T>, c: seq<T>)
    ensures (a + b) + c == a + (b + c)
  {}

  lemma Split<T>(s: seq<T>, n: nat)
    requires n <= |s|
    ensures s == s[..n] + s[n..]
  {}

  lemma Cons<T>(x: T, s: seq<T>)
    ensures ([x] + s)[0] == x && ([x] + s)[1..] == s
  {}

  lemma Cut<T>(a: seq<T>, b: seq<T>)
    ensures (a + b)[..|a|] == a && (a + b)[|a|..] == b
  {}

  lemma SubSlice<T>(s: seq<T>, lo: nat, hi: nat, a: nat, b: nat)
    requires lo <= hi <= |s| && a <= b <= hi - lo
    ensures s[lo..hi][a..b] == s[lo + a..lo + b]
  {
    forall i | 0 <= i < b - a ensures s[lo..hi][a..b][i] == s[lo + a..lo + b][i] {}
  }

  function Zero(): Digest { seq(32, _ => 0) }
}
