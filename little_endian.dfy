/**
 * Fixed-width little-endian integers and in-place byte writes, the two byte-level
 * primitives of the control block and the operation log.
 */
module LittleEndian {
  import opened Basics

  const U32_LIMIT: nat := 0x1_0000_0000

  /** 256 to the power k: the number of values k little-endian bytes can hold. */
  function Pow256(k: nat): (p: nat)
    ensures p > 0
  {
    if k == 0 then 1 else 256 * Pow256(k - 1)
  }

  /** `n.to_bytes(k, 'little')`: the k low-order base-256 digits of n, least significant first. */
  function LeBytes(n: nat, k: nat): (r: seq<byte>)
    ensures |r| == k
  {
    if k == 0 then [] else [n % 256] + LeBytes(n / 256, k - 1)
  }

  /** `int.from_bytes(s, 'little')`. */
  function FromLeBytes(s: seq<byte>): nat
    decreases |s|
  {
    if |s| == 0 then 0 else s[0] as nat + 256 * FromLeBytes(s[1..])
  }

  /** k bytes hold a number below 256^k. */
  lemma {:induction false} FromLeBytesBound(s: seq<byte>)
    ensures FromLeBytes(s) < Pow256(|s|)
    decreases |s|
  {
    if |s| > 0 {
      FromLeBytesBound(s[1..]);
    }
  }

  /** Reading back the k bytes of a number below 256^k gives the number. */
  lemma {:induction false} LeBytesRoundTrip(n: nat, k: nat)
    requires n < Pow256(k)
    ensures FromLeBytes(LeBytes(n, k)) == n
  {
    if k > 0 {
      var r := LeBytes(n, k);
      assert r[1..] == LeBytes(n / 256, k - 1);
      LeBytesRoundTrip(n / 256, k - 1);
    }
  }

  /** Writing back the number that k bytes read as gives the same bytes. */
  lemma {:induction false} FromLeBytesRoundTrip(s: seq<byte>)
    ensures LeBytes(FromLeBytes(s), |s|) == s
    decreases |s|
  {
    if |s| > 0 {
      var x := FromLeBytes(s[1..]);
      var n := FromLeBytes(s);
      assert n % 256 == s[0] && n / 256 == x;
      FromLeBytesRoundTrip(s[1..]);
      assert s == [s[0]] + s[1..];
    }
  }

  /** `n.to_bytes(4, 'little')`; the source raises OverflowError for larger n. */
  function Le4(n: nat): (r: seq<byte>)
    requires n < U32_LIMIT
    ensures |r| == 4
  {
    LeBytes(n, 4)
  }

  /** `int.from_bytes(s, 'little')` over a 4-byte field. */
  function FromLe4(s: seq<byte>): (n: nat)
    requires |s| == 4
    ensures n < U32_LIMIT
  {
    FromLeBytesBound(s);
    assert Pow256(4) == U32_LIMIT;
    FromLeBytes(s)
  }

  /** Decoding an encoded counter gives the counter back. */
  lemma {:induction false} FromLe4Le4(n: nat)
    requires n < U32_LIMIT
    ensures FromLe4(Le4(n)) == n
  {
    assert Pow256(4) == U32_LIMIT;
    LeBytesRoundTrip(n, 4);
  }

  /** Encoding a decoded field gives the same four bytes back. */
  lemma {:induction false} Le4FromLe4(s: seq<byte>)
    requires |s| == 4
    ensures Le4(FromLe4(s)) == s
  {
    FromLeBytesRoundTrip(s);
  }

  /** Equal counters are encoded by equal fields and only by them. */
  lemma {:induction false} Le4Injective(m: nat, n: nat)
    requires m < U32_LIMIT && n < U32_LIMIT
    ensures Le4(m) == Le4(n) <==> m == n
  {
    if Le4(m) == Le4(n) {
      FromLe4Le4(m);
      FromLe4Le4(n);
    }
  }

  /** Slice assignment `s[at:at+|b|] = b` on a fixed-size buffer. */
  function Splice(s: seq<byte>, at: nat, b: seq<byte>): (r: seq<byte>)
    requires at + |b| <= |s|
    ensures |r| == |s|
    ensures r[at..at + |b|] == b
  {
    s[..at] + b + s[at + |b|..]
  }

  /** A slice of a spliced buffer that lies outside the written range reads as before. */
  lemma {:induction false} SpliceOutside(s: seq<byte>, at: nat, b: seq<byte>, lo: nat, hi: nat)
    requires at + |b| <= |s| && lo <= hi <= |s|
    requires hi <= at || at + |b| <= lo
    ensures Splice(s, at, b)[lo..hi] == s[lo..hi]
  {
    var r := Splice(s, at, b);
    assert forall i :: lo <= i < hi ==> r[i] == s[i];
  }

  /** A slice that lies inside the written range reads the written bytes. */
  lemma {:induction false} SpliceInside(s: seq<byte>, at: nat, b: seq<byte>, lo: nat, hi: nat)
    requires at + |b| <= |s| && at <= lo <= hi <= at + |b|
    ensures Splice(s, at, b)[lo..hi] == b[lo - at..hi - at]
  {
    var r := Splice(s, at, b);
    assert forall i :: lo <= i < hi ==> r[i] == b[i - at];
  }

  /** A slice of a slice is a slice of the whole. */
  lemma {:induction false} SubSlice(s: seq<byte>, lo: nat, hi: nat, i: nat, j: nat)
    requires lo <= hi <= |s| && i <= j <= hi - lo
    ensures s[lo..hi][i..j] == s[lo + i..lo + j]
  {
    var t := s[lo..hi];
    assert forall k :: 0 <= k < j - i ==> t[i..j][k] == t[i + k] == s[lo + i + k];
  }

  function Zeros(n: nat): (r: seq<byte>)
    ensures |r| == n && forall i :: 0 <= i < n ==> r[i] == 0
  {
    seq(n, _ => 0)
  }
}
