/** Bytes, little-endian 16-bit lengths, and the C conversion of a size to int. */
module Bytes {
  import opened Basics

  type byte = x: int | 0 <= x < 256

  const INT_MAX := 0x7fff_ffff

  function Low(n: nat): byte { n % 256 }
  function High(n: nat): byte { n / 256 % 256 }
  function U16(lo: byte, hi: byte): (n: nat)
    ensures n < 65536
  {
    lo + 256 * hi
  }

  lemma U16RoundTrip(n: nat)
    requires n < 65536
    ensures U16(Low(n), High(n)) == n
  {
  }

  /** The number that bytes stand for, the lowest first. */
  function LittleEndian(s: seq<byte>): nat {
    if s == [] then 0 else s[0] + 256 * LittleEndian(s[1..])
  }

  lemma LowFirst(n: nat)
    requires n < 65536
    ensures LittleEndian([Low(n), High(n)]) == n
  {
    var s := [Low(n), High(n)];
    assert s[1..] == [High(n)] && [High(n)][1..] == [];
    assert LittleEndian([]) == 0;
    assert LittleEndian([High(n)]) == High(n);
    U16RoundTrip(n);
  }

  /** `(int)n` on a machine with 32-bit two's complement int. */
  function CInt(n: nat): (r: int)
    ensures n <= INT_MAX ==> r == n
    ensures -INT_MAX - 1 <= r <= INT_MAX && (n - r) % 0x1_0000_0000 == 0
  {
    (n + 0x8000_0000) % 0x1_0000_0000 - 0x8000_0000
  }

  function Prepend(p: seq<byte>, x: Option<seq<byte>>): Option<seq<byte>> {
    match x
    case None => None
    case Some(s) => Some(p + s)
  }

  lemma PrependNothing(x: Option<seq<byte>>)
    ensures Prepend([], x) == x
  {
    if x.Some? {
      assert [] + x.value == x.value;
    }
  }

  lemma PrependTwice(p: seq<byte>, q: seq<byte>, x: Option<seq<byte>>)
    ensures Prepend(p + q, x) == Prepend(p, Prepend(q, x))
  {
    if x.Some? {
      assert (p + q) + x.value == p + (q + x.value);
    }
  }

  lemma SliceSplit(src: seq<byte>, i: nat, e: nat)
    requires i <= e <= |src|
    ensures src[i..e] + src[e..] == src[i..]
  {
  }

  lemma SuffixOfSuffix(s: seq<byte>, i: nat, n: nat)
    requires i + n <= |s|
    ensures s[i..][n..] == s[i + n..]
  {
  }

  lemma ShorterSuffix(a: seq<byte>, b: seq<byte>, i: nat, j: nat)
    requires i <= j <= |a| == |b| && a[i..] == b[i..]
    ensures a[j..] == b[j..]
  {
    assert a[j..] == a[i..][j - i..];
    assert b[j..] == b[i..][j - i..];
  }

  /** Copy bytes into the buffer at position `at`. */
  method Emit(out: array<byte>, at: nat, bytes: seq<byte>)
    requires at + |bytes| <= out.Length
    modifies out
    ensures out[..at + |bytes|] == old(out[..at]) + bytes
    ensures out[at + |bytes|..] == old(out[at + |bytes|..])
  {
    forall k | 0 <= k < |bytes| {
      out[at + k] := bytes[k];
    }
  }
}
