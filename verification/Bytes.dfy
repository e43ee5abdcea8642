/** Byte buffers, and what a positional write or a change of length makes of one (io_util.rs). */
module Bytes {

  type Byte = b: int | 0 <= b < 256

  type Buffer = seq<Byte>

  const KIB: nat := 1024
  const MIB: nat := 1048576

  // Bounds of the source's integer widths.
  const U16: nat := 0x1_0000
  const U32: nat := 0x1_0000_0000
  const U64: nat := 0x1_0000_0000_0000_0000

  type Word16 = n: nat | n < U16
  type Word32 = n: nat | n < U32
  type Word64 = n: nat | n < U64

  function Max(a: int, b: int): int {
    if a < b then b else a
  }

  function Min(a: int, b: int): int {
    if a < b then a else b
  }

  function Zeros(n: nat): (z: Buffer)
    ensures |z| == n
    ensures forall i :: 0 <= i < n ==> z[i] == 0
  {
    seq(n, _ => 0)
  }

  predicate AllZero(b: Buffer) {
    forall i :: 0 <= i < |b| ==> b[i] == 0
  }

  /** The byte at `i`; bytes past the end of a file read as zero. */
  function At(data: Buffer, i: nat): Byte {
    if i < |data| then data[i] else 0
  }

  /** What `set_len` leaves: a prefix of the data, or the data followed by zeros. */
  function Resized(data: Buffer, n: nat): (r: Buffer)
    ensures |r| == n
    ensures forall i :: 0 <= i < n ==> r[i] == At(data, i)
  {
    if n <= |data| then data[..n] else data + Zeros(n - |data|)
  }

  /** What a positional write leaves. A write past the end fills the gap with zeros; an empty write does nothing. */
  function Written(data: Buffer, off: nat, buf: Buffer): (w: Buffer)
    ensures buf == [] ==> w == data
    ensures buf != [] ==> |w| == Max(|data|, off + |buf|)
    ensures forall i :: 0 <= i < |w| ==> w[i] == if off <= i < off + |buf| then buf[i - off] else At(data, i)
  {
    if buf == [] then data
    else
      var base := Resized(data, Max(|data|, off + |buf|));
      base[..off] + buf + base[off + |buf|..]
  }

  /** Bytes [off, off + n) of a buffer. */
  function Slice(data: Buffer, off: nat, n: nat): (s: Buffer)
    requires off + n <= |data|
    ensures |s| == n
    ensures forall i :: 0 <= i < n ==> s[i] == data[off + i]
  {
    data[off..off + n]
  }

  lemma WrittenReadsBack(data: Buffer, off: nat, buf: Buffer)
    requires buf != []
    ensures off + |buf| <= |Written(data, off, buf)|
    ensures Slice(Written(data, off, buf), off, |buf|) == buf
  {
  }

  /** A part of the middle piece of three. */
  lemma InMiddle(a: Buffer, b: Buffer, c: Buffer, off: nat, n: nat)
    requires off + n <= |b|
    ensures Slice(a + b + c, |a| + off, n) == Slice(b, off, n)
  {
  }

  /** Writing over the front of a zero gap. */
  lemma GapFilled(a: Buffer, gap: nat, c: Buffer, x: Buffer)
    requires |x| <= gap
    ensures Written(a + Zeros(gap) + c, |a|, x) == a + x + Zeros(gap - |x|) + c
  {
  }

  /** A read that stays clear of a write sees the old bytes. */
  lemma WrittenKeeps(data: Buffer, off: nat, buf: Buffer, at: nat, n: nat)
    requires at + n <= |data|
    requires at + n <= off || off + |buf| <= at
    ensures at + n <= |Written(data, off, buf)|
    ensures Slice(Written(data, off, buf), at, n) == Slice(data, at, n)
  {
  }

  /** A write leaves everything before it alone. */
  lemma WrittenPrefix(data: Buffer, off: nat, buf: Buffer, n: nat)
    requires n <= off && n <= |data|
    ensures n <= |Written(data, off, buf)|
    ensures Written(data, off, buf)[..n] == data[..n]
  {
  }

  lemma ResizedPrefix(data: Buffer, n: nat, k: nat)
    requires k <= n && k <= |data|
    ensures Resized(data, n)[..k] == data[..k]
  {
  }

  /** Sums of whole MiBs are whole MiBs. */
  lemma AlignedSum(a: nat, b: nat)
    requires a % MIB == 0 && b % MIB == 0
    ensures (a + b) % MIB == 0
  {
  }

  /** Writing two adjacent pieces is writing their concatenation. */
  lemma WrittenJoins(data: Buffer, off: nat, a: Buffer, b: Buffer)
    ensures Written(Written(data, off, a), off + |a|, b) == Written(data, off, a + b)
  {
    hide Written;
    if a == [] {
      assert a + b == b;
    } else if b == [] {
      assert a + b == a;
    } else {
      var once := Written(data, off, a);
      var l, r := Written(once, off + |a|, b), Written(data, off, a + b);
      assert |l| == |r|;
      forall i | 0 <= i < |l|
        ensures l[i] == r[i]
      {
        assert At(once, i) == if off <= i < off + |a| then a[i - off] else At(data, i);
      }
    }
  }

  /** Four adjacent pieces. */
  lemma FourWritten(data: Buffer, off: nat, a: Buffer, b: Buffer, c: Buffer, d: Buffer)
    ensures Written(Written(Written(Written(data, off, a), off + |a|, b), off + |a| + |b|, c), off + |a| + |b| + |c|, d) ==
            Written(data, off, a + b + c + d)
  {
    hide Written;
    WrittenJoins(data, off, a, b);
    WrittenJoins(data, off, a + b, c);
    WrittenJoins(data, off, a + b + c, d);
  }

  // ---- Little-endian integers ----

  function Pow256(k: nat): (p: nat)
    ensures p > 0
  {
    if k == 0 then 1 else 256 * Pow256(k - 1)
  }

  /** The low `k` bytes of `n`, least significant first. */
  function Encode(n: nat, k: nat): (b: Buffer)
    ensures |b| == k
  {
    if k == 0 then [] else [n % 256] + Encode(n / 256, k - 1)
  }

  function Decode(b: Buffer): nat {
    if b == [] then 0 else b[0] + 256 * Decode(b[1..])
  }

  lemma {:induction false} DecodeEncode(n: nat, k: nat)
    ensures Decode(Encode(n, k)) == n % Pow256(k)
  {
    if k > 0 {
      DecodeEncode(n / 256, k - 1);
      assert Encode(n, k)[1..] == Encode(n / 256, k - 1);
      ModSplit(n, Pow256(k - 1));
    }
  }

  lemma ModSplit(n: nat, p: nat)
    requires p > 0
    ensures n % (256 * p) == n % 256 + 256 * (n / 256 % p)
  {
    var q := n / 256 / p;
    var r := n / 256 % p;
    assert n / 256 == q * p + r;
    assert n == 256 * (q * p + r) + n % 256;
    assert n == (256 * p) * q + (256 * r + n % 256);
    assert 0 <= 256 * r + n % 256 < 256 * p;
    DivModUnique(n, 256 * p, q, 256 * r + n % 256);
  }

  lemma DivModUnique(n: nat, d: nat, q: nat, r: nat)
    requires n == d * q + r && r < d
    ensures n / d == q && n % d == r
  {
    MulMonotone(d, n / d + 1, q);
    MulMonotone(d, q + 1, n / d);
  }

  lemma MulMonotone(d: nat, a: int, b: int)
    ensures a <= b ==> d * a <= d * b
  {
    if a <= b {
      assert d * b == d * a + d * (b - a);
    }
  }

  lemma {:induction false} EncodeDecode(b: Buffer)
    ensures Decode(b) < Pow256(|b|)
    ensures Encode(Decode(b), |b|) == b
  {
    if b != [] {
      EncodeDecode(b[1..]);
    }
  }

  lemma Pow256Values()
    ensures Pow256(2) == U16 && Pow256(4) == U32 && Pow256(8) == U64
  {
    assert Pow256(1) == 256;
    assert Pow256(2) == U16;
    assert Pow256(3) == 0x100_0000;
    assert Pow256(4) == U32;
    assert Pow256(5) == 0x100_0000_0000;
    assert Pow256(6) == 0x1_0000_0000_0000;
    assert Pow256(7) == 0x100_0000_0000_0000;
  }
}
