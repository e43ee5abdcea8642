/** Variable-length items laid end to end, each zero-filled to a multiple of eight bytes. */
module Packing {
  import opened Bytes

  function Fill(n: nat): (k: nat)
    ensures k < 8
  {
    (8 - n % 8) % 8
  }

  function Padded(b: Buffer): (p: Buffer)
    ensures |p| == |b| + Fill(|b|)
  {
    b + Zeros(Fill(|b|))
  }

  function Joined(ps: seq<Buffer>): Buffer {
    if ps == [] then [] else Joined(ps[..|ps| - 1]) + Padded(ps[|ps| - 1])
  }

  /** Where item `i` starts. */
  function Start(ps: seq<Buffer>, i: nat): nat
    requires i <= |ps|
  {
    |Joined(ps[..i])|
  }

  lemma StartNext(ps: seq<Buffer>, i: nat)
    requires i < |ps|
    ensures Start(ps, i + 1) == Start(ps, i) + |ps[i]| + Fill(|ps[i]|)
  {
    assert ps[..i + 1][..i] == ps[..i];
  }

  lemma {:induction false} StartsIncrease(ps: seq<Buffer>, i: nat, j: nat)
    requires i < j <= |ps|
    ensures Start(ps, i) + |ps[i]| <= Start(ps, j) <= |Joined(ps)|
  {
    if i + 1 < j {
      StartsIncrease(ps, i, j - 1);
    }
    StartNext(ps, j - 1);
    StartsGrow(ps, j);
  }

  lemma {:induction false} StartsGrow(ps: seq<Buffer>, j: nat)
    requires j <= |ps|
    ensures Start(ps, j) <= |Joined(ps)|
    decreases |ps| - j
  {
    if j < |ps| {
      StartNext(ps, j);
      StartsGrow(ps, j + 1);
    } else {
      assert ps[..j] == ps;
    }
  }

  /** Every item stands unchanged at its start. */
  lemma {:induction false} ItemAtStart(ps: seq<Buffer>, i: nat)
    requires i < |ps|
    ensures Start(ps, i) + |ps[i]| <= |Joined(ps)|
    ensures Slice(Joined(ps), Start(ps, i), |ps[i]|) == ps[i]
  {
    var n := |ps| - 1;
    if i == n {
    } else {
      ItemAtStart(ps[..n], i);
      assert ps[..n][..i] == ps[..i];
      assert Slice(Joined(ps), Start(ps, i), |ps[i]|) == Slice(Joined(ps[..n]), Start(ps, i), |ps[i]|);
    }
  }

  lemma {:induction false} JoinedIsAligned(ps: seq<Buffer>)
    ensures |Joined(ps)| % 8 == 0
  {
    if ps != [] {
      JoinedIsAligned(ps[..|ps| - 1]);
      AlignedSum(|Joined(ps[..|ps| - 1])|, |ps[|ps| - 1]|);
    }
  }

  lemma AlignedSum(a: nat, n: nat)
    requires a % 8 == 0
    ensures (a + n + Fill(n)) % 8 == 0
  {
  }

  lemma FillAligns(n: nat)
    ensures (n + Fill(n)) % 8 == 0
  {
  }

  /** Pushes zero bytes until the length is a multiple of eight. */
  method PadTail(unpadded: Buffer, ghost before: Buffer, ghost added: Buffer) returns (tail: Buffer)
    requires unpadded == before + added && |before| % 8 == 0
    ensures tail == before + Padded(added)
  {
    tail := unpadded;
    ghost var k := 0;
    FillAligns(|added|);
    while |tail| % 8 != 0
      invariant 0 <= k <= Fill(|added|)
      invariant tail == before + added + Zeros(k)
      decreases Fill(|added|) - k
    {
      tail := tail + [0];
      k := k + 1;
      assert Zeros(k) == Zeros(k - 1) + [0];
    }
    assert k == Fill(|added|);
  }
}
