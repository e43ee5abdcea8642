/** Positional I/O on one file, and the meaning of a list of positional writes (io_util.rs). */
module FileIo {
  import opened Wrappers
  import opened Bytes

  function ReadExact(data: Buffer, off: nat, n: nat): Result<Buffer> {
    if n == 0 then Ok([])
    else if off + n <= |data| then Ok(Slice(data, off, n))
    else Err(UnexpectedEof)
  }

  /** A read into a zeroed buffer that may come up short at the end of the file. */
  function ReadShort(data: Buffer, off: nat, n: nat): (b: Buffer)
    ensures |b| == n
    ensures forall i :: 0 <= i < n ==> b[i] == At(data, off + i)
  {
    Slice(Resized(data, Max(|data|, off + n)), off, n)
  }

  function AlignUp(n: nat, align: nat): (r: nat)
    requires align > 0
    ensures n <= r < n + align && r % align == 0
  {
    if n % align == 0 then n else AlignUpIsMultiple(n, align); n + (align - n % align)
  }

  lemma AlignUpIsMultiple(n: nat, align: nat)
    requires align > 0
    ensures (n + (align - n % align)) % align == 0
  {
    DivModUnique(n + (align - n % align), align, n / align + 1, 0);
  }

  class File {
    var data: Buffer

    constructor ()
      ensures data == []
    {
      data := [];
    }

    method ReadExactAt(off: nat, n: nat) returns (r: Result<Buffer>)
      ensures r == ReadExact(data, off, n)
    {
      if n == 0 {
        return Ok([]);
      }
      if off + n > |data| {
        return Err(UnexpectedEof);
      }
      return Ok(Slice(data, off, n));
    }

    /** Reads into a zeroed buffer as far as the file goes. */
    method ReadAt(off: nat, n: nat) returns (buf: Buffer)
      ensures buf == ReadShort(data, off, n)
    {
      var end := if off + n <= |data| then off + n else if off <= |data| then |data| else off;
      buf := if off < end then data[off..end] + Zeros(n - (end - off)) else Zeros(n);
    }

    method WriteAllAt(off: nat, buf: Buffer)
      modifies this
      ensures data == Written(old(data), off, buf)
    {
      data := Written(data, off, buf);
    }

    method SetLen(n: nat)
      modifies this
      ensures data == Resized(old(data), n)
    {
      data := Resized(data, n);
    }

    /** Zeroes a range in chunks of 64 KiB. */
    method ZeroRange(off: nat, len: nat)
      modifies this
      ensures data == Written(old(data), off, Zeros(len))
    {
      var remaining := len;
      var cursor := off;
      while remaining > 0
        invariant 0 <= remaining <= len && cursor == off + (len - remaining)
        invariant data == Written(old(data), off, Zeros(len - remaining))
      {
        var n := if remaining < 64 * KIB then remaining else 64 * KIB;
        WrittenJoins(old(data), off, Zeros(len - remaining), Zeros(n));
        assert Zeros(len - remaining) + Zeros(n) == Zeros(len - remaining + n);
        WriteAllAt(cursor, Zeros(n));
        cursor := cursor + n;
        remaining := remaining - n;
      }
    }
  }

  // ---- Ordered, possibly overlapping writes ----

  datatype Write = Write(off: nat, bytes: Buffer) {
    function End(): nat {
      off + |bytes|
    }

    predicate Covers(i: nat) {
      off <= i < off + |bytes|
    }

    /** No byte of [at, at + n) is written. */
    predicate Clear(at: nat, n: nat) {
      bytes == [] || at + n <= off || End() <= at
    }
  }

  /** The file after the writes, made in order. */
  function Apply(data: Buffer, ws: seq<Write>): Buffer {
    if ws == [] then data
    else
      var last := ws[|ws| - 1];
      Written(Apply(data, ws[..|ws| - 1]), last.off, last.bytes)
  }

  /** Where the last non-empty write ends, and at least `n`. */
  function Extent(n: nat, ws: seq<Write>): (e: nat)
    ensures n <= e
  {
    if ws == [] then n
    else
      var last := ws[|ws| - 1];
      Max(Extent(n, ws[..|ws| - 1]), if last.bytes == [] then 0 else last.End())
  }

  predicate Covered(ws: seq<Write>, i: nat) {
    exists k :: 0 <= k < |ws| && ws[k].Covers(i)
  }

  /** The last write that covers a byte. */
  function LastCover(ws: seq<Write>, i: nat): (k: nat)
    requires Covered(ws, i)
    ensures k < |ws| && ws[k].Covers(i)
    ensures forall j :: k < j < |ws| ==> !ws[j].Covers(i)
  {
    if ws[|ws| - 1].Covers(i) then |ws| - 1
    else
      assert Covered(ws[..|ws| - 1], i) by {
        var k :| 0 <= k < |ws| && ws[k].Covers(i);
        assert ws[..|ws| - 1][k] == ws[k];
      }
      LastCover(ws[..|ws| - 1], i)
  }

  lemma {:induction false} ApplyLength(data: Buffer, ws: seq<Write>)
    ensures |Apply(data, ws)| == Extent(|data|, ws)
  {
    if ws != [] {
      ApplyLength(data, ws[..|ws| - 1]);
    }
  }

  /** Each byte of the result is the one the last covering write put there, or the original. */
  lemma {:induction false} LastWriteWins(data: Buffer, ws: seq<Write>, i: nat)
    ensures !Covered(ws, i) ==> At(Apply(data, ws), i) == At(data, i)
    ensures Covered(ws, i) ==>
              var w := ws[LastCover(ws, i)];
              At(Apply(data, ws), i) == w.bytes[i - w.off]
  {
    if ws != [] {
      var last := ws[|ws| - 1];
      var rest := ws[..|ws| - 1];
      LastWriteWins(data, rest, i);
      assert forall k :: 0 <= k < |rest| ==> rest[k] == ws[k];
      if !last.Covers(i) {
        assert Covered(ws, i) ==> Covered(rest, i);
      }
    }
  }

  lemma {:induction false} ExtentCovers(n: nat, ws: seq<Write>, k: nat)
    requires k < |ws| && ws[k].bytes != []
    ensures ws[k].End() <= Extent(n, ws)
  {
    if k < |ws| - 1 {
      ExtentCovers(n, ws[..|ws| - 1], k);
    }
  }

  /** A read that no write touches sees the original bytes. */
  lemma ApplyKeeps(data: Buffer, ws: seq<Write>, at: nat, n: nat)
    requires at + n <= |data|
    requires forall k :: 0 <= k < |ws| ==> ws[k].Clear(at, n)
    ensures at + n <= |Apply(data, ws)|
    ensures Slice(Apply(data, ws), at, n) == Slice(data, at, n)
  {
    var after := Apply(data, ws);
    ApplyLength(data, ws);
    forall j | at <= j < at + n
      ensures after[j] == data[j]
    {
      LastWriteWins(data, ws, j);
      assert At(after, j) == At(data, j);
    }
  }

  /** A write that no later write touches reads back. */
  lemma ApplyReads(data: Buffer, ws: seq<Write>, k: nat)
    requires k < |ws| && ws[k].bytes != []
    requires forall j :: k < j < |ws| ==> ws[j].Clear(ws[k].off, |ws[k].bytes|)
    ensures ws[k].End() <= |Apply(data, ws)|
    ensures Slice(Apply(data, ws), ws[k].off, |ws[k].bytes|) == ws[k].bytes
  {
    var after := Apply(data, ws);
    var w := ws[k];
    ApplyLength(data, ws);
    ExtentCovers(|data|, ws, k);
    forall j | w.off <= j < w.End()
      ensures after[j] == w.bytes[j - w.off]
    {
      LastWriteWins(data, ws, j);
      assert w.Covers(j);
      assert LastCover(ws, j) == k;
    }
  }

  lemma {:induction false} ApplyAppend(data: Buffer, a: seq<Write>, b: seq<Write>)
    ensures Apply(data, a + b) == Apply(Apply(data, a), b)
  {
    if b == [] {
      assert a + b == a;
    } else {
      assert (a + b)[..|a + b| - 1] == a + b[..|b| - 1];
      ApplyAppend(data, a, b[..|b| - 1]);
    }
  }

  lemma ApplyOne(data: Buffer, w: Write)
    ensures Apply(data, [w]) == Written(data, w.off, w.bytes)
  {
    assert [w][..0] == [];
  }

  lemma ApplyStep(data: Buffer, ws: seq<Write>, k: nat)
    requires k < |ws|
    ensures Apply(data, ws[..k + 1]) == Written(Apply(data, ws[..k]), ws[k].off, ws[k].bytes)
  {
    assert ws[..k + 1][..k] == ws[..k];
  }
}
