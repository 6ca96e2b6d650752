/** The chunk plan of a resumable upload: how many chunks a file needs, which
    byte window chunk k covers, and the progress percentage reported while a
    window is streamed. */
module ChunkPlan {
  import opened Wrappers
  import opened Kotlin

  const MiB: nat := 1024 * 1024
  /** The smallest chunk size the builder accepts. */
  const MinChunkSize: nat := 15 * MiB
  /** The chunk size the builder uses when none is set. */
  const DefaultChunkSize: nat := 30 * MiB

  function Min(a: int, b: int): int { if a <= b then a else b }

  /** Integer ceiling of a / b. */
  function CeilDiv(a: nat, b: nat): nat
    requires b > 0
  {
    if a == 0 then 0 else (a - 1) / b + 1
  }

  /** The ceiling quotient is the fewest b-sized pieces that cover a. */
  lemma CeilDivBounds(a: nat, b: nat)
    requires b > 0
    ensures CeilDiv(a, b) * b >= a
    ensures CeilDiv(a, b) == 0 || (CeilDiv(a, b) - 1) * b < a
    ensures a == 0 <==> CeilDiv(a, b) == 0
  {
    if a > 0 {
      var q := CeilDiv(a, b);
      assert (q - 1) * b <= a - 1 < q * b by {
        assert a - 1 == ((a - 1) / b) * b + (a - 1) % b;
      }
    }
  }

  /** `totalChunks`: the ceiling of fileSize / chunkSize, converted to `Int`
      (a conversion that saturates at `Int.MAX_VALUE`). */
  function TotalChunks(fileSize: nat, chunkSize: nat): (n: int)
    requires chunkSize > 0
    ensures 0 <= n <= IntMax
    ensures CeilDiv(fileSize, chunkSize) <= IntMax ==> n == CeilDiv(fileSize, chunkSize)
  {
    var q := CeilDiv(fileSize, chunkSize);
    if q > IntMax then IntMax else q
  }

  /** The end (exclusive) of chunk k's window, min(chunkSize * (k + 1), fileSize),
      with the product computed in `Long`. */
  function ChunkEnd(chunkSize: int, chunkOffset: int, fileSize: int): (e: int)
    ensures e <= fileSize && e <= chunkSize * (chunkOffset + 1)
    ensures e == fileSize || e == chunkSize * (chunkOffset + 1)
  {
    Min(chunkSize * (chunkOffset + 1), fileSize)
  }

  /** The end as the source writes it: `(chunkSize * (chunkOffset + 1)).toLong()`
      multiplies two `Int`s, so the product wraps around before it is widened. */
  function ChunkEndAsWritten(chunkSize: int, chunkOffset: int, fileSize: int): (e: int)
    ensures e <= fileSize
  {
    Min(WrapInt(chunkSize * WrapInt(chunkOffset + 1)), fileSize)
  }

  /** While the product fits in an `Int`, the two computations agree. */
  lemma ChunkEndAsWrittenAgrees(chunkSize: int, chunkOffset: int, fileSize: int)
    requires IsInt(chunkOffset + 1) && IsInt(chunkSize * (chunkOffset + 1))
    ensures ChunkEndAsWritten(chunkSize, chunkOffset, fileSize) == ChunkEnd(chunkSize, chunkOffset, fileSize)
  {
  }

  /** For a positive chunk size and a chunk whose end product fits in an
      `Int`, the end as written is the intended one. */
  lemma ChunkEndFits(chunkSize: nat, k: nat, fileSize: int)
    requires 0 < chunkSize && chunkSize * (k + 1) <= IntMax
    ensures ChunkEndAsWritten(chunkSize, k, fileSize) == ChunkEnd(chunkSize, k, fileSize)
  {
    MulMonotone(1, chunkSize, k + 1);
    ChunkEndAsWrittenAgrees(chunkSize, k, fileSize);
  }

  /** Throughout a plan whose last product chunkSize * ceil(F / chunkSize) fits
      in an `Int`, every chunk end as written is the intended one. */
  lemma NoWrapWithinPlan(chunkSize: nat, fileSize: nat, k: nat)
    requires 0 < chunkSize && k < CeilDiv(fileSize, chunkSize)
    requires chunkSize * CeilDiv(fileSize, chunkSize) <= IntMax
    ensures ChunkEndAsWritten(chunkSize, k, fileSize) == ChunkEnd(chunkSize, k, fileSize)
  {
    MulMonotone(k + 1, CeilDiv(fileSize, chunkSize), chunkSize);
    ChunkEndFits(chunkSize, k, fileSize);
  }

  /** Conversely, when that last product does not fit, the last chunk as
      written ends short of the file, where it should end at the file's end. */
  lemma LastChunkEndWraps(chunkSize: nat, fileSize: nat)
    requires 0 < chunkSize <= IntMax && 0 < fileSize
    requires CeilDiv(fileSize, chunkSize) <= IntMax
    requires chunkSize * CeilDiv(fileSize, chunkSize) > IntMax
    ensures ChunkEndAsWritten(chunkSize, CeilDiv(fileSize, chunkSize) - 1, fileSize) < fileSize
    ensures ChunkEnd(chunkSize, CeilDiv(fileSize, chunkSize) - 1, fileSize) == fileSize
  {
    CeilDivBounds(fileSize, chunkSize);
    var n := CeilDiv(fileSize, chunkSize);
    var x := chunkSize * n;
    var w := WrapInt(x);
    assert WrapInt(n - 1 + 1) == n;
    assert x - w == ((x - w) / 0x1_0000_0000) * 0x1_0000_0000 + (x - w) % 0x1_0000_0000;
    assert x - w >= 0x1_0000_0000;
    assert (n - 1) * chunkSize == x - chunkSize;
  }

  /** A 3 GiB file in 30 MiB chunks: the 69th chunk (offset 68) ends at a
      negative position as written, so its window is empty and its
      Content-Range is malformed, while the `Long` product ends it correctly. */
  lemma ChunkEndOverflowExample()
    ensures ChunkEndAsWritten(DefaultChunkSize, 68, 3 * 1024 * MiB) == -2124414976
    ensures ChunkEnd(DefaultChunkSize, 68, 3 * 1024 * MiB) == 69 * DefaultChunkSize
    ensures ChunkEnd(DefaultChunkSize, 68, 3 * 1024 * MiB) > 68 * DefaultChunkSize
  {
  }

  // ---------------------------------------------------------------- windows

  /** The window [start, end) of chunk k when every earlier chunk was
      acknowledged with 308: it starts where chunk k - 1 ended. */
  function Window(chunkSize: nat, fileSize: nat, k: nat): (int, int)
  {
    (Min(k * chunkSize, fileSize), ChunkEnd(chunkSize, k, fileSize))
  }

  /** Window k lies inside the file and holds at most one chunk; it starts at
      k * chunkSize and is non-empty while that is inside the file, and is
      empty at the file's end past it. */
  lemma WindowShape(chunkSize: nat, fileSize: nat, k: nat)
    ensures Window(chunkSize, fileSize, k).0 <= Window(chunkSize, fileSize, k).1 <= fileSize
    ensures Window(chunkSize, fileSize, k).1 - Window(chunkSize, fileSize, k).0 <= chunkSize
    ensures 0 < chunkSize && k * chunkSize < fileSize ==>
              Window(chunkSize, fileSize, k).0 == k * chunkSize < Window(chunkSize, fileSize, k).1
    ensures fileSize <= k * chunkSize ==> Window(chunkSize, fileSize, k).0 == Window(chunkSize, fileSize, k).1 == fileSize
  {
    assert chunkSize * (k + 1) == k * chunkSize + chunkSize;
  }

  /** Window k + 1 starts where window k ends. */
  lemma NextWindowStart(chunkSize: nat, fileSize: nat, k: nat)
    ensures Window(chunkSize, fileSize, k + 1).0 == Window(chunkSize, fileSize, k).1
  {
    assert (k + 1) * chunkSize == chunkSize * (k + 1);
  }

  /** The windows of chunks 0 .. n - 1 in the order they are sent. */
  function Windows(chunkSize: nat, fileSize: nat, n: nat): (ws: seq<(int, int)>)
    ensures |ws| == n
  {
    if n == 0 then [] else Windows(chunkSize, fileSize, n - 1) + [Window(chunkSize, fileSize, n - 1)]
  }

  lemma {:induction false} WindowsAt(chunkSize: nat, fileSize: nat, n: nat, k: nat)
    requires k < n
    ensures Windows(chunkSize, fileSize, n)[k] == Window(chunkSize, fileSize, k)
  {
    if k < n - 1 {
      WindowsAt(chunkSize, fileSize, n - 1, k);
    }
  }

  /** The consecutive byte offsets lo, lo + 1, ..., hi - 1. */
  function Span(lo: int, hi: int): (s: seq<int>)
    ensures |s| == if lo <= hi then hi - lo else 0
    decreases hi - lo
  {
    if hi <= lo then [] else Span(lo, hi - 1) + [hi - 1]
  }

  lemma {:induction false} SpanSplit(lo: int, mid: int, hi: int)
    requires lo <= mid <= hi
    ensures Span(lo, mid) + Span(mid, hi) == Span(lo, hi)
    decreases hi - mid
  {
    if mid < hi {
      SpanSplit(lo, mid, hi - 1);
      assert Span(lo, mid) + Span(mid, hi) == (Span(lo, mid) + Span(mid, hi - 1)) + [hi - 1];
    }
  }

  /** The byte offsets the windows carry, window after window. */
  function Covered(ws: seq<(int, int)>): seq<int>
  {
    if ws == [] then [] else Covered(ws[..|ws| - 1]) + Span(ws[|ws| - 1].0, ws[|ws| - 1].1)
  }

  /** The first n windows carry exactly the bytes [0, min(n * chunkSize, fileSize)),
      each once and in order. */
  lemma {:induction false} WindowsCoverPrefix(chunkSize: nat, fileSize: nat, n: nat)
    ensures Covered(Windows(chunkSize, fileSize, n)) == Span(0, Min(n * chunkSize, fileSize))
  {
    if n > 0 {
      var ws := Windows(chunkSize, fileSize, n);
      assert ws[..n - 1] == Windows(chunkSize, fileSize, n - 1);
      WindowsCoverPrefix(chunkSize, fileSize, n - 1);
      var a, b := Min((n - 1) * chunkSize, fileSize), Min(n * chunkSize, fileSize);
      assert (n - 1) * chunkSize <= n * chunkSize;
      SpanSplit(0, a, b);
    }
  }

  lemma MulMonotone(a: nat, b: nat, c: nat)
    requires a <= b
    ensures a * c <= b * c
  {
    assert b * c == a * c + (b - a) * c;
  }

  /** The windows of chunks 0 .. ceil(F / C) - 1 tile the file: together they
      carry every byte of [0, F) exactly once, in order, and none is empty. */
  lemma WindowsTileFile(chunkSize: nat, fileSize: nat)
    requires chunkSize > 0
    ensures Covered(Windows(chunkSize, fileSize, CeilDiv(fileSize, chunkSize))) == Span(0, fileSize)
    ensures forall k :: 0 <= k < CeilDiv(fileSize, chunkSize) ==>
              Window(chunkSize, fileSize, k).0 == k * chunkSize < Window(chunkSize, fileSize, k).1
  {
    CeilDivBounds(fileSize, chunkSize);
    var n := CeilDiv(fileSize, chunkSize);
    WindowsCoverPrefix(chunkSize, fileSize, n);
    assert Min(n * chunkSize, fileSize) == fileSize;
    forall k | 0 <= k < n
      ensures Window(chunkSize, fileSize, k).0 == k * chunkSize < Window(chunkSize, fileSize, k).1
    {
      MulMonotone(k, n - 1, chunkSize);
      WindowShape(chunkSize, fileSize, k);
    }
  }

  /** 100 MiB in 30 MiB chunks: four chunks, the last one [90 MiB, 100 MiB);
      10 MiB in 30 MiB chunks: one chunk, the single-request case. */
  lemma PlanExamples()
    ensures TotalChunks(100 * MiB, DefaultChunkSize) == 4
    ensures Window(DefaultChunkSize, 100 * MiB, 3) == (94371840, 104857600)
    ensures TotalChunks(10 * MiB, DefaultChunkSize) == 1
    ensures TotalChunks(0, DefaultChunkSize) == 0
  {
  }

  // ---------------------------------------------------------------- progress

  /** The percentage reported after `written` bytes of the window starting at
      `start`: ((start + written) * 100) / fileSize in `Long` arithmetic. A zero
      file size makes the division throw, which is `None`. */
  function Progress(start: int, written: int, fileSize: int): (p: Option<int>)
    requires fileSize >= 0
    ensures p.None? <==> fileSize == 0
  {
    if fileSize == 0 then None
    else Some(DivLong(WrapLong(WrapLong(start + written) * 100), fileSize))
  }

  /** Integer percentages of x out of f * 100, where x <= f * 100. */
  lemma PercentDiv(x: nat, f: nat)
    requires f > 0 && x <= f * 100
    ensures x / f <= 100
    ensures x / f == 100 <==> x == f * 100
  {
    var q, r := x / f, x % f;
    assert x == q * f + r && 0 <= r < f;
    if q > 100 {
      MulMonotone(101, q, f);
      assert false;
    }
    if q < 100 {
      MulMonotone(q, 99, f);
      assert x < f * 100;
    }
  }

  lemma MulCancel(a: int, b: int, f: int)
    requires f > 0 && a * f < b * f
    ensures a < b
  {
    assert (b - a) * f == b * f - a * f;
  }

  lemma DivMonotone(x: nat, y: nat, f: nat)
    requires f > 0 && x <= y
    ensures x / f <= y / f
  {
    var qx, qy := x / f, y / f;
    assert qx * f <= x;
    assert y < (qy + 1) * f by {
      assert y == qy * f + y % f;
    }
    MulCancel(qx, qy + 1, f);
  }

  /** Within the file, the percentage lies in 0 .. 100 and reaches 100 exactly
      at the end of the file. */
  lemma ProgressBounds(start: int, written: int, fileSize: int)
    requires 0 <= start && 0 <= written && start + written <= fileSize
    requires 0 < fileSize && fileSize * 100 <= LongMax
    ensures Progress(start, written, fileSize).Some?
    ensures Progress(start, written, fileSize).value == ((start + written) * 100) / fileSize
    ensures 0 <= Progress(start, written, fileSize).value <= 100
    ensures Progress(start, written, fileSize).value == 100 <==> start + written == fileSize
  {
    var u := start + written;
    assert u * 100 <= fileSize * 100;
    assert WrapLong(u) == u;
    assert WrapLong(u * 100) == u * 100;
    PercentDiv(u * 100, fileSize);
  }

  /** The percentage never decreases as more bytes of the window are written. */
  lemma ProgressMonotone(start: int, w1: int, w2: int, fileSize: int)
    requires 0 <= start && 0 <= w1 <= w2 && start + w2 <= fileSize
    requires 0 < fileSize && fileSize * 100 <= LongMax
    ensures Progress(start, w1, fileSize).Some? && Progress(start, w2, fileSize).Some?
    ensures Progress(start, w1, fileSize).value <= Progress(start, w2, fileSize).value
  {
    ProgressBounds(start, w1, fileSize);
    ProgressBounds(start, w2, fileSize);
    assert (start + w1) * 100 <= (start + w2) * 100;
    DivMonotone((start + w1) * 100, (start + w2) * 100, fileSize);
  }
}
