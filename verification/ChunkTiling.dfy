/**
  How an allocation is cut into chunks: the size is aligned to the granularity of the
  device, and the aligned size is cut into chunks of the aligned chunk size.  Sizes are
  64-bit and wrap around.
 */
module ChunkTiling {
  import opened Basics

  const TWO_64: int := 0x1_0000_0000_0000_0000
  const MEGABYTE: int := 1024 * 1024
  const DEFAULT_CHUNK: int := 256 * MEGABYTE

  /** The chunk size from the environment, in megabytes; None when unset or not a number. */
  function BaseChunk(megabytes: Option<nat>): (r: nat)
    requires megabytes.Some? ==> megabytes.value < TWO_64
    ensures 0 < r < TWO_64 && r % MEGABYTE == 0
    ensures
      var fits := megabytes.Some? && 0 < megabytes.value && megabytes.value * MEGABYTE < TWO_64;
      r == if fits then megabytes.value * MEGABYTE else DEFAULT_CHUNK
  {
    if megabytes.None? || megabytes.value == 0 || megabytes.value > (TWO_64 - 1) / MEGABYTE then DEFAULT_CHUNK
    else megabytes.value * MEGABYTE
  }

  /** ((x + g - 1) / g) * g in 64-bit arithmetic */
  function AlignUp(x: int, g: int): (r: int)
    requires 0 <= x < TWO_64 && 0 < g < TWO_64
    ensures 0 <= r < TWO_64
  {
    AlignDown((x + g - 1) % TWO_64, g);
    ((x + g - 1) % TWO_64) / g * g
  }

  function Sum(sizes: seq<int>): int {
    if sizes == [] then 0 else Sum(sizes[..|sizes| - 1]) + sizes[|sizes| - 1]
  }

  /** Chunks of one size, the last one possibly smaller, that add up to the total. */
  ghost predicate Tiles(chunks: seq<int>, total: int, chunk: int, g: int)
    requires g > 0
  {
    && Sum(chunks) == total
    && (forall i :: 0 <= i < |chunks| ==> 0 < chunks[i] <= chunk && chunks[i] % g == 0)
    && (forall i :: 0 <= i < |chunks| - 1 ==> chunks[i] == chunk)
  }

  // ----- arithmetic ----------------------------------------------------------------

  /** Without wrap-around, alignment gives the least multiple that is large enough. */
  lemma AlignUpIsLeast(x: int, g: int)
    requires 0 <= x < TWO_64 && 0 < g < TWO_64 && x + g - 1 < TWO_64
    ensures x <= AlignUp(x, g) < x + g && AlignUp(x, g) % g == 0
  {
    var q := (x + g - 1) / g;
    assert (x + g - 1) % TWO_64 == x + g - 1;
    DivBounds(x + g - 1, g);
    MultipleOf(q, g);
  }

  /** The aligned size is zero for nothing, and when the alignment wraps around. */
  lemma AlignUpIsZero(x: int, g: int)
    requires 0 <= x < TWO_64 && 0 < g < TWO_64
    ensures AlignUp(x, g) == 0 <==> x == 0 || x + g - 1 >= TWO_64
  {
    if x + g - 1 < TWO_64 {
      AlignUpIsLeast(x, g);
      AlignUpOfZero(g);
    } else {
      var w := x + g - 1 - TWO_64;
      assert (x + g - 1) % TWO_64 == w;
      SmallQuotient(w, g);
    }
  }

  lemma AlignUpOfZero(g: int)
    requires 0 < g < TWO_64
    ensures AlignUp(0, g) == 0
  {
    SmallQuotient(g - 1, g);
  }

  lemma SmallQuotient(w: int, d: int)
    requires 0 <= w < d
    ensures w / d == 0
  {
  }

  lemma DivBounds(a: int, d: int)
    requires 0 <= a && 0 < d
    ensures a - d < a / d * d <= a
  {
  }

  lemma MultipleOf(q: int, d: int)
    requires 0 < d
    ensures (q * d) % d == 0
  {
    ModOfMultiple(q, 0, d);
  }

  lemma {:induction false} ModOfMultiple(q: int, r: int, d: int)
    requires 0 <= r < d
    ensures (q * d + r) % d == r
  {
    var a := q * d + r;
    assert a == (a / d) * d + a % d;
    var k := q - a / d;
    assert k * d == a % d - r;
    assert k >= 1 ==> k * d >= d;
    assert k <= -1 ==> k * d <= -d;
  }

  lemma DifferenceOfMultiples(a: int, b: int, d: int)
    requires 0 < d && a % d == 0 && b % d == 0
    ensures (a - b) % d == 0
  {
    var p, q := a / d, b / d;
    assert a == p * d && b == q * d;
    assert a - b == (p - q) * d;
    MultipleOf(p - q, d);
  }

  // ----- cutting -------------------------------------------------------------------

  /** The number of chunks, in 64-bit arithmetic. */
  function CountChunks(total: int, chunk: int): int
    requires 0 <= total < TWO_64 && 0 < chunk < TWO_64
  {
    ((total + chunk - 1) % TWO_64) / chunk
  }

  lemma CountChunksBounds(total: int, chunk: int)
    requires 0 <= total < TWO_64 && 0 < chunk < TWO_64
    ensures
      var n := CountChunks(total, chunk);
      && 0 <= n
      && (n > 0 ==> (n - 1) * chunk < total)
      && (total <= n * chunk <==> total + chunk - 1 < TWO_64)
  {
    var y := total + chunk - 1;
    if y < TWO_64 {
      assert y % TWO_64 == y;
      QuotientBounds(y, total, chunk);
    } else {
      assert y % TWO_64 == y - TWO_64;
      QuotientBounds(y - TWO_64, total, chunk);
    }
  }

  lemma QuotientBounds(x: int, total: int, d: int)
    requires 0 <= x < total + d && 0 < d
    ensures 0 <= x / d && (x / d - 1) * d < total && x - d < x / d * d <= x
  {
    DivBounds(x, d);
    Predecessor(x / d, d);
  }

  lemma Predecessor(n: int, d: int)
    ensures (n - 1) * d == n * d - d
  {
  }

  /** The chunks fit into the size.  They tile it exactly when counting them does not wrap
      around; otherwise there are none. */
  ghost predicate IsChunking(chunks: seq<int>, total: int, chunk: int, g: int)
    requires 0 <= total < TWO_64 && g > 0
  {
    && 0 < chunk < TWO_64 && |chunks| == CountChunks(total, chunk)
    && Positive(chunks) && Sum(chunks) <= total
    && (Tiles(chunks, total, chunk, g) <==> total + chunk - 1 < TWO_64)
    && (total + chunk - 1 >= TWO_64 ==> chunks == [])
  }

  /** The cut of my_malloc for an aligned size.  None stands for the division by zero when
      the aligned chunk size wraps around to zero. */
  method ComputeChunks(total: int, granularity: int, baseChunk: int) returns (r: Option<seq<int>>)
    requires 0 <= total < TWO_64 && 0 < granularity < TWO_64 && 0 < baseChunk < TWO_64 && total % granularity == 0
    ensures r.None? <==> baseChunk + granularity - 1 >= TWO_64
    ensures r.Some? ==> IsChunking(r.value, total, AlignUp(baseChunk, granularity), granularity)
  {
    var chunk := AlignUp(baseChunk, granularity);
    AlignedToMultiple(baseChunk, granularity);
    AlignUpIsZero(baseChunk, granularity);
    if chunk == 0 {
      return None;
    }
    var chunks := Cut(total, chunk);
    CutIsPositive(total, chunk, chunks);
    CutTiles(total, chunk, granularity, chunks);
    if total + chunk - 1 >= TWO_64 {
      SmallQuotient(total + chunk - 1 - TWO_64, chunk);
    }
    r := Some(chunks);
  }

  lemma CutIsPositive(total: int, chunk: int, chunks: seq<int>)
    requires 0 <= total < TWO_64 && 0 < chunk < TWO_64 && IsCut(total, chunk, chunks)
    ensures Positive(chunks)
  {
    forall j | 0 <= j < |chunks| ensures 0 < chunks[j] {
      assert j * chunk < total;
    }
  }

  /** The chunks by a formula for each. */
  ghost predicate IsCut(total: int, chunk: int, chunks: seq<int>)
    requires 0 <= total < TWO_64 && 0 < chunk < TWO_64
  {
    && |chunks| == CountChunks(total, chunk)
    && forall j :: 0 <= j < |chunks| ==> j * chunk < total && chunks[j] == Min(total - j * chunk, chunk)
  }

  /** The loop over the chunks; the subtraction for a chunk never goes below zero. */
  method Cut(total: int, chunk: int) returns (chunks: seq<int>)
    requires 0 <= total < TWO_64 && 0 < chunk < TWO_64
    ensures IsCut(total, chunk, chunks)
    ensures Sum(chunks) == Min(total, |chunks| * chunk)
  {
    var n := CountChunks(total, chunk);
    CountChunksBounds(total, chunk);
    chunks := [];
    for i := 0 to n
      invariant |chunks| == i
      invariant forall j :: 0 <= j < i ==> j * chunk < total && chunks[j] == Min(total - j * chunk, chunk)
      invariant Sum(chunks) == Min(total, i * chunk)
    {
      ChunkIsPositive(total, chunk, n, i);
      var size := Min(total - i * chunk, chunk);
      Predecessor(i + 1, chunk);
      assert (chunks + [size])[..i] == chunks;
      chunks := chunks + [size];
    }
  }

  lemma CutTiles(total: int, chunk: int, g: int, chunks: seq<int>)
    requires 0 <= total < TWO_64 && 0 < chunk < TWO_64 && 0 < g && total % g == 0 && chunk % g == 0
    requires IsCut(total, chunk, chunks) && Sum(chunks) == Min(total, |chunks| * chunk)
    ensures Tiles(chunks, total, chunk, g) <==> total + chunk - 1 < TWO_64
  {
    var n := |chunks|;
    CountChunksBounds(total, chunk);
    forall j | 0 <= j < n
      ensures 0 < chunks[j] <= chunk && chunks[j] % g == 0 && (j < n - 1 ==> chunks[j] == chunk)
    {
      ChunkIsPositive(total, chunk, n, j);
      ChunkIsAligned(total, chunk, j, g);
    }
  }

  lemma AlignedToMultiple(x: int, g: int)
    requires 0 <= x < TWO_64 && 0 < g < TWO_64
    ensures AlignUp(x, g) % g == 0
  {
    AlignDown((x + g - 1) % TWO_64, g);
  }

  lemma AlignDown(w: int, g: int)
    requires 0 <= w && 0 < g
    ensures 0 <= w / g * g <= w && (w / g * g) % g == 0
  {
    var q := w / g;
    DivBounds(w, g);
    Monotone(0, q, g);
    MultipleOf(q, g);
  }

  lemma ChunkIsPositive(total: int, chunk: int, n: int, i: int)
    requires 0 < chunk && 0 <= i < n && (n - 1) * chunk < total
    ensures 0 <= i * chunk < total
    ensures i < n - 1 ==> chunk <= total - i * chunk
  {
    Monotone(0, i, chunk);
    Monotone(i, n - 1, chunk);
    if i < n - 1 {
      Monotone(i + 1, n - 1, chunk);
      Predecessor(i + 1, chunk);
    }
  }

  lemma Monotone(a: int, b: int, d: int)
    requires a <= b && 0 < d
    ensures a * d <= b * d
  {
  }

  lemma ChunkIsAligned(total: int, chunk: int, j: int, g: int)
    requires 0 < g && total % g == 0 && chunk % g == 0
    ensures Min(total - j * chunk, chunk) % g == 0
  {
    var q := chunk / g;
    assert j * chunk == (j * q) * g by {
      assert chunk == q * g;
    }
    MultipleOf(j * q, g);
    DifferenceOfMultiples(total, j * chunk, g);
  }

  // ----- addresses -----------------------------------------------------------------

  /** Where chunk j begins. */
  function Start(base: int, chunks: seq<int>, j: nat): int
    requires j <= |chunks|
  {
    if j == 0 then base else Start(base, chunks, j - 1) + chunks[j - 1]
  }

  lemma {:induction false} StartIsSum(base: int, chunks: seq<int>, j: nat)
    requires j <= |chunks|
    ensures Start(base, chunks, j) == base + Sum(chunks[..j])
  {
    if j > 0 {
      StartIsSum(base, chunks, j - 1);
      assert chunks[..j][..j - 1] == chunks[..j - 1];
    }
  }

  ghost predicate Positive(chunks: seq<int>) {
    forall i :: 0 <= i < |chunks| ==> 0 < chunks[i]
  }

  lemma {:induction false} StartsAscend(base: int, chunks: seq<int>, i: nat, j: nat)
    requires Positive(chunks) && i <= j <= |chunks|
    ensures Start(base, chunks, i) + (j - i) <= Start(base, chunks, j)
  {
    if i < j {
      StartsAscend(base, chunks, i, j - 1);
    }
  }

  ghost predicate Inside(base: int, chunks: seq<int>, j: int, a: int) {
    0 <= j < |chunks| && Start(base, chunks, j) <= a < Start(base, chunks, j) + chunks[j]
  }

  /** The chunks cover the reservation end to end, and no address lies in two of them. */
  lemma ChunksCoverOnce(base: int, chunks: seq<int>, a: int)
    requires Positive(chunks)
    ensures base <= a < base + Sum(chunks) <==> exists j :: Inside(base, chunks, j, a)
    ensures forall i, j :: Inside(base, chunks, i, a) && Inside(base, chunks, j, a) ==> i == j
  {
    StartIsSum(base, chunks, |chunks|);
    assert chunks[..|chunks|] == chunks;
    if base <= a < base + Sum(chunks) {
      var j := FindChunk(base, chunks, a, |chunks|);
    }
    forall j | Inside(base, chunks, j, a) ensures base <= a < base + Sum(chunks) {
      StartsAscend(base, chunks, 0, j);
      StartsAscend(base, chunks, j + 1, |chunks|);
    }
    forall i, j | Inside(base, chunks, i, a) && Inside(base, chunks, j, a) ensures i == j {
      if i < j {
        StartsAscend(base, chunks, i + 1, j);
      } else if j < i {
        StartsAscend(base, chunks, j + 1, i);
      }
    }
  }

  lemma {:induction false} FindChunk(base: int, chunks: seq<int>, a: int, n: nat) returns (j: nat)
    requires n <= |chunks| && base <= a < Start(base, chunks, n)
    ensures Inside(base, chunks, j, a)
  {
    if Start(base, chunks, n - 1) <= a {
      j := n - 1;
    } else {
      j := FindChunk(base, chunks, a, n - 1);
    }
  }

  /** A chunk size that the environment may ask for, and a granularity, for which the
      alignment wraps around and the number of chunks is a division by zero. */
  lemma ChunkSizeCanWrapToZero()
    ensures AlignUp(BaseChunk(Some(0xFFF_FFFF_FFFF)), 2 * MEGABYTE) == 0
  {
  }

  /** One megabyte less, and counting the chunks of four megabytes wraps around to none. */
  lemma CountCanWrapToZero()
    ensures
      var chunk := AlignUp(BaseChunk(Some(0xFFF_FFFF_FFFE)), 2 * MEGABYTE);
      chunk == TWO_64 - 2 * MEGABYTE && CountChunks(4 * MEGABYTE, chunk) == 0
  {
  }
}
