/**
 * The value-level meaning of one pass over planar buffers. A buffer of a
 * width x height image holds its channels one plane after another, each plane
 * width * height samples long: red first, then green, then blue, then alpha
 * if there is one. The worker of rows [lo, hi) writes, in each of the first
 * three planes, the offsets [lo * width, hi * width) of that plane.
 */
module Planar {

  import opened Arith
  import opened Kernel
  import opened Partition

  predicate AllSamples(s: seq<int>) {
    forall i :: 0 <= i < |s| ==> IsSample(s[i])
  }

  /** Index j lies at offsets [from, to) of the red, green or blue plane. */
  predicate InPlanes(j: int, plane: int, from: int, to: int) {
    || from <= j < to
    || plane + from <= j < plane + to
    || 2 * plane + from <= j < 2 * plane + to
  }

  /** Index j lies in rows [lo, hi) of the red, green or blue plane. */
  predicate InRows(j: int, width: nat, height: nat, lo: nat, hi: nat) {
    InPlanes(j, width * height, lo * width, hi * width)
  }

  /**
   * Source and help buffers both hold at least the three colour planes of a
   * width x height image, in 8-bit samples.
   */
  predicate Fits(src: seq<int>, help: seq<int>, width: nat, height: nat) {
    && 3 * (width * height) <= |src|
    && 3 * (width * height) <= |help|
    && AllSamples(src)
    && AllSamples(help)
  }

  /** Every index of a band lies inside the three colour planes. */
  lemma BandInBuffer(width: nat, height: nat, lo: nat, hi: nat)
    requires lo <= hi <= height
    ensures forall j :: InRows(j, width, height, lo, hi) ==> 0 <= j < 3 * (width * height)
  {
    MulLeftMono(hi, height, width);
  }

  /**
   * The destination after the worker of rows [lo, hi) has run: each index of
   * the band holds the blend of source and help at that index, every other
   * index keeps its value. The buffer keeps its length, every written value
   * is an 8-bit sample, and nothing past the third plane changes.
   */
  function BandUpdate(d: seq<int>, src: seq<int>, help: seq<int>,
                      width: nat, height: nat, lo: nat, hi: nat): (r: seq<int>)
    requires Fits(src, help, width, height) && lo <= hi <= height
    ensures |r| == |d|
    ensures forall j :: 0 <= j < |d| && InRows(j, width, height, lo, hi) ==> IsSample(r[j])
    ensures forall j :: 3 * (width * height) <= j < |d| ==> r[j] == d[j]
  {
    BandInBuffer(width, height, lo, hi);
    seq(|d|, j requires 0 <= j < |d| =>
      if InRows(j, width, height, lo, hi) then Blacken(src[j], help[j])
      else d[j])
  }

  /**
   * The destination after the workers 0 .. k-1, of `rows` rows each, have
   * run: same length, nothing past the third plane changed.
   */
  function Bands(d: seq<int>, src: seq<int>, help: seq<int>,
                 width: nat, height: nat, rows: nat, k: nat): (r: seq<int>)
    requires Fits(src, help, width, height) && k * rows <= height
    ensures |r| == |d|
    ensures forall j :: 3 * (width * height) <= j < |d| ==> r[j] == d[j]
    decreases k
  {
    if k == 0 then d
    else
      assert (k - 1) * rows + rows == k * rows;
      BandUpdate(Bands(d, src, help, width, height, rows, k - 1),
                 src, help, width, height, (k - 1) * rows, k * rows)
  }

  /**
   * The destination after one pass, all NumThreads workers having run: same
   * length, nothing past the third plane (alpha) changed.
   */
  function Pass(d: seq<int>, src: seq<int>, help: seq<int>, width: nat, height: nat): (r: seq<int>)
    requires Fits(src, help, width, height)
    ensures |r| == |d|
    ensures forall j :: 3 * (width * height) <= j < |d| ==> r[j] == d[j]
  {
    Bands(d, src, help, width, height, RowsPerThread(height), NumThreads)
  }

  /**
   * The destination after `times` passes: same length, nothing past the third
   * plane changed.
   */
  function Repeat(d: seq<int>, src: seq<int>, help: seq<int>,
                  width: nat, height: nat, times: nat): (r: seq<int>)
    requires Fits(src, help, width, height)
    ensures |r| == |d|
    ensures forall j :: 3 * (width * height) <= j < |d| ==> r[j] == d[j]
  {
    if times == 0 then d
    else Pass(Repeat(d, src, help, width, height, times - 1), src, help, width, height)
  }

  /** Running a worker twice leaves what running it once does. */
  lemma BandUpdateIdempotent(d: seq<int>, src: seq<int>, help: seq<int>,
                             width: nat, height: nat, lo: nat, hi: nat)
    requires Fits(src, help, width, height) && lo <= hi <= height
    ensures var once := BandUpdate(d, src, help, width, height, lo, hi);
            BandUpdate(once, src, help, width, height, lo, hi) == once
  {
  }

  /**
   * Two workers give the same destination whichever runs first, so running
   * the bands one after another stands for running them at once.
   */
  lemma BandUpdatesCommute(d: seq<int>, src: seq<int>, help: seq<int>, width: nat, height: nat,
                           lo1: nat, hi1: nat, lo2: nat, hi2: nat)
    requires Fits(src, help, width, height) && lo1 <= hi1 <= height && lo2 <= hi2 <= height
    ensures BandUpdate(BandUpdate(d, src, help, width, height, lo1, hi1), src, help, width, height, lo2, hi2)
         == BandUpdate(BandUpdate(d, src, help, width, height, lo2, hi2), src, help, width, height, lo1, hi1)
  {
  }

  /**
   * The bands handed to two different workers share no index of the buffer,
   * so the workers of one pass never write the same sample.
   */
  lemma WorkersWriteDisjointIndices(width: nat, height: nat, rows: nat, k1: nat, k2: nat, j: int)
    requires k1 != k2
    requires k1 * rows + rows <= height && k2 * rows + rows <= height
    requires InRows(j, width, height, k1 * rows, k1 * rows + rows)
    ensures !InRows(j, width, height, k2 * rows, k2 * rows + rows)
  {
    var plane := width * height;
    MulLeftMono(k1 * rows + rows, height, width);
    MulLeftMono(k2 * rows + rows, height, width);
    if k1 < k2 {
      MulLeftMono(k1 + 1, k2, rows);
      MulLeftMono(k1 * rows + rows, k2 * rows, width);
      OffsetsApart(j, plane, k1 * rows * width, (k1 * rows + rows) * width,
                   k2 * rows * width, (k2 * rows + rows) * width);
    } else {
      MulLeftMono(k2 + 1, k1, rows);
      MulLeftMono(k2 * rows + rows, k1 * rows, width);
      OffsetsApart(j, plane, k1 * rows * width, (k1 * rows + rows) * width,
                   k2 * rows * width, (k2 * rows + rows) * width);
    }
  }

  /** Offset ranges that are apart within a plane are apart in all three planes. */
  lemma OffsetsApart(j: int, plane: int, from1: int, to1: int, from2: int, to2: int)
    requires 0 <= from1 && 0 <= from2 && to1 <= plane && to2 <= plane
    requires to1 <= from2 || to2 <= from1
    requires InPlanes(j, plane, from1, to1)
    ensures !InPlanes(j, plane, from2, to2)
  {
  }

  /** Two adjacent bands written one after the other are one band. */
  lemma AdjacentBandsMerge(d: seq<int>, src: seq<int>, help: seq<int>,
                           width: nat, height: nat, lo: nat, mid: nat, hi: nat)
    requires Fits(src, help, width, height) && lo <= mid <= hi <= height
    ensures BandUpdate(BandUpdate(d, src, help, width, height, lo, mid), src, help, width, height, mid, hi)
         == BandUpdate(d, src, help, width, height, lo, hi)
  {
    MulLeftMono(lo, mid, width);
    MulLeftMono(mid, hi, width);
    var first := BandUpdate(d, src, help, width, height, lo, mid);
    var both := BandUpdate(first, src, help, width, height, mid, hi);
    var whole := BandUpdate(d, src, help, width, height, lo, hi);
    forall j | 0 <= j < |d|
      ensures both[j] == whole[j]
    {
      assert InRows(j, width, height, lo, hi) <==>
             InRows(j, width, height, lo, mid) || InRows(j, width, height, mid, hi);
    }
  }

  /** The first k workers together write exactly the rows [0, k * rows). */
  lemma {:induction false} BandsCollapse(d: seq<int>, src: seq<int>, help: seq<int>,
                                         width: nat, height: nat, rows: nat, k: nat)
    requires Fits(src, help, width, height) && k * rows <= height
    ensures Bands(d, src, help, width, height, rows, k)
         == BandUpdate(d, src, help, width, height, 0, k * rows)
  {
    if k > 0 {
      assert (k - 1) * rows + rows == k * rows;
      BandsCollapse(d, src, help, width, height, rows, k - 1);
      AdjacentBandsMerge(d, src, help, width, height, 0, (k - 1) * rows, k * rows);
    }
  }

  /**
   * What one pass does: the rows [0, NumThreads * RowsPerThread(height)) of
   * the three colour planes hold the blend of source and help, and every other
   * index, the remainder rows and any alpha plane included, is left as it was.
   */
  lemma PassEffect(d: seq<int>, src: seq<int>, help: seq<int>, width: nat, height: nat)
    requires Fits(src, help, width, height)
    ensures |Pass(d, src, help, width, height)| == |d|
    ensures forall j :: InRows(j, width, height, 0, NumThreads * RowsPerThread(height)) ==>
      0 <= j < 3 * (width * height)
    ensures forall j :: 0 <= j < |d| ==>
      Pass(d, src, help, width, height)[j] ==
        if InRows(j, width, height, 0, NumThreads * RowsPerThread(height))
        then Blacken(src[j], help[j]) else d[j]
  {
    var covered := NumThreads * RowsPerThread(height);
    var p := Pass(d, src, help, width, height);
    BandsCollapse(d, src, help, width, height, RowsPerThread(height), NumThreads);
    assert p == BandUpdate(d, src, help, width, height, 0, covered);
    BandInBuffer(width, height, 0, covered);
  }

  /**
   * Nothing outside the bands changes: the rows the integer division leaves
   * over, and everything past the third plane, keep their old values.
   */
  lemma PassLeavesRestUnchanged(d: seq<int>, src: seq<int>, help: seq<int>,
                                width: nat, height: nat, j: int)
    requires Fits(src, help, width, height) && 0 <= j < |d|
    requires j >= 3 * (width * height) ||
             InRows(j, width, height, NumThreads * RowsPerThread(height), height)
    ensures Pass(d, src, help, width, height)[j] == d[j]
  {
    PassEffect(d, src, help, width, height);
    var covered := NumThreads * RowsPerThread(height);
    MulLeftMono(covered, height, width);
  }

  /** Every value a pass writes is an 8-bit sample. */
  lemma PassWritesSamples(d: seq<int>, src: seq<int>, help: seq<int>,
                          width: nat, height: nat, j: int)
    requires Fits(src, help, width, height) && 0 <= j < |d|
    requires InRows(j, width, height, 0, NumThreads * RowsPerThread(height))
    ensures IsSample(Pass(d, src, help, width, height)[j])
  {
    PassEffect(d, src, help, width, height);
  }

  /** A second pass over the output of the first changes nothing. */
  lemma PassIdempotent(d: seq<int>, src: seq<int>, help: seq<int>, width: nat, height: nat)
    requires Fits(src, help, width, height)
    ensures Pass(Pass(d, src, help, width, height), src, help, width, height)
         == Pass(d, src, help, width, height)
  {
    var rows := RowsPerThread(height);
    var once := Pass(d, src, help, width, height);
    BandsCollapse(d, src, help, width, height, rows, NumThreads);
    BandsCollapse(once, src, help, width, height, rows, NumThreads);
    BandUpdateIdempotent(d, src, help, width, height, 0, NumThreads * rows);
  }

  /** Any positive number of passes leaves what one pass does. */
  lemma {:induction false} RepeatIsOnePass(d: seq<int>, src: seq<int>, help: seq<int>,
                                           width: nat, height: nat, times: nat)
    requires Fits(src, help, width, height) && times >= 1
    ensures Repeat(d, src, help, width, height, times) == Pass(d, src, help, width, height)
  {
    if times > 1 {
      RepeatIsOnePass(d, src, help, width, height, times - 1);
      PassIdempotent(d, src, help, width, height);
    }
  }
}
