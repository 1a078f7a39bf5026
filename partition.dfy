/**
 * How `main` splits the image rows among the worker threads: every worker
 * gets `height / numThreads` rows, worker k starting at row
 * k * (height / numThreads). The rows left over by the integer division are
 * given to no worker.
 */
module Partition {

  import opened Arith

  /** `numThreads`: the number of workers of every pass. */
  const NumThreads: nat := 8

  /** `R`: the number of times the whole pass is run. */
  const Repetitions: nat := 17

  /** `rowsPerThread`: the bands cover all but fewer than NumThreads rows. */
  function RowsPerThread(height: nat): (rows: nat)
    ensures NumThreads * rows <= height < NumThreads * rows + NumThreads
  {
    height / NumThreads
  }

  /**
   * Row `row` lies in the band [k * rows, k * rows + rows) of worker k; the
   * worker owning a row is then row / rows.
   */
  predicate InBand(row: int, rows: nat, k: nat): (inside: bool)
    ensures inside ==> 0 < rows && row / rows == k
  {
    && k * rows <= row < k * rows + rows
    && (DivUnique(row, rows, k); true)
  }

  /** No row belongs to two workers. */
  lemma BandsDisjoint(rows: nat, k1: nat, k2: nat, row: int)
    requires k1 != k2
    ensures !(InBand(row, rows, k1) && InBand(row, rows, k2))
  {
    if k1 < k2 {
      MulLeftMono(k1 + 1, k2, rows);
    } else {
      MulLeftMono(k2 + 1, k1, rows);
    }
  }

  /** A row of the prefix lies in the band of worker row / rows. */
  lemma PrefixRowInBand(n: nat, rows: nat, row: int)
    requires 0 <= row < n * rows
    ensures 0 < rows && row / rows < n && InBand(row, rows, row / rows)
  {
    var k := row / rows;
    assert row == k * rows + row % rows && 0 <= row % rows < rows;
    if k >= n {
      MulLeftMono(n, k, rows);
    }
  }

  /** The bands of workers 0 .. n-1 together are exactly the rows [0, n * rows). */
  lemma BandsCoverPrefix(n: nat, rows: nat, row: int)
    ensures (0 <= row < n * rows) <==> (exists k :: 0 <= k < n && InBand(row, rows, k))
  {
    if 0 <= row < n * rows {
      PrefixRowInBand(n, rows, row);
      assert InBand(row, rows, row / rows);
    }
    if exists k :: 0 <= k < n && InBand(row, rows, k) {
      var k :| 0 <= k < n && InBand(row, rows, k);
      MulLeftMono(k + 1, n, rows);
    }
  }

  /** The rows below the last band belong to no worker. */
  lemma RemainderRowsUnassigned(height: nat, row: int)
    requires NumThreads * RowsPerThread(height) <= row < height
    ensures forall k :: 0 <= k < NumThreads ==> !InBand(row, RowsPerThread(height), k)
  {
    BandsCoverPrefix(NumThreads, RowsPerThread(height), row);
  }

  /** When the thread count divides the height, every row belongs to some worker. */
  lemma EvenHeightFullyCovered(height: nat, row: int)
    requires height % NumThreads == 0 && 0 <= row < height
    ensures exists k :: 0 <= k < NumThreads && InBand(row, RowsPerThread(height), k)
  {
    BandsCoverPrefix(NumThreads, RowsPerThread(height), row);
  }

  /** A 17-row image: bands of 2 rows, and row 16 is left to no worker. */
  lemma SeventeenRows()
    ensures RowsPerThread(17) == 2
    ensures forall k :: 0 <= k < NumThreads ==> !InBand(16, RowsPerThread(17), k)
  {
    RemainderRowsUnassigned(17, 16);
  }
}
