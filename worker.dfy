/**
 * The worker `threadTask`: it blends the rows [startRow, startRow + numRows)
 * of the red, green and blue planes into the destination buffer, in place.
 */
module Worker {

  import opened Arith
  import opened Kernel
  import opened Planar

  /** The argument block handed to each worker. */
  datatype ThreadParams = ThreadParams(
    source: array<int>,
    help: array<int>,
    dest: array<int>,
    width: nat,
    height: nat,
    startRow: nat,
    numRows: nat)

  /**
   * What the worker needs of its argument for every access to stay inside the
   * buffers: three colour planes in each buffer, a band inside the image, and
   * a destination that is neither input.
   */
  ghost predicate Ready(p: ThreadParams)
    reads p.source, p.help
  {
    && p.dest != p.source
    && p.dest != p.help
    && Fits(p.source[..], p.help[..], p.width, p.height)
    && 3 * (p.width * p.height) <= p.dest.Length
    && p.startRow + p.numRows <= p.height
  }

  /** The band ends inside its plane: its end offset is (startRow + numRows) * width. */
  lemma BandOffsets(width: nat, height: nat, startRow: nat, numRows: nat)
    requires startRow + numRows <= height
    ensures startRow * width + width * numRows == (startRow + numRows) * width
    ensures (startRow + numRows) * width <= height * width == width * height
  {
    MulLeftMono(startRow + numRows, height, width);
  }

  /**
   * One worker: the destination afterwards is the old destination with the
   * band's rows of the three colour planes replaced by the blend; source and
   * help are only read.
   */
  method ThreadTask(p: ThreadParams)
    requires Ready(p)
    modifies p.dest
    ensures p.dest[..] == BandUpdate(old(p.dest[..]), p.source[..], p.help[..],
                                     p.width, p.height, p.startRow, p.startRow + p.numRows)
    ensures p.source[..] == old(p.source[..]) && p.help[..] == old(p.help[..])
  {
    var startingPoint := p.startRow * p.width;
    var plane := p.height * p.width;
    // The red, green and blue pointers of all three buffers sit at these offsets.
    var red0, green0, blue0 := startingPoint, startingPoint + plane, startingPoint + 2 * plane;
    var count := p.width * p.numRows;
    BandOffsets(p.width, p.height, p.startRow, p.numRows);

    var i := 0;
    while i < count
      invariant 0 <= i <= count
      invariant forall j :: 0 <= j < p.dest.Length ==>
        p.dest[j] == if InPlanes(j, plane, startingPoint, startingPoint + i)
                     then Blacken(p.source[j], p.help[j]) else old(p.dest[j])
    {
      var red := BlackenRaw(p.source[red0 + i], p.help[red0 + i]);
      var green := BlackenRaw(p.source[green0 + i], p.help[green0 + i]);
      var blue := BlackenRaw(p.source[blue0 + i], p.help[blue0 + i]);

      red := Clamp(red);
      green := Clamp(green);
      blue := Clamp(blue);

      p.dest[red0 + i] := red;
      p.dest[green0 + i] := green;
      p.dest[blue0 + i] := blue;
      i := i + 1;
    }
  }
}
