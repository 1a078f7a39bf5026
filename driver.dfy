/**
 * The processing part of `main`: the size check of the two input images, the
 * allocation of the destination buffer, and the repeated pass in which every
 * worker blends its band of rows. The workers of one pass run one after
 * another here; their bands are disjoint and their order does not matter
 * (Partition.BandsDisjoint, Planar.BandUpdatesCommute).
 */
module Driver {

  import opened Arith
  import opened Partition
  import opened Planar
  import opened Worker

  /** A decoded image: its size, its number of channels and its planar samples. */
  datatype Image = Image(width: nat, height: nat, spectrum: nat, data: array<int>)

  /** The buffer holds `spectrum` planes of width * height 8-bit samples. */
  ghost predicate WellFormed(img: Image)
    reads img.data
  {
    && img.data.Length == img.width * img.height * img.spectrum
    && AllSamples(img.data[..])
  }

  datatype Error = SizeMismatch

  datatype Result<T> = Ok(value: T) | Err(error: Error)

  /**
   * The size check as written: it aborts only when width AND height both
   * differ. Every pair it rejects differs in size, but a pair that agrees in
   * one dimension always gets through.
   */
  predicate GuardAsWrittenRejects(srcWidth: nat, srcHeight: nat, helpWidth: nat, helpHeight: nat): (abort: bool)
    ensures abort ==> SizesDiffer(srcWidth, srcHeight, helpWidth, helpHeight)
    ensures srcWidth == helpWidth || srcHeight == helpHeight ==> !abort
  {
    srcWidth != helpWidth && srcHeight != helpHeight
  }

  /**
   * The size check as intended: it aborts when width OR height differs. Every
   * pair it accepts has planes of the same length in both images.
   */
  predicate SizesDiffer(srcWidth: nat, srcHeight: nat, helpWidth: nat, helpHeight: nat): (abort: bool)
    ensures !abort ==> srcWidth * srcHeight == helpWidth * helpHeight
  {
    srcWidth != helpWidth || srcHeight != helpHeight
  }

  /**
   * The written check lets a 100 x 100 source through with a 100 x 50 help
   * image, which the intended check rejects; no help buffer of that image's
   * three planes holds the three planes a pass over the source reads.
   */
  lemma GuardAsWrittenAdmitsShortHelp()
    ensures !GuardAsWrittenRejects(100, 100, 100, 50)
    ensures SizesDiffer(100, 100, 100, 50)
    ensures forall src, help :: |help| == 100 * 50 * 3 ==> !Fits(src, help, 100, 100)
  {
  }

  /**
   * The written check also lets a 100 x 50 source through with a 100 x 100
   * help image, which the intended check rejects: the pass then reads help at
   * the source's plane offsets, so help's green and blue planes are misaligned.
   */
  lemma GuardAsWrittenAdmitsMisalignedHelp()
    ensures !GuardAsWrittenRejects(100, 50, 100, 100)
    ensures SizesDiffer(100, 50, 100, 100)
    ensures 100 * 50 != 100 * 100
  {
  }

  /**
   * Images the intended check accepts are large enough: with three or more
   * channels each, source, help and destination hold the three colour planes
   * of the source size.
   */
  lemma AcceptedImagesFit(width: nat, height: nat, srcSpectrum: nat,
                          helpWidth: nat, helpHeight: nat, helpSpectrum: nat)
    requires !SizesDiffer(width, height, helpWidth, helpHeight)
    requires 3 <= srcSpectrum && 3 <= helpSpectrum
    ensures 3 * (width * height) <= width * height * srcSpectrum
    ensures 3 * (width * height) <= helpWidth * helpHeight * helpSpectrum
  {
    MulLeftMono(3, srcSpectrum, width * height);
    MulLeftMono(3, helpSpectrum, width * height);
  }

  /**
   * One repetition: the workers 0 .. NumThreads-1 each blend their band of
   * RowsPerThread(height) rows. Afterwards the destination is one pass over
   * its old contents.
   */
  method BlendPass(source: array<int>, help: array<int>, dest: array<int>, width: nat, height: nat)
    requires dest != source && dest != help
    requires Fits(source[..], help[..], width, height)
    requires 3 * (width * height) <= dest.Length
    modifies dest
    ensures dest[..] == Pass(old(dest[..]), source[..], help[..], width, height)
  {
    var rowsPerThread := RowsPerThread(height);
    var params := new ThreadParams[NumThreads](_ => ThreadParams(source, help, dest, width, height, 0, 0));
    for k := 0 to NumThreads
      invariant k * rowsPerThread <= height
      invariant dest[..] == Bands(old(dest[..]), source[..], help[..], width, height, rowsPerThread, k)
    {
      MulLeftMono(k + 1, NumThreads, rowsPerThread);
      assert k * rowsPerThread + rowsPerThread == (k + 1) * rowsPerThread;
      params[k] := ThreadParams(source, help, dest, width, height, k * rowsPerThread, rowsPerThread);
      ThreadTask(params[k]);
    }
  }

  /**
   * The processing of `main` after loading: reject images of different sizes,
   * otherwise allocate the destination (holding whatever `garbage` the
   * allocator leaves in it) and run the pass Repetitions times. The result is
   * what a single pass leaves.
   */
  method BlendImages(src: Image, help: Image, garbage: seq<int>) returns (result: Result<array<int>>)
    requires WellFormed(src) && WellFormed(help)
    requires 3 <= src.spectrum && 3 <= help.spectrum
    requires |garbage| == src.width * src.height * src.spectrum
    ensures result.Err? <==> SizesDiffer(src.width, src.height, help.width, help.height)
    ensures result.Ok? ==> fresh(result.value) && result.value.Length == |garbage|
    ensures result.Ok? ==> Fits(src.data[..], help.data[..], src.width, src.height)
    ensures result.Ok? ==>
      result.value[..] == Pass(garbage, src.data[..], help.data[..], src.width, src.height)
  {
    if SizesDiffer(src.width, src.height, help.width, help.height) {
      return Err(SizeMismatch);
    }
    var width, height, nComp := src.width, src.height, src.spectrum;
    AcceptedImagesFit(width, height, nComp, help.width, help.height, help.spectrum);
    var dest := new int[width * height * nComp](j requires 0 <= j < |garbage| => garbage[j]);
    assert dest[..] == garbage;
    for i := 0 to Repetitions
      invariant dest[..] == Repeat(garbage, src.data[..], help.data[..], width, height, i)
    {
      BlendPass(src.data, help.data, dest, width, height);
    }
    RepeatIsOnePass(garbage, src.data[..], help.data[..], width, height, Repetitions);
    return Ok(dest);
  }
}
