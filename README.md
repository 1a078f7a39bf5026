# Blacken blend benchmark: a Dafny model

The program blends a source photograph with a help (background) image using
the "blacken" compositing mode. Both images are decoded into planar buffers:
first the whole red plane, then green, then blue, then alpha if there is one.
Each plane holds width × height samples. For every pixel and each of the three
colour channels the program computes

    255 - 256 * (255 - help) / (source + 1)

stores it into an `int` and trims it to [0, 255]. It writes the result into a
freshly allocated destination buffer at the same offset. The rows are split
into bands of `height / 8` rows, one band per worker thread. The whole pass is
repeated 17 times so that the run takes long enough to be timed.

The model has these modules:

- `Kernel` (kernel.dfy) is the per-channel blend. `BlackenRaw` is the value
  assigned to `red`, `green` or `blue`. `Clamp` is the `max(min(v, 255), 0)`
  trim. `Blacken` is the two together.
- `Partition` (partition.dfy) holds the thread count, the repetition count,
  `rowsPerThread`, and the band of rows each worker is given.
- `Planar` (planar.dfy) holds value-level definitions over sequences.
  `BandUpdate` is what one worker leaves in the destination, `Bands` is the
  result after the first k workers, `Pass` is one repetition and `Repeat` is
  several. Its lemmas state what a pass writes and what it leaves alone.
- `Worker` (worker.dfy) holds `ThreadTask`, the worker itself. It is a loop
  over `array<int>` buffers that writes the destination in place. It is
  proved equal to `BandUpdate`.
- `Driver` (driver.dfy) holds the processing part of `main`: the size check,
  the allocation of the destination, the repetition loop (`BlendImages`) and
  one repetition that runs every worker (`BlendPass`).
- `Arith` (arith.dfy) holds two arithmetic helper lemmas.

Threads are modelled as a sequential loop over the workers. This is sound for
two reasons. First, the bands are pairwise disjoint: no row belongs to two
workers (`Partition.BandsDisjoint`), and no buffer index is written by two
workers (`Planar.WorkersWriteDisjointIndices`). Second, two workers leave the
same destination whichever runs first (`Planar.BandUpdatesCommute`). The
second fact alone already makes the order of the workers irrelevant.

## How the code differs from its usual description

The usual description of the formula is
`clamp(255 - (256*(255-h)) / (s+1))`, with integer division. The code does
not compute that. At main.cpp:59-61 the samples are `float`s, so the quotient
and the subtraction are done in floating point. The result is truncated
toward zero only when it is assigned to `int red`. The model follows the code.
`BlackenRaw` is the exact quotient `(255*(s+1) - 256*(255-h)) / (s+1)`,
truncated toward zero (`TruncDiv`).

The two readings differ:

- `Kernel.IntegerReadingOffByOne` proves they agree exactly when
  `256*(255-h)` is a multiple of `s+1`, or when the output is trimmed to 0.
  In every other case the code gives one less.
- `Kernel.IntegerReadingDiffers` shows the case `s = 2, h = 254`. The code
  gives 169. The integer reading gives 170.
- The four fixed points of the kernel (`Kernel.CornerOutputs`) are the same
  under the integer reading (`Kernel.IntegerReadingCorners`). A white help
  sample gives 255 under both readings, for every source sample
  (`Kernel.WhiteHelpGivesWhite`, `Kernel.IntegerReadingWhiteHelp`).

Rows that do not fit in the bands follow the code: `height % 8` rows are
never written. The destination keeps whatever the allocator left there.
`Partition.RemainderRowsUnassigned` and `Planar.PassLeavesRestUnchanged`
prove this.

## Model

| member | source | states |
|---|---|---|
| Kernel.TruncDiv | main.cpp:59-61 | converting the quotient to `int` truncates toward zero: a non-negative quotient is rounded down, a negative one up, by less than one unit |
| Kernel.Clamp | main.cpp:64-66 | the trim always yields a value in [0, 255]; it keeps values already in range, maps negatives to 0 and values above 255 to 255 |
| Kernel.BlackenRaw | main.cpp:59-61 | the value assigned to `red`, `green` or `blue` before trimming is never above 255, and it is 255 exactly when the help sample is 255 |
| Kernel.Blacken | main.cpp:59-66 | every value the kernel stores for a channel lies in [0, 255] |
| Kernel.BlackenMeaning | main.cpp:59-66 | the stored value is the greatest channel value not above 255 - 256(255-h)/(s+1), or 0 when that quantity is below 1 (stated without division) |
| Kernel.BlackenValueUnique | main.cpp:59-66 | that division-free description admits exactly one value, so it pins the kernel down completely |
| Kernel.WhiteHelpGivesWhite | main.cpp:59-66 | a help sample of 255 gives 255 whatever the source sample |
| Kernel.BlackenMonotoneInHelp | main.cpp:59-66 | a lighter help sample never gives a darker output |
| Kernel.BlackenMonotoneInSource | main.cpp:59-66 | a lighter source sample never gives a darker output |
| Kernel.TruncAfterSubtraction | main.cpp:59-61 | truncating 255 - x/y after the subtraction equals 255 - floor(x/y), minus one exactly when x/y is not whole and 255 - x/y is positive |
| Kernel.IntegerReadingOffByOne | main.cpp:59-66 | the kernel equals the integer-division reading exactly when 256(255-h) is a multiple of s+1 or the output is trimmed to 0; otherwise it is one less |
| Kernel.IntegerReadingDiffers | main.cpp:59-66 | for source 2 and help 254 the kernel gives 169 where the integer-division reading gives 170 |
| Kernel.CornerOutputs | main.cpp:59-66 | (0,0) gives 0, (255,255) gives 255, (0,255) gives 255 and (255,0) gives 0 |
| Kernel.IntegerReadingWhiteHelp | main.cpp:59-66 | under the integer-division reading, a help sample of 255 also gives 255 whatever the source sample |
| Kernel.IntegerReadingCorners | main.cpp:59-66 | the integer-division reading gives the same four corner values as the kernel: 0, 255, 255 and 0 |
| Partition.RowsPerThread | main.cpp:138 | the 8 bands of `height / 8` rows fit in the image and leave fewer than 8 rows over |
| Partition.InBand | main.cpp:148-149 | a row inside worker k's band [k·rows, k·rows + rows) implies a non-empty band, and the worker owning that row is row / rows |
| Partition.BandsDisjoint | main.cpp:148-149 | no row lies in the bands of two different workers |
| Partition.PrefixRowInBand | main.cpp:148-149 | a row below n·rows lies in the band of worker row / rows, and that worker exists |
| Partition.BandsCoverPrefix | main.cpp:138-149 | a row lies in some band of workers 0..n-1 if and only if it lies in [0, n·rows) |
| Partition.RemainderRowsUnassigned | main.cpp:138-149 | rows from 8·(height/8) up to height belong to no worker |
| Partition.EvenHeightFullyCovered | main.cpp:138-149 | when 8 divides the height, every row of the image belongs to some worker |
| Partition.SeventeenRows | main.cpp:138-149 | a 17-row image gets bands of 2 rows, and row 16 belongs to no worker |
| Planar.BandInBuffer | main.cpp:31-53 | every index a worker of rows [lo, hi) touches, with hi ≤ height, lies inside the three colour planes |
| Planar.BandUpdate | main.cpp:53-72 | the worker of rows [lo, hi) keeps the buffer length, stores an 8-bit sample at every index of its band, and leaves everything past the third plane unchanged |
| Planar.Bands | main.cpp:142-151 | after the first k workers the buffer keeps its length and nothing past the third plane has changed |
| Planar.Pass | main.cpp:137-156 | one pass keeps the buffer length and leaves everything past the third plane, such as alpha, unchanged |
| Planar.Repeat | main.cpp:136-157 | any number of passes keeps the buffer length and leaves everything past the third plane unchanged |
| Planar.WorkersWriteDisjointIndices | main.cpp:31-53 | two different workers with bands inside the image never touch the same index of a buffer, in any of the three colour planes |
| Planar.BandUpdateIdempotent | main.cpp:53-72 | running a worker a second time over its own output changes nothing |
| Planar.BandUpdatesCommute | main.cpp:142-156 | two workers leave the same destination whichever runs first |
| Planar.AdjacentBandsMerge | main.cpp:142-151 | the workers of rows [lo, mid) and [mid, hi), one after the other, write exactly what one worker of rows [lo, hi) writes |
| Planar.BandsCollapse | main.cpp:142-156 | the first k workers together write exactly the rows [0, k·rows) of each colour plane |
| Planar.PassEffect | main.cpp:136-157 | after a pass, each index in rows [0, 8·(height/8)) of the three colour planes holds the blend of source and help at that index; every other index keeps its value |
| Planar.PassLeavesRestUnchanged | main.cpp:37-50 | a pass does not change the remainder rows of any colour plane, or anything past the third plane, such as alpha |
| Planar.PassWritesSamples | main.cpp:64-72 | every value a pass writes lies in [0, 255] |
| Planar.PassIdempotent | main.cpp:136-157 | a second pass over the output of the first changes nothing |
| Planar.RepeatIsOnePass | main.cpp:136-157 | any positive number of passes, 17 among them, leaves the same destination as one pass |
| Worker.BandOffsets | main.cpp:31-53 | the band's end offset startRow·width + width·numRows stays within one plane |
| Worker.ThreadTask | main.cpp:29-76 | the worker leaves the old destination with the band's rows of the red, green and blue planes replaced by the blend; source and help are unchanged |
| Driver.GuardAsWrittenRejects | main.cpp:104 | every pair of sizes the written check rejects differs, but any pair that agrees in width or in height gets through |
| Driver.SizesDiffer | main.cpp:103-104 | the intended check lets through only images whose planes have the same length |
| Driver.GuardAsWrittenAdmitsShortHelp | main.cpp:104 | the written check lets a 100×100 source through with a 100×50 help image, which the intended check rejects; no help buffer of that image's three planes holds the three planes a pass reads |
| Driver.GuardAsWrittenAdmitsMisalignedHelp | main.cpp:104 | the written check lets a 100×50 source through with a 100×100 help image, which the intended check rejects; the two images' planes differ in length |
| Driver.AcceptedImagesFit | main.cpp:104-121 | when the intended check accepts two images of three or more channels, source, help and destination each hold the three colour planes that a pass touches |
| Driver.BlendPass | main.cpp:137-156 | one repetition, with workers 0..7 given bands of `height / 8` rows, leaves the destination equal to one pass over its old contents |
| Driver.BlendImages | main.cpp:104-157 | images of different width or height are rejected; otherwise a fresh destination of the source's size is returned, holding exactly what one pass over the freshly allocated contents leaves |

## Findings

| source | as written | input that shows it | evidently intended | confidence | as-written member | corrected member |
|---|---|---|---|---|---|---|
| main.cpp:104 | the program aborts only when the widths differ AND the heights differ | a 100×100 source with a 100×50 help image passes the check, and the pass then reads help samples past the 15000-sample help buffer | abort when the widths OR the heights differ, as the comment at line 103 says | high (not executed) | Driver.GuardAsWrittenAdmitsShortHelp | Driver.AcceptedImagesFit |
| main.cpp:104 | the program aborts only when the widths differ AND the heights differ | a 100×50 source with a 100×100 help image passes the check; the output is defined, but the pass reads help at the source's plane offsets, so its green and blue samples come from the wrong places in help | abort when the widths OR the heights differ, so that both images have planes of the same length | high (not executed) | Driver.GuardAsWrittenAdmitsMisalignedHelp | Driver.SizesDiffer |

`Driver.BlendImages` uses the intended check (`SizesDiffer`) and returns an
error for both inputs above. The written check is `GuardAsWrittenRejects`.

## Left out

- Threads: `pthread_create` and `pthread_join` and the per-repetition thread
  lifecycle (main.cpp:137, 150, 155). The workers of a pass run one after
  another. The justification is `Partition.BandsDisjoint` and
  `Planar.BandUpdatesCommute`.
- Image decoding, saving and display (main.cpp:91-92, 171-174) use the CImg
  library, which is not part of this model. A decoded image is an `Image`
  value with its size, channel count and planar samples.
- The file-existence checks (main.cpp:82-88) are I/O and are not modelled.
- Timing with `clock_gettime` and the printed elapsed time (main.cpp:130-133,
  160-169) are wall-clock I/O and are not modelled.
- Allocation failure (main.cpp:122-125) and `free` are not modelled. The
  content `malloc` leaves in the new buffer is the parameter `garbage` of
  `Driver.BlendImages`.
- Samples are `float`s in the program. The model treats them as whole
  numbers in [0, 255], as they come from 8-bit images. The float quotient is
  taken as the exact rational, and IEEE single-precision rounding is not
  modelled.
- `width * height * nComp` in `unsigned int` (main.cpp:121), and the `int`
  index arithmetic in the worker, could wrap around for huge images. The
  model uses unbounded integers.
- Driver.BlendImages: requires three or more channels in both images. For a
  one-channel (grayscale) image the program's green and blue pointers run
  past the buffers (main.cpp:38-50). That overrun is not modelled.
- Worker.ThreadTask: requires that the destination is neither the source nor
  the help buffer. The program always passes a freshly allocated destination.
