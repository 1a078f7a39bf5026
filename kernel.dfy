/**
 * The "blacken" blend kernel of the photo-compositing benchmark: for one
 * channel sample s of the source image and the sample h of the help
 * (background) image at the same offset, the program computes
 *
 *     255 - 256 * (255 - h) / (s + 1)
 *
 * in single-precision floating point, stores it into an `int` (C++ truncates
 * toward zero on that conversion) and then trims the result to [0, 255].
 *
 * Samples come from 8-bit images, so they are whole numbers in [0, 255]; the
 * quotient is modelled as the exact rational (255*(s+1) - 256*(255-h)) / (s+1),
 * truncated toward zero as the conversion to `int` does.
 */
module Kernel {

  import opened Arith

  /** An 8-bit channel value as the images hold it. */
  predicate IsSample(v: int) {
    0 <= v <= 255
  }

  /** C++'s conversion to `int` of the exact quotient a / b: truncation toward zero. */
  function TruncDiv(a: int, b: int): (q: int)
    requires b > 0
    ensures 0 <= a ==> 0 <= q && q * b <= a < q * b + b
    ensures a < 0 ==> q <= 0 && q * b - b < a <= q * b
  {
    if a >= 0 then a / b else -((-a) / b)
  }

  function Min(a: int, b: int): int {
    if a < b then a else b
  }

  function Max(a: int, b: int): int {
    if a < b then b else a
  }

  /** The trim `max(min(v, 255), 0)` applied to every channel before it is stored. */
  function Clamp(v: int): (r: int)
    ensures IsSample(r)
    ensures IsSample(v) ==> r == v
    ensures v < 0 ==> r == 0
    ensures v > 255 ==> r == 255
  {
    Max(Min(v, 255), 0)
  }

  /**
   * The value the kernel assigns to `red`, `green` or `blue` before trimming:
   * never above 255, and 255 exactly when the help sample is white.
   */
  function BlackenRaw(s: int, h: int): (raw: int)
    requires IsSample(s) && IsSample(h)
    ensures raw <= 255
    ensures raw == 255 <==> h == 255
  {
    RawBound(s + 1, 256 * (255 - h));
    TruncDiv(255 * (s + 1) - 256 * (255 - h), s + 1)
  }

  /** Subtracting a non-negative quotient from 255 stays at most 255, and reaches it only for 0. */
  lemma RawBound(y: int, x: int)
    requires 0 < y && 0 <= x
    ensures TruncDiv(255 * y - x, y) <= 255
    ensures TruncDiv(255 * y - x, y) == 255 <==> x == 0
  {
    var q := TruncDiv(255 * y - x, y);
    if q >= 255 {
      MulLeftMono(255, q, y);
    }
    if x == 0 {
      DivUnique(255 * y, y, 255);
    }
  }

  /** The channel value the kernel stores for source sample s and help sample h. */
  function Blacken(s: int, h: int): (r: int)
    requires IsSample(s) && IsSample(h)
    ensures IsSample(r)
  {
    Clamp(BlackenRaw(s, h))
  }

  /**
   * What the formula means, stated without division: r is the greatest
   * channel value that is not above 255 - 256*(255-h)/(s+1), and 0 when that
   * quantity is below 1.
   */
  ghost predicate IsBlackenValue(s: int, h: int, r: int) {
    && IsSample(r)
    && (r == 0 || r * (s + 1) + 256 * (255 - h) <= 255 * (s + 1))
    && (r + 1) * (s + 1) + 256 * (255 - h) > 255 * (s + 1)
  }

  /** The kernel computes exactly the value the formula denotes. */
  lemma BlackenMeaning(s: int, h: int)
    requires IsSample(s) && IsSample(h)
    ensures IsBlackenValue(s, h, Blacken(s, h))
  {
    var y, x := s + 1, 256 * (255 - h);
    var raw := BlackenRaw(s, h);
    if 255 * y - x >= 0 {
      assert raw * y <= 255 * y - x < raw * y + y;
      if raw > 255 {
        MulLeftMono(256, raw, y);
        assert false;
      }
      assert Blacken(s, h) == raw;
    } else {
      assert Blacken(s, h) == 0;
    }
  }

  /** The description above pins the value down: at most one r meets it. */
  lemma BlackenValueUnique(s: int, h: int, r1: int, r2: int)
    requires IsSample(s) && IsSample(h)
    requires IsBlackenValue(s, h, r1) && IsBlackenValue(s, h, r2)
    ensures r1 == r2
  {
    var y, x := s + 1, 256 * (255 - h);
    if r1 < r2 {
      MulLeftMono(r1 + 1, r2, y);
    } else if r2 < r1 {
      MulLeftMono(r2 + 1, r1, y);
    }
  }

  /** A white help sample lets every source sample through as white. */
  lemma WhiteHelpGivesWhite(s: int)
    requires IsSample(s)
    ensures Blacken(s, 255) == 255
  {
    BlackenMeaning(s, 255);
    BlackenValueUnique(s, 255, Blacken(s, 255), 255);
  }

  /** A lighter help sample never gives a darker output. */
  lemma BlackenMonotoneInHelp(s: int, h1: int, h2: int)
    requires IsSample(s) && IsSample(h1) && IsSample(h2) && h1 <= h2
    ensures Blacken(s, h1) <= Blacken(s, h2)
  {
    var y := s + 1;
    var r1, r2 := Blacken(s, h1), Blacken(s, h2);
    BlackenMeaning(s, h1);
    BlackenMeaning(s, h2);
    if r1 > r2 {
      MulLeftMono(r2 + 1, r1, y);
      assert false;
    }
  }

  /**
   * Division-free core of the source monotonicity: a quantity 255 - x/y grows
   * with y, so a value below it for y1 stays below it for any y2 >= y1.
   */
  lemma BelowQuantityGrows(x: int, y1: int, y2: int, r1: int, r2: int)
    requires 0 <= x && 0 < y1 <= y2 && r1 <= 255
    requires r1 * y1 + x <= 255 * y1
    requires (r2 + 1) * y2 + x > 255 * y2
    ensures r1 <= r2
  {
    assert x <= (255 - r1) * y1;
    MulLeftMono(y1, y2, 255 - r1);
    if r1 > r2 {
      MulLeftMono(255 - r1, 254 - r2, y2);
    }
  }

  /** A lighter source sample never gives a darker output. */
  lemma BlackenMonotoneInSource(s1: int, s2: int, h: int)
    requires IsSample(s1) && IsSample(s2) && IsSample(h) && s1 <= s2
    ensures Blacken(s1, h) <= Blacken(s2, h)
  {
    var r1, r2 := Blacken(s1, h), Blacken(s2, h);
    BlackenMeaning(s1, h);
    BlackenMeaning(s2, h);
    if r1 != 0 {
      BelowQuantityGrows(256 * (255 - h), s1 + 1, s2 + 1, r1, r2);
    }
  }

  /**
   * The reading `255 - (256*(255-h)) / (s+1)` with integer division, i.e.
   * the quotient truncated before the subtraction rather than after it.
   */
  function IntegerReading(s: int, h: int): int
    requires IsSample(s) && IsSample(h)
  {
    Clamp(255 - (256 * (255 - h)) / (s + 1))
  }

  /**
   * Truncating 255 - x/y after the subtraction loses one more unit than
   * truncating the quotient first, exactly when the quotient is not whole and
   * the difference is still positive.
   */
  lemma TruncAfterSubtraction(x: int, y: int)
    requires 0 <= x && 0 < y
    ensures TruncDiv(255 * y - x, y) ==
            255 - x / y - (if x % y != 0 && x < 255 * y then 1 else 0)
  {
    var q, m := x / y, x % y;
    assert x == q * y + m && 0 <= m < y;
    if 255 * y - x >= 0 {
      var k := 255 - q - (if m != 0 then 1 else 0);
      var rest := if m == 0 then 0 else y - m;
      assert 255 * y - x == k * y + rest by {
        assert k * y == 255 * y - q * y - (if m != 0 then y else 0);
      }
      DivUnique(255 * y - x, y, k);
      assert (m != 0 && x < 255 * y) == (m != 0);
    } else {
      assert x - 255 * y == (q - 255) * y + m by {
        assert (q - 255) * y == q * y - 255 * y;
      }
      DivUnique(x - 255 * y, y, q - 255);
    }
  }

  /**
   * The kernel agrees with the integer-division reading exactly when the
   * quotient is whole or the output is trimmed to 0; otherwise it is one less.
   */
  lemma IntegerReadingOffByOne(s: int, h: int)
    requires IsSample(s) && IsSample(h)
    ensures Blacken(s, h) == IntegerReading(s, h) <==>
            (256 * (255 - h)) % (s + 1) == 0 || 256 * (255 - h) > 255 * (s + 1)
    ensures Blacken(s, h) == IntegerReading(s, h) || Blacken(s, h) == IntegerReading(s, h) - 1
  {
    var y, x := s + 1, 256 * (255 - h);
    var q, m := x / y, x % y;
    TruncAfterSubtraction(x, y);
    var drop := if m != 0 && x < 255 * y then 1 else 0;
    assert BlackenRaw(s, h) == (255 - q) - drop;
    assert Blacken(s, h) == Clamp((255 - q) - drop) && IntegerReading(s, h) == Clamp(255 - q);
    ClampStep(255 - q, drop);
  }

  /** Trimming v - d, for d of 0 or 1, gives the trim of v or one less. */
  lemma ClampStep(v: int, d: int)
    requires d == 0 || d == 1
    ensures Clamp(v - d) == Clamp(v) <==> d == 0 || v <= 0 || v > 255
    ensures Clamp(v - d) == Clamp(v) || Clamp(v - d) == Clamp(v) - 1
  {
  }

  /** The reading differs in practice: source 2, help 254. */
  lemma IntegerReadingDiffers()
    ensures Blacken(2, 254) == 169 && IntegerReading(2, 254) == 170
  {
    assert IsBlackenValue(2, 254, 169);
    BlackenMeaning(2, 254);
    BlackenValueUnique(2, 254, Blacken(2, 254), 169);
    assert 256 / 3 == 85;
  }

  /** The four fixed points of the blend that define its visual contract. */
  lemma CornerOutputs()
    ensures Blacken(0, 0) == 0
    ensures Blacken(255, 255) == 255
    ensures Blacken(0, 255) == 255
    ensures Blacken(255, 0) == 0
  {
    BlackCorners();
  }

  /** A black help sample gives black for the darkest and the lightest source. */
  lemma BlackCorners()
    ensures Blacken(0, 0) == 0 && Blacken(255, 0) == 0
  {
    BlackenMeaning(0, 0);
    BlackenValueUnique(0, 0, Blacken(0, 0), 0);
    BlackenMeaning(255, 0);
    BlackenValueUnique(255, 0, Blacken(255, 0), 0);
  }

  /** The integer-division reading has the same four fixed points as the kernel. */
  lemma IntegerReadingCorners()
    ensures IntegerReading(0, 0) == 0 && IntegerReading(255, 0) == 0
    ensures IntegerReading(255, 255) == 255 && IntegerReading(0, 255) == 255
  {
    DivUnique(65280, 256, 255);
    assert IntegerReading(255, 0) == Clamp(255 - 65280 / 256);
    DivUnique(65280, 1, 65280);
    assert IntegerReading(0, 0) == Clamp(255 - 65280 / 1);
    IntegerReadingWhiteHelp(255);
    IntegerReadingWhiteHelp(0);
  }

  /** Under the integer-division reading too, a white help sample gives white. */
  lemma IntegerReadingWhiteHelp(s: int)
    requires IsSample(s)
    ensures IntegerReading(s, 255) == 255
  {
    assert 256 * (255 - 255) == 0;
    DivUnique(0, s + 1, 0);
  }
}
