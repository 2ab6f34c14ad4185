/** Stochastic rounding of IEEE 754 binary32 encodings: `fixedpoint.h`.

    Bit operations on unsigned 32-bit words are written as arithmetic: a mask of low bits is a remainder, a
    shift a multiplication or a division, and every result wraps at 2^32. */
module StochasticRounding {
  import opened Arithmetic

  const TWO_23 := 0x80_0000
  const TWO_31 := 0x8000_0000
  const TWO_32 := 0x1_0000_0000

  function Pow2(n: nat): (r: nat)
    ensures r > 0
  {
    if n == 0 then 1 else 2 * Pow2(n - 1)
  }

  lemma {:induction false} Pow2Adds(a: nat, b: nat)
    ensures Pow2(a + b) == Pow2(a) * Pow2(b)
  {
    if a > 0 {
      Pow2Adds(a - 1, b);
      assert Pow2(a) == 2 * Pow2(a - 1) && Pow2(a + b) == 2 * Pow2(a - 1 + b);
      hide Pow2;
      Reassociates(2, Pow2(a - 1), Pow2(b));
    }
  }

  lemma {:induction false} Pow2Grows(a: nat, b: nat)
    requires a <= b
    ensures Pow2(a) <= Pow2(b)
  {
    if a < b {
      Pow2Grows(a, b - 1);
    }
  }

  lemma Pow2Values()
    ensures Pow2(8) == 0x100 && Pow2(24) == 2 * TWO_23 && Pow2(31) == TWO_31 && Pow2(32) == TWO_32
  {
    assert Pow2(8) == 0x100;
    Pow2Adds(8, 8);
    Pow2Adds(16, 8);
    Pow2Adds(24, 7);
    Pow2Adds(31, 1);
  }

  // ----- the encoding: section 3.4 of IEEE 754-2008 -----

  type Word = x: int | 0 <= x < TWO_32

  predicate Negative(raw: Word) { raw >= TWO_31 }

  function Exponent(raw: Word): nat { raw % TWO_31 / TWO_23 }

  /** The significand of a normal number, with its leading one. */
  function Mantissa(raw: Word): nat { TWO_23 + raw % TWO_31 % TWO_23 }

  /** The number has a leading one: it is no zero and not subnormal. Infinities and NaN have the exponent 255. */
  predicate Leading(raw: Word) { Exponent(raw) >= 1 }

  const INFINITE_EXPONENT := 255

  function Unit(): (r: nat)
    ensures r > 0
  {
    Pow2(150)
  }

  /** The absolute value of a number with a leading one is this over `Unit()`, 2^150. */
  function Numerator(raw: Word): nat { Mantissa(raw) * Pow2(Exponent(raw)) }

  /** The absolute value rounded down. */
  function WholePart(raw: Word): nat {
    QuotientIsLess(Numerator(raw), Unit());
    Numerator(raw) / Unit()
  }

  predicate IsWhole(raw: Word) { Numerator(raw) % Unit() == 0 }

  /** The product of the absolute value and 2 to the precision, rounded down. */
  function ScaledFloor(raw: Word, precision: nat): nat {
    QuotientIsLess(Numerator(raw) * Pow2(precision), Unit());
    Numerator(raw) * Pow2(precision) / Unit()
  }

  /** The product of the absolute value and 2 to the precision is below 2^32. */
  predicate Representable(raw: Word, precision: nat) { Numerator(raw) * Pow2(precision) < TWO_32 * Unit() }

  // ----- the code -----

  function ScaledFixedValue(mantissa: Word, bitShift: int): Word {
    if bitShift >= 0 then
      if bitShift < 32 then
        QuotientIsLess(mantissa, Pow2(bitShift));
        mantissa / Pow2(bitShift)
      else 0
    else if bitShift > -32 then mantissa * Pow2(-bitShift) % TWO_32
    else 0
  }

  /** The magnitude rounded up or down by the noise. */
  function RoundedMagnitude(scaled: Word, noise: Word, precision: nat): Word {
    var d := Pow2(precision);
    (scaled / d + (scaled % d + noise % d) % TWO_32 / d) % TWO_32
  }

  /** Reads a word as a signed number of `bits` bits. */
  function AsSigned(x: int, bits: nat): int
    requires bits > 0
  {
    var low := x % Pow2(bits);
    if low < Pow2(bits - 1) then low else low - Pow2(bits)
  }

  /** Adding the mask of the sign and flipping with it negates in two's complement. */
  function WithSign(magnitude: Word, negative: bool): int {
    AsSigned(if negative then TWO_32 - 1 - (magnitude + TWO_32 - 1) % TWO_32 else magnitude, 32)
  }

  datatype Rounding = Rounding(value: int, isZero: bool)

  function ProcessSingle(raw: Word, noise: Word, precision: nat, outBits: nat): Rounding
    requires outBits > 0
  {
    var bitShift := 150 - precision - Exponent(raw);
    var scaled := ScaledFixedValue(Mantissa(raw), bitShift);
    var rounded := WithSign(RoundedMagnitude(scaled, noise, precision), Negative(raw));
    Rounding(AsSigned(rounded, outBits), Exponent(raw) == 0)
  }

  // ----- what the code computes -----

  lemma NumeratorScaled(raw: Word, precision: nat)
    ensures Numerator(raw) * Pow2(precision) == Mantissa(raw) * Pow2(Exponent(raw) + precision)
  {
    Pow2Adds(Exponent(raw), precision);
    hide Pow2;
    Reassociates(Mantissa(raw), Pow2(Exponent(raw)), Pow2(precision));
  }

  /** A right shift rounds down. */
  lemma ShiftedRight(m: Word, k: nat, shift: nat)
    ensures Pow2(k) > 0 && ScaledFixedValue(m, shift) == m * Pow2(k) / Pow2(shift + k)
  {
    Pow2Adds(shift, k);
    Pow2Values();
    if shift >= 32 {
      Pow2Grows(32, shift);
    }
    hide Pow2;
    CommonFactorCancels(m, Pow2(shift), Pow2(k));
    if shift >= 32 {
      SmallOverLarge(m, Pow2(shift));
    }
  }

  /** A left shift is exact while nothing is shifted out. */
  lemma ShiftedLeft(m: Word, k: nat, shift: nat)
    requires 0 < m && 0 < shift && m * Pow2(k + shift) < TWO_32 * Pow2(k)
    ensures ScaledFixedValue(m, 0 - shift) == m * Pow2(k + shift) / Pow2(k)
  {
    hide Pow2;
    Pow2Adds(shift, k);
    Pow2Values();
    if shift >= 32 {
      Pow2Grows(32, shift);
    }
    var a, c := Pow2(shift), Pow2(k);
    assert Pow2(k + shift) == a * c;
    Reassociates(m, a, c);
    MultipleHasNoRest(m * a, c);
    if m * a >= TWO_32 {
      ProductGrows(TWO_32, m * a, c);
    }
    if shift >= 32 {
      ProductGrows(1, m, a);
    }
    SmallOverLarge(m * a, TWO_32);
  }

  /** The scaled value is the product of the absolute value and 2 to the precision, rounded down. */
  lemma ScaledIsFloor(raw: Word, precision: nat)
    requires Leading(raw) && precision <= 31 && Representable(raw, precision)
    ensures ScaledFixedValue(Mantissa(raw), 150 - precision - Exponent(raw)) == ScaledFloor(raw, precision)
  {
    NumeratorScaled(raw, precision);
    var k := Exponent(raw) + precision;
    hide Pow2;
    hide ScaledFixedValue;
    hide Numerator;
    assert Unit() == Pow2(150);
    if k <= 150 {
      ShiftedRight(Mantissa(raw), k, 150 - k);
    } else {
      ShiftedLeft(Mantissa(raw), 150, k - 150);
    }
  }

  lemma CarryOf(sum: nat, d: int)
    requires d > 0 && sum < 2 * d
    ensures sum / d == if sum >= d then 1 else 0
  {
    DivisionIsUnique(sum, d, if sum >= d then 1 else 0, if sum >= d then sum - d else sum);
  }

  lemma NoOverflow(scaled: Word, d: nat)
    requires d > 0
    ensures scaled / d + (if scaled % d > 0 then 1 else 0) < TWO_32
  {
    QuotientIsLess(scaled, d);
    assert scaled == d * (scaled / d) + scaled % d;
    ProductGrows(1, d, scaled / d);
  }

  lemma CarryOfSum(scaled: Word, noise: Word, d: nat)
    requires 0 < d <= TWO_31
    ensures (scaled / d + (scaled % d + noise % d) % TWO_32 / d) % TWO_32 ==
      scaled / d + if scaled % d + noise % d >= d then 1 else 0
  {
    var f, r := scaled % d, noise % d;
    SmallOverLarge(f + r, TWO_32);
    CarryOf(f + r, d);
    NoOverflow(scaled, d);
    var whole, carry := scaled / d, if f + r >= d then 1 else 0;
    QuotientIsLess(scaled, d);
    SmallOverLarge(whole + carry, TWO_32);
  }

  /** The carry of fraction and noise is at most one. */
  lemma CarryOfNoise(scaled: Word, noise: Word, precision: nat)
    requires precision <= 31
    ensures RoundedMagnitude(scaled, noise, precision) ==
      scaled / Pow2(precision) + if scaled % Pow2(precision) + noise % Pow2(precision) >= Pow2(precision) then 1 else 0
  {
    hide Pow2;
    Pow2Values();
    Pow2Grows(precision, 31);
    CarryOfSum(scaled, noise, Pow2(precision));
  }

  /** Dropping the fraction bits of the scaled value leaves the whole part. */
  lemma WholePartOfScaled(raw: Word, precision: nat)
    ensures ScaledFloor(raw, precision) / Pow2(precision) == WholePart(raw)
    ensures IsWhole(raw) ==> ScaledFloor(raw, precision) == WholePart(raw) * Pow2(precision)
  {
    var n, d, e := Numerator(raw), Pow2(precision), Unit();
    hide Pow2;
    hide Unit;
    hide Numerator;
    DividesTwice(n * d, e, d);
    CommonFactorCancels(n, e, d);
    if IsWhole(raw) {
      assert n == e * (n / e);
      assert n * d == n / e * d * e by {
        Reassociates(e, n / e, d);
      }
      MultipleHasNoRest(n / e * d, e);
    }
  }

  /** The magnitude is the absolute value rounded down or up, and the absolute value itself when that is a whole
      number. */
  lemma RoundsToANeighbour(raw: Word, noise: Word, precision: nat)
    requires Leading(raw) && precision <= 31 && Representable(raw, precision)
    ensures var m := RoundedMagnitude(ScaledFixedValue(Mantissa(raw), 150 - precision - Exponent(raw)), noise,
      precision);
      WholePart(raw) <= m <= WholePart(raw) + 1 && (IsWhole(raw) ==> m == WholePart(raw))
  {
    ScaledIsFloor(raw, precision);
    WholePartOfScaled(raw, precision);
    var scaled, d := ScaledFixedValue(Mantissa(raw), 150 - precision - Exponent(raw)), Pow2(precision);
    hide Pow2;
    hide ScaledFloor;
    hide ScaledFixedValue;
    hide WholePart;
    hide IsWhole;
    CarryOfNoise(scaled, noise, precision);
    hide RoundedMagnitude;
    if IsWhole(raw) {
      MultipleHasNoRest(WholePart(raw), d);
      QuotientAndRest(noise, d);
    }
  }

  /** The magnitude is the absolute value rounded down or up. */
  predicate IsNeighbour(raw: Word, noise: Word, precision: nat) {
    var m := RoundedMagnitude(ScaledFixedValue(Mantissa(raw), 150 - precision - Exponent(raw)), noise, precision);
    WholePart(raw) <= m <= WholePart(raw) + 1
  }

  /** Rounding gives a neighbour for all noise values exactly if the scaled number is below 2^32. */
  lemma NeighbourIffRepresentable(raw: Word, precision: nat)
    requires Leading(raw) && precision <= 31
    ensures Representable(raw, precision) <==> forall noise: Word :: IsNeighbour(raw, noise, precision)
  {
    if Representable(raw, precision) {
      forall noise: Word
        ensures IsNeighbour(raw, noise, precision)
      {
        RoundsToANeighbour(raw, noise, precision);
      }
    } else {
      var scaled := ScaledFixedValue(Mantissa(raw), 150 - precision - Exponent(raw));
      hide ScaledFixedValue;
      TooLargeToRound(raw, scaled, precision);
      assert !IsNeighbour(raw, 0, precision);
    }
  }

  /** Without noise the magnitude of a number that is too large is below its whole part. */
  lemma TooLargeToRound(raw: Word, scaled: Word, precision: nat)
    requires precision <= 31 && !Representable(raw, precision)
    ensures RoundedMagnitude(scaled, 0, precision) < WholePart(raw)
  {
    var n, d, q, e := Numerator(raw), Pow2(precision), Pow2(32 - precision), Unit();
    Pow2Adds(precision, 32 - precision);
    Pow2Values();
    assert d * q == TWO_32;
    hide Pow2;
    CarryOfNoise(scaled, 0, precision);
    hide RoundedMagnitude;
    SmallOverLarge(0, d);
    QuotientAndRest(scaled, d);
    if scaled / d >= q {
      ProductGrows(q, scaled / d, d);
    }
    LargeQuotient(n, d, q, e);
  }

  lemma LargeQuotient(n: nat, d: int, q: nat, e: int)
    requires d > 0 && e > 0 && n * d >= d * q * e
    ensures n / e >= q
  {
    if n < q * e {
      ProductGrows(n + 1, q * e, d);
      Reassociates(d, q, e);
      Distributes(n, 1, d);
    }
    QuotientAndRest(n, e);
    if n / e < q {
      ProductGrows(n / e + 1, q, e);
      Distributes(n / e, 1, e);
    }
  }

  /** Infinities and NaN are stored as zero. */
  lemma InfinityBecomesZero(raw: Word, noise: Word, precision: nat, outBits: nat)
    requires Exponent(raw) == INFINITE_EXPONENT && precision <= 31 && outBits > 0
    ensures !Representable(raw, precision) && ProcessSingle(raw, noise, precision, outBits) == Rounding(0, false)
  {
    CarryOfNoise(0, noise, precision);
    SignIsApplied(0, Negative(raw));
    FitsIn(0, outBits);
    InfinityIsTooLarge(raw, precision);
    var d := Pow2(precision);
    hide Pow2;
    SmallOverLarge(0, d);
    QuotientAndRest(noise, d);
    hide RoundedMagnitude;
    hide WithSign;
    hide AsSigned;
  }

  lemma InfinityIsTooLarge(raw: Word, precision: nat)
    requires Exponent(raw) == INFINITE_EXPONENT
    ensures !Representable(raw, precision)
  {
    NumeratorScaled(raw, precision);
    Pow2Adds(150, 105 + precision);
    Pow2Grows(32, 105 + precision);
    Pow2Values();
    ProductOfThree(Mantissa(raw), Unit(), Pow2(105 + precision), TWO_32);
    hide Pow2;
    hide Numerator;
  }

  lemma ProductOfThree(m: nat, u: nat, x: nat, y: nat)
    requires m > 0 && x >= y
    ensures m * (u * x) >= y * u
  {
    ProductGrows(y, x, u);
    ProductGrows(1, m, u * x);
  }

  // ----- no bias -----

  /** The sum of the magnitudes over the first `n` noise values. */
  function SumOfMagnitudes(scaled: Word, precision: nat, n: nat): nat
    requires n <= TWO_32
  {
    if n == 0 then 0 else SumOfMagnitudes(scaled, precision, n - 1) + RoundedMagnitude(scaled, n - 1, precision)
  }

  lemma {:induction false} SumSoFar(scaled: Word, precision: nat, n: nat)
    requires precision <= 31 && n <= Pow2(precision) <= TWO_32
    ensures SumOfMagnitudes(scaled, precision, n) ==
      n * (scaled / Pow2(precision)) + if n + scaled % Pow2(precision) > Pow2(precision) then
          n + scaled % Pow2(precision) - Pow2(precision) else 0
  {
    hide Pow2;
    hide RoundedMagnitude;
    if n > 0 {
      SumSoFar(scaled, precision, n - 1);
      CarryOfNoise(scaled, n - 1, precision);
      var d := Pow2(precision);
      SmallOverLarge(n - 1, d);
      Distributes(n - 1, 1, scaled / d);
    }
  }

  /** Over all noise values the magnitudes add up to the scaled value: on average nothing is gained or lost. */
  lemma RoundingIsUnbiased(raw: Word, precision: nat)
    requires Leading(raw) && precision <= 31 && Representable(raw, precision)
    ensures Pow2(precision) <= TWO_32
    ensures SumOfMagnitudes(ScaledFixedValue(Mantissa(raw), 150 - precision - Exponent(raw)), precision,
      Pow2(precision)) == ScaledFloor(raw, precision)
  {
    hide Pow2;
    hide ScaledFloor;
    hide ScaledFixedValue;
    hide Representable;
    Pow2Values();
    Pow2Grows(precision, 31);
    ScaledIsFloor(raw, precision);
    var scaled, d := ScaledFixedValue(Mantissa(raw), 150 - precision - Exponent(raw)), Pow2(precision);
    SumSoFar(scaled, precision, d);
    QuotientAndRest(scaled, d);
  }

  // ----- sign and output type -----

  /** A number survives being cut to `bits` bits exactly when it is in their range. */
  lemma FitsIn(x: int, bits: nat)
    requires bits > 0
    ensures AsSigned(x, bits) == x <==> 0 - Pow2(bits - 1) <= x < Pow2(bits - 1)
  {
    var d, h := Pow2(bits), Pow2(bits - 1);
    assert d == 2 * h;
    hide Pow2;
    if 0 <= x < h {
      SmallOverLarge(x, d);
    } else if 0 - h <= x < 0 {
      DivisionIsUnique(x, d, -1, x + d);
    }
    QuotientAndRest(x, d);
  }

  lemma SignIsApplied(magnitude: Word, negative: bool)
    requires magnitude < TWO_31 || (negative && magnitude == TWO_31)
    ensures WithSign(magnitude, negative) == if negative then 0 - magnitude else magnitude
  {
    Pow2Values();
    hide Pow2;
    var word := if negative then TWO_32 - 1 - (magnitude + TWO_32 - 1) % TWO_32 else magnitude;
    if negative && magnitude > 0 {
      DivisionIsUnique(magnitude + TWO_32 - 1, TWO_32, 1, magnitude - 1);
    }
    SmallOverLarge(word, TWO_32);
  }

  /** The rounded number with its sign. */
  function Result(raw: Word, noise: Word, precision: nat): int {
    var m := RoundedMagnitude(ScaledFixedValue(Mantissa(raw), 150 - precision - Exponent(raw)), noise, precision);
    if Negative(raw) then 0 - m else m
  }

  /** A number is rounded to a neighbour with its own sign, in every output type that can hold the result. */
  lemma RoundsWithSign(raw: Word, noise: Word, precision: nat, outBits: nat)
    requires Leading(raw) && precision <= 31 && Representable(raw, precision) && 0 < outBits <= 32
    requires 0 - Pow2(outBits - 1) <= Result(raw, noise, precision) < Pow2(outBits - 1)
    ensures var r := ProcessSingle(raw, noise, precision, outBits);
      && r == Rounding(Result(raw, noise, precision), false)
      && WholePart(raw) <= (if Negative(raw) then 0 - r.value else r.value) <= WholePart(raw) + 1
      && (IsWhole(raw) ==> r.value == if Negative(raw) then 0 - WholePart(raw) else WholePart(raw))
  {
    hide Pow2;
    Pow2Values();
    Pow2Grows(outBits - 1, 31);
    RoundsToANeighbour(raw, noise, precision);
    var m := RoundedMagnitude(ScaledFixedValue(Mantissa(raw), 150 - precision - Exponent(raw)), noise, precision);
    hide RoundedMagnitude;
    hide ScaledFixedValue;
    SignIsApplied(m, Negative(raw));
    hide WithSign;
    FitsIn(Result(raw, noise, precision), outBits);
  }

  // ----- the loop over an array -----

  function Xorshift32(state: bv32): bv32 {
    var a := state ^ (state << 13);
    var b := a ^ (a >> 17);
    b ^ (b << 5)
  }

  /** The state of a generator after `k` steps. */
  function Stream(seed: bv32, k: nat): bv32 {
    if k == 0 then seed else Xorshift32(Stream(seed, k - 1))
  }

  const SEEDS: seq<bv32> := [2463534242, 4123546731, 1290384712, 3812403981]

  function AsWord(noise: bv32): Word { noise as int }

  /** The noise for index `i` of `n`: in the part that is a multiple of four, generator `i % 4` at step `i / 4 + 1`;
      behind it the first generator goes on. */
  function NoiseAt(i: nat, n: nat): bv32 {
    if i < n / 4 * 4 then Stream(SEEDS[i % 4], i / 4 + 1) else Stream(SEEDS[0], n / 4 + (i - n / 4 * 4) + 1)
  }

  /** What is stored for one number: zero for zeros and subnormals. */
  function Stored(raw: Word, noise: bv32, precision: nat, outBits: nat): int
    requires outBits > 0
  {
    var r := ProcessSingle(raw, AsWord(noise), precision, outBits);
    if r.isZero then 0 else r.value
  }

  /** Four numbers in a row, each with its own noise. */
  method RoundFour(input: seq<Word>, output: array<int>, i: nat, noises: seq<bv32>, precision: nat, outBits: nat)
    requires i + 4 <= |input| && i + 4 <= output.Length && |noises| == 4 && outBits > 0
    modifies output
    ensures forall j :: i <= j < i + 4 ==> output[j] == Stored(input[j], noises[j - i], precision, outBits)
    ensures forall j :: 0 <= j < output.Length && !(i <= j < i + 4) ==> output[j] == old(output[j])
  {
    hide Stored;
    for j := 0 to 4
      invariant forall k :: i <= k < i + j ==> output[k] == Stored(input[k], noises[k - i], precision, outBits)
      invariant forall k :: 0 <= k < output.Length && !(i <= k < i + j) ==> output[k] == old(output[k])
    {
      output[i + j] := Stored(input[i + j], noises[j], precision, outBits);
    }
  }

  /** Rounds each of the first `size` numbers once, each with the noise of its index. */
  method StochasticRoundArray(input: seq<Word>, output: array<int>, size: int, precision: nat, outBits: nat)
    requires size <= |input| && size <= output.Length && outBits > 0
    modifies output
    ensures forall i :: 0 <= i < size ==> output[i] == Stored(input[i], NoiseAt(i, size), precision, outBits)
    ensures forall i :: 0 <= i < output.Length && i >= size ==> output[i] == old(output[i])
  {
    hide Stored;
    hide Xorshift32;
    hide NoiseAt;
    var r0, r1, r2, r3 := SEEDS[0], SEEDS[1], SEEDS[2], SEEDS[3];
    assert forall k :: 0 <= k < 4 ==> Stream(SEEDS[k], 0) == SEEDS[k];
    hide Stream;
    var i := 0;
    ghost var quads := 0;
    while i < size - 3
      invariant i == 4 * quads && (i <= size || i == 0)
      invariant r0 == Stream(SEEDS[0], quads) && r1 == Stream(SEEDS[1], quads)
      invariant r2 == Stream(SEEDS[2], quads) && r3 == Stream(SEEDS[3], quads)
      invariant forall j :: 0 <= j < i ==> output[j] == Stored(input[j], NoiseAt(j, size), precision, outBits)
      invariant forall j :: i <= j < output.Length ==> output[j] == old(output[j])
    {
      StreamGoesOn(SEEDS[0], quads);
      StreamGoesOn(SEEDS[1], quads);
      StreamGoesOn(SEEDS[2], quads);
      StreamGoesOn(SEEDS[3], quads);
      r0, r1, r2, r3 := Xorshift32(r0), Xorshift32(r1), Xorshift32(r2), Xorshift32(r3);
      LanesOf(quads, size);
      RoundFour(input, output, i, [r0, r1, r2, r3], precision, outBits);
      i := i + 4;
      quads := quads + 1;
    }
    var start := if size >= 0 then size / 4 * 4 else 0 - (0 - size) / 4 * 4;
    if start < size {
      RoundTail(input, output, start, size, r0, precision, outBits);
    }
  }

  /** The numbers behind the last four: the first generator goes on. */
  method RoundTail(input: seq<Word>, output: array<int>, start: nat, size: nat, state: bv32, precision: nat,
                   outBits: nat)
    requires start == size / 4 * 4 && size <= |input| && size <= output.Length && outBits > 0
    requires state == Stream(SEEDS[0], size / 4)
    modifies output
    ensures forall i :: start <= i < size ==> output[i] == Stored(input[i], NoiseAt(i, size), precision, outBits)
    ensures forall i :: 0 <= i < output.Length && !(start <= i < size) ==> output[i] == old(output[i])
  {
    hide Stored;
    hide Xorshift32;
    hide NoiseAt;
    hide Stream;
    var r0 := state;
    ghost var steps: nat := size / 4;
    for i := start to size
      invariant steps == size / 4 + (i - start) && r0 == Stream(SEEDS[0], steps)
      invariant forall j :: start <= j < i ==> output[j] == Stored(input[j], NoiseAt(j, size), precision, outBits)
      invariant forall j :: 0 <= j < output.Length && !(start <= j < i) ==> output[j] == old(output[j])
    {
      StreamGoesOn(SEEDS[0], steps);
      TailOf(i, size, steps);
      r0 := Xorshift32(r0);
      output[i] := Stored(input[i], r0, precision, outBits);
      steps := steps + 1;
    }
  }

  lemma StreamGoesOn(seed: bv32, k: nat)
    ensures Stream(seed, k + 1) == Xorshift32(Stream(seed, k))
  {
    hide Xorshift32;
  }

  lemma TailOf(i: nat, n: nat, steps: nat)
    requires n / 4 * 4 <= i < n && steps == n / 4 + (i - n / 4 * 4)
    ensures NoiseAt(i, n) == Stream(SEEDS[0], steps + 1)
  {}

  lemma LanesOf(quads: nat, n: nat)
    requires 4 * quads + 3 < n / 4 * 4
    ensures forall j :: 0 <= j < 4 ==> NoiseAt(4 * quads + j, n) == Stream(SEEDS[j], quads + 1)
  {
    hide Stream;
  }
}
