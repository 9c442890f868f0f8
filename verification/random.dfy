/**
  The `RandomNumberGenerator` extensions: `NextString`, a string drawn from a
  fixed 85-character alphabet, and `Next`, a signed 32-bit value folded into a
  range with a double remainder. The generator is a pair of byte streams given
  as parameters; what it draws from them is the state it keeps.
*/
module Random {
  import opened Wrappers
  import opened CSharpInt
  import opened Bytes

  type NonZeroByte = b: int | 1 <= b < 256 witness 1

  /**
    A generator whose `GetBytes` output is the stream `bytes` and whose
    `GetNonZeroBytes` output is the stream `nonZeroBytes`; `drawn` and
    `nonZeroDrawn` count what has been taken from each.
  */
  class RandomNumberGenerator {
    const bytes: nat -> byte
    const nonZeroBytes: nat -> NonZeroByte
    var drawn: nat
    var nonZeroDrawn: nat

    constructor (bytes: nat -> byte, nonZeroBytes: nat -> NonZeroByte)
      ensures this.bytes == bytes && this.nonZeroBytes == nonZeroBytes
      ensures drawn == 0 && nonZeroDrawn == 0
    {
      this.bytes := bytes;
      this.nonZeroBytes := nonZeroBytes;
      drawn := 0;
      nonZeroDrawn := 0;
    }

    /** Fills the array with the next bytes of the stream. */
    method GetBytes(data: array<byte>)
      modifies this, data
      ensures drawn == old(drawn) + data.Length && nonZeroDrawn == old(nonZeroDrawn)
      ensures data[..] == Draw(bytes, old(drawn), data.Length)
    {
      forall i | 0 <= i < data.Length {
        data[i] := bytes(drawn + i);
      }
      drawn := drawn + data.Length;
    }

    /** Fills the array with the next bytes of the non-zero stream. */
    method GetNonZeroBytes(data: array<byte>)
      modifies this, data
      ensures nonZeroDrawn == old(nonZeroDrawn) + data.Length && drawn == old(drawn)
      ensures data[..] == Draw(nonZeroBytes, old(nonZeroDrawn), data.Length)
      ensures forall i :: 0 <= i < data.Length ==> data[i] != 0
    {
      forall i | 0 <= i < data.Length {
        data[i] := nonZeroBytes(nonZeroDrawn + i);
      }
      nonZeroDrawn := nonZeroDrawn + data.Length;
    }
  }

  /** The `n` stream bytes from position `start` on. */
  function Draw<T>(source: nat -> T, start: nat, n: nat): seq<T>
  {
    seq(n, i requires 0 <= i < n => source(start + i))
  }

  /** Why a helper throws. */
  datatype RandomFailure =
    | Arithmetic(error: ArithmeticError)  // `OverflowException` or `DivideByZeroException`
    | ArgumentOutOfRange                  // a negative capacity, or a read past the buffer

  /** `_allChars`: lower case, upper case, digits and 23 punctuation marks. */
  const AllChars: string := "abcdefghijklmnopqrstuvwxyzABCDEFGHIJKLMNOPQRSTUVWXYZ1234567890~!@#$%^&*()[];:<>,.-=_+"

  lemma AllCharsSize()
    ensures |AllChars| == 85
  {
  }

  /** `BitConverter.ToUInt32(data, start)`: four bytes, least significant first. */
  function ToUInt32(data: seq<byte>, start: nat): (r: nat)
    requires start + 4 <= |data|
    ensures r < 0x1_0000_0000
  {
    var b0: int, b1: int, b2: int, b3: int := data[start], data[start + 1], data[start + 2], data[start + 3];
    b0 + 0x100 * b1 + 0x1_0000 * b2 + 0x100_0000 * b3
  }

  /** `BitConverter.ToInt32`: the same four bytes read as two's complement. */
  function ToInt32(data: seq<byte>): (r: int32)
    requires |data| == 4
    ensures r == Wrap32(ToUInt32(data, 0))
  {
    var u := ToUInt32(data, 0);
    if u > MaxInt32 then u - 0x1_0000_0000 else u
  }

  // -------------------------------------------------------------------
  // NextString
  // -------------------------------------------------------------------

  /** The character that the `k`-th group of four bytes selects. */
  function CharFor(data: seq<byte>, k: nat): char
    requires 4 * k + 4 <= |data|
  {
    AllChars[ToUInt32(data, 4 * k) % |AllChars|]
  }

  /** The first `size` characters `NextString` builds from the buffer. */
  function RandomChars(data: seq<byte>, size: nat): (s: string)
    requires 4 * size <= |data|
    ensures |s| == size
  {
    if size == 0 then [] else RandomChars(data, size - 1) + [CharFor(data, size - 1)]
  }

  /** Character `k` is selected by bytes 4k..4k+3 alone, reduced modulo 85. */
  lemma {:induction false} RandomCharsAt(data: seq<byte>, size: nat, k: nat)
    requires 4 * size <= |data| && k < size
    ensures RandomChars(data, size)[k] == AllChars[ToUInt32(data, 4 * k) % 85]
    decreases size
  {
    if k < size - 1 {
      RandomCharsAt(data, size - 1, k);
    }
  }

  /** Every character belongs to the alphabet. */
  lemma RandomCharsInAlphabet(data: seq<byte>, size: nat)
    requires 4 * size <= |data|
    ensures forall k :: 0 <= k < size ==> RandomChars(data, size)[k] in AllChars
  {
    forall k | 0 <= k < size
      ensures RandomChars(data, size)[k] in AllChars
    {
      RandomCharsAt(data, size, k);
    }
  }

  /**
    Only the first 4 * size bytes matter: buffers that agree on them give the
    same string.
  */
  lemma {:induction false} RandomCharsUsesPrefix(data: seq<byte>, other: seq<byte>, size: nat)
    requires 4 * size <= |data| && 4 * size <= |other|
    requires data[..4 * size] == other[..4 * size]
    ensures RandomChars(data, size) == RandomChars(other, size)
    decreases size
  {
    if size > 0 {
      var k := size - 1;
      var prefix := data[..4 * size];
      assert data[..4 * k] == prefix[..4 * k] == other[..4 * k];
      RandomCharsUsesPrefix(data, other, k);
      CharForAgrees(data, other, size, k);
    }
  }

  lemma CharForAgrees(data: seq<byte>, other: seq<byte>, size: nat, k: nat)
    requires 4 * size <= |data| && 4 * size <= |other| && k < size
    requires data[..4 * size] == other[..4 * size]
    ensures CharFor(data, k) == CharFor(other, k)
  {
    var prefix := data[..4 * size];
    assert data[4 * k] == prefix[4 * k] == other[4 * k];
    assert data[4 * k + 1] == prefix[4 * k + 1] == other[4 * k + 1];
    assert data[4 * k + 2] == prefix[4 * k + 2] == other[4 * k + 2];
    assert data[4 * k + 3] == prefix[4 * k + 3] == other[4 * k + 3];
  }

  /** The buffer length `new byte[sizeof(int) * size]` asks for, in 32-bit arithmetic. */
  function BufferLength(size: int32): int32
  {
    Wrap32(4 * size)
  }

  /**
    `NextString(random, size)`: fills a buffer of `4 * size` random bytes, then
    appends one alphabet character per four bytes. It succeeds exactly when
    `0 <= size < 2^29`; a larger size makes the buffer length wrap, and the
    loop then runs off the buffer or the allocation throws.
  */
  method NextString(random: RandomNumberGenerator, size: int32) returns (r: Result<string, RandomFailure>)
    modifies random
    ensures random.nonZeroDrawn == old(random.nonZeroDrawn)
    ensures BufferLength(size) < 0 ==> r == Failure(Arithmetic(Overflow)) && random.drawn == old(random.drawn)
    ensures BufferLength(size) >= 0 ==> random.drawn == old(random.drawn) + BufferLength(size)
    ensures r.Success? <==> 0 <= size < 0x2000_0000
    ensures r.Success? ==> r.value == RandomChars(Draw(random.bytes, old(random.drawn), 4 * size), size)
    ensures r.Failure? && BufferLength(size) >= 0 ==> r.error == ArgumentOutOfRange
  {
    var n := BufferLength(size);
    if n < 0 {
      return Failure(Arithmetic(Overflow));
    }
    var data := new byte[n];
    random.GetBytes(data);
    if size < 0 {
      // the `StringBuilder` capacity
      return Failure(ArgumentOutOfRange);
    }
    BufferLengthOfSize(size);
    var sb: string := [];
    var i: int := 0;
    while i < size
      invariant 0 <= i <= size && 4 * i <= n
      invariant sb == RandomChars(data[..], i)
    {
      if 4 * i >= data.Length {
        return Failure(ArgumentOutOfRange);
      }
      var b0: int, b1: int, b2: int, b3: int := data[4 * i], data[4 * i + 1], data[4 * i + 2], data[4 * i + 3];
      var rnd := b0 + 0x100 * b1 + 0x1_0000 * b2 + 0x100_0000 * b3;
      assert rnd == ToUInt32(data[..], 4 * i);
      var idx := rnd % |AllChars|;
      sb := sb + [AllChars[idx]];
      i := i + 1;
    }
    assert n == 4 * size;
    r := Success(sb);
  }

  /**
    For a non-negative size whose buffer length does not wrap negative, the
    length is a multiple of 4, never above `4 * size`, and equal to it exactly
    when `size < 2^29`.
  */
  lemma BufferLengthOfSize(size: int32)
    requires size >= 0 && BufferLength(size) >= 0
    ensures BufferLength(size) % 4 == 0 && BufferLength(size) <= 4 * size
    ensures BufferLength(size) == 4 * size <==> size < 0x2000_0000
  {
    Wrap32MultipleOf4(4 * size);
  }

  /** A 32-bit wrap keeps divisibility by 4. */
  lemma Wrap32MultipleOf4(x: int)
    requires x % 4 == 0
    ensures Wrap32(x) % 4 == 0
  {
  }

  // -------------------------------------------------------------------
  // Next
  // -------------------------------------------------------------------

  /**
    The arithmetic of `Next` after the draw, as written: `max--`, then
    `((val - min) % (max - min + 1) + (max - min + 1)) % (max - min + 1) + min`,
    every step in wrapping 32-bit arithmetic with C#'s truncating remainder.
  */
  function FoldIntoRange(val: int32, min: int32, max: int32): (r: Result<int32, ArithmeticError>)
    ensures r == Failure(DivideByZero) <==> max == min
  {
    var hi := Wrap32(max - 1);
    var d := Wrap32(Wrap32(hi - min) + 1);
    assert d == 0 <==> max == min by { Wrap32Zero(max, min); }
    match Remainder(Wrap32(val - min), d)
    case Failure(e) => Failure(e)
    case Success(r1) =>
      match Remainder(Wrap32(r1 + d), d)
      case Failure(e) => Failure(e)
      case Success(r2) => Success(Wrap32(r2 + min))
  }

  /** The divisor the C# expression computes is `max - min` modulo 2^32. */
  lemma Wrap32Zero(max: int32, min: int32)
    ensures Wrap32(Wrap32(Wrap32(max - 1) - min) + 1) == 0 <==> max == min
  {
  }

  /**
    Within ranges of width at most 2^30 no step wraps: the result lies in
    [min, max) and is `val - min`, wrapped to 32 bits, reduced modulo the width.
  */
  lemma FoldIntoRangeBounds(val: int32, min: int32, max: int32)
    requires 0 < max - min <= 0x4000_0000
    ensures FoldIntoRange(val, min, max).Success?
    ensures min <= FoldIntoRange(val, min, max).value < max
    ensures FoldIntoRange(val, min, max).value - min == Wrap32(val - min) % (max - min)
  {
    var d := max - min;
    assert Wrap32(max - 1) == max - 1;
    assert Wrap32(max - 1 - min) == d - 1;
    assert Wrap32(d - 1 + 1) == d;
    var x := Wrap32(val - min);
    var r1 := Remainder(x, d).value;
    assert Wrap32(r1 + d) == r1 + d;
    var r2 := Remainder(r1 + d, d).value;
    assert r2 == (r1 + d) % d;
    assert Wrap32(r2 + min) == r2 + min;
    RemainderCongruent(x, d, r1);
  }

  /** C#'s remainder differs from Euclid's by a multiple of the divisor. */
  lemma RemainderCongruent(x: int32, d: int32, r1: int32)
    requires 0 < d && Remainder(x, d) == Success(r1)
    ensures (r1 + d) % d == x % d
  {
    if x >= 0 {
      assert r1 == x % d;
      ModUnique(r1 + d, d, 1, r1);
    } else {
      var q := Abs(x) / d;
      var m := Abs(x) % d;
      assert r1 == -m;
      assert Abs(x) == q * d + m;
      if m == 0 {
        ModUnique(x, d, -q, 0);
        ModUnique(r1 + d, d, 1, 0);
      } else {
        ModUnique(x, d, -q - 1, d - m);
        ModUnique(r1 + d, d, 0, d - m);
      }
    }
  }

  /** Euclidean division is unique: a representation q * d + r with 0 <= r < d is the one. */
  lemma ModUnique(y: int, d: int, q: int, r: int)
    requires d > 0 && 0 <= r < d && y == q * d + r
    ensures y % d == r
  {
    var q0 := y / d;
    var r0 := y % d;
    var t := q - q0;
    assert t * d == r0 - r;
    if t >= 1 {
      MulAtLeast(t, d);
      assert false;
    } else if t <= -1 {
      MulAtLeast(-t, d);
      assert false;
    }
  }

  lemma MulAtLeast(t: int, d: int)
    requires t >= 1 && d > 0
    ensures t * d >= d
  {
  }

  /**
    `Next(random, min, max)`: four non-zero random bytes, read as a signed
    32-bit value and folded into the range.
  */
  method Next(random: RandomNumberGenerator, min: int32, max: int32) returns (r: Result<int32, ArithmeticError>)
    modifies random
    ensures random.drawn == old(random.drawn) && random.nonZeroDrawn == old(random.nonZeroDrawn) + 4
    ensures r == FoldIntoRange(ToInt32(Draw(random.nonZeroBytes, old(random.nonZeroDrawn), 4)), min, max)
  {
    var bytes := new byte[4];
    random.GetNonZeroBytes(bytes);
    var val := ToInt32(bytes[..]);
    r := FoldIntoRange(val, min, max);
  }

  /** `Next(m, m)` divides by zero; nothing rejects an empty or reversed range first. */
  lemma NextEmptyRangeDividesByZero(val: int32, m: int32)
    ensures FoldIntoRange(val, m, m) == Failure(DivideByZero)
  {
  }

  /**
    Over the range [0, int.MaxValue) the double remainder overflows: with the
    non-zero bytes 01 01 01 01 (val = 0x01010101) the first remainder plus the
    divisor exceeds int.MaxValue, wraps, and the result is negative.
  */
  lemma FoldIntoRangeOverflow()
    ensures FoldIntoRange(ToInt32([1, 1, 1, 1]), 0, MaxInt32) == Success(-2130640640)
    ensures !(0 <= -2130640640 < MaxInt32)
  {
    assert ToInt32([1, 1, 1, 1]) == 0x0101_0101;
    assert Wrap32(MaxInt32 - 1) == MaxInt32 - 1;
    assert Wrap32(MaxInt32 - 1 - 0) == MaxInt32 - 1;
    assert Wrap32(MaxInt32 - 1 + 1) == MaxInt32;
    assert Wrap32(0x0101_0101 - 0) == 0x0101_0101;
    assert Remainder(0x0101_0101, MaxInt32) == Success(0x0101_0101);
    assert Wrap32(0x0101_0101 + MaxInt32) == -2130640640;
    assert Remainder(-2130640640, MaxInt32) == Success(-2130640640);
    assert Wrap32(-2130640640 + 0) == -2130640640;
  }

  /**
    The fold as intended: the same offset `val - min`, wrapped to 32 bits as the
    extension method wraps it, reduced into [0, max - min) without any further wrap, and
    an empty or reversed range rejected.
  */
  function FoldIntoRangeChecked(val: int32, min: int32, max: int32): (r: Result<int32, RandomFailure>)
    ensures r.Failure? <==> max <= min
    ensures r.Success? ==> min <= r.value < max
  {
    if max <= min then Failure(ArgumentOutOfRange)
    else Success(min + Wrap32(val - min) % (max - min))
  }

  /** Where the extension method does not overflow, the checked fold agrees with it. */
  lemma FoldIntoRangeCheckedAgrees(val: int32, min: int32, max: int32)
    requires 0 < max - min <= 0x4000_0000
    ensures FoldIntoRange(val, min, max) == Success(FoldIntoRangeChecked(val, min, max).value)
  {
    FoldIntoRangeBounds(val, min, max);
  }
}
