/**
 * Python's arbitrary-precision integers seen as infinite two's-complement
 * bit strings: the bitwise operators, shifts and masks the frame codec uses,
 * and the little-endian byte and hexadecimal views of a number.
 */
module Bits {

  function Pow2(n: nat): (r: nat)
    ensures r >= 1
  {
    if n == 0 then 1 else 2 * Pow2(n - 1)
  }

  lemma Pow2Add(a: nat, b: nat)
    ensures Pow2(a + b) == Pow2(a) * Pow2(b)
  {
    if a > 0 {
      Pow2Add(a - 1, b);
      assert Pow2(a + b) == 2 * Pow2(a - 1 + b);
    }
  }

  lemma Pow2Eight()
    ensures Pow2(4) == 16 && Pow2(8) == 256
  {
    assert Pow2(2) == 4;
    assert Pow2(4) == 16;
    assert Pow2(6) == 64;
  }

  lemma Pow2Monotone(a: nat, b: nat)
    requires a <= b
    ensures Pow2(a) <= Pow2(b)
  {
    if a < b {
      Pow2Monotone(a, b - 1);
    }
  }

  /** Bit `i` of `x` in two's complement: `(x >> i) & 1 == 1`. */
  function Bit(x: int, i: nat): bool
    decreases i
  {
    if i == 0 then x % 2 == 1 else Bit(x / 2, i - 1)
  }

  /** Distance of `x` from the all-zeros or all-ones bit string: the measure of the bitwise recursions. */
  function Size(x: int): nat
  {
    if x >= 0 then x else -x - 1
  }

  lemma SizeHalf(x: int)
    ensures Size(x / 2) <= Size(x)
    ensures x != 0 && x != -1 ==> Size(x / 2) < Size(x)
  {
  }

  /** `a | b` */
  function Or(a: int, b: int): int
    decreases Size(a) + Size(b)
  {
    if (a == 0 || a == -1) && (b == 0 || b == -1) then
      (if a == -1 || b == -1 then -1 else 0)
    else
      SizeHalf(a);
      SizeHalf(b);
      2 * Or(a / 2, b / 2) + (if a % 2 == 1 || b % 2 == 1 then 1 else 0)
  }

  /** `~x` */
  function Not(x: int): int
  {
    -x - 1
  }

  /** `a & b` */
  function And(a: int, b: int): int
  {
    Not(Or(Not(a), Not(b)))
  }

  /** `a ^ b` */
  function Xor(a: int, b: int): int
  {
    Or(And(a, Not(b)), And(Not(a), b))
  }

  /** `x << n` */
  function Shl(x: int, n: nat): int
  {
    x * Pow2(n)
  }

  /** `x >> n`: Python floors, which is Dafny's division by a positive divisor. */
  function Shr(x: int, n: nat): int
  {
    x / Pow2(n)
  }

  /** `x & (2**n - 1)`: the low `n` bits, never negative. */
  function Low(x: int, n: nat): int
  {
    x % Pow2(n)
  }

  // ---------------------------------------------------------------------
  // Bitwise characterisations

  lemma BitZero(i: nat)
    ensures !Bit(0, i)
  {
    if i > 0 {
      BitZero(i - 1);
    }
  }

  lemma BitMinusOne(i: nat)
    ensures Bit(-1, i)
  {
    if i > 0 {
      BitMinusOne(i - 1);
    }
  }

  lemma BitOfTwice(y: int, c: int, i: nat)
    requires c == 0 || c == 1
    ensures Bit(2 * y + c, i) == if i == 0 then c == 1 else Bit(y, i - 1)
  {
    assert (2 * y + c) / 2 == y && (2 * y + c) % 2 == c;
  }

  lemma BitNot(x: int, i: nat)
    ensures Bit(Not(x), i) == !Bit(x, i)
    decreases i
  {
    if i > 0 {
      assert Not(x) / 2 == Not(x / 2);
      BitNot(x / 2, i - 1);
    }
  }

  lemma BitOr(a: int, b: int, i: nat)
    ensures Bit(Or(a, b), i) == (Bit(a, i) || Bit(b, i))
    decreases Size(a) + Size(b)
  {
    if (a == 0 || a == -1) && (b == 0 || b == -1) {
      BitZero(i);
      BitMinusOne(i);
    } else {
      SizeHalf(a);
      SizeHalf(b);
      var c := if a % 2 == 1 || b % 2 == 1 then 1 else 0;
      BitOfTwice(Or(a / 2, b / 2), c, i);
      if i > 0 {
        BitOr(a / 2, b / 2, i - 1);
      }
    }
  }

  lemma BitAnd(a: int, b: int, i: nat)
    ensures Bit(And(a, b), i) == (Bit(a, i) && Bit(b, i))
  {
    BitNot(Or(Not(a), Not(b)), i);
    BitOr(Not(a), Not(b), i);
    BitNot(a, i);
    BitNot(b, i);
  }

  lemma BitXor(a: int, b: int, i: nat)
    ensures Bit(Xor(a, b), i) == (Bit(a, i) != Bit(b, i))
  {
    BitOr(And(a, Not(b)), And(Not(a), b), i);
    BitAnd(a, Not(b), i);
    BitAnd(Not(a), b, i);
    BitNot(a, i);
    BitNot(b, i);
  }

  lemma BitShl(x: int, n: nat, i: nat)
    ensures Bit(Shl(x, n), i) == (i >= n && Bit(x, i - n))
    decreases n
  {
    if n > 0 {
      assert Shl(x, n) == 2 * Shl(x, n - 1) + 0;
      BitOfTwice(Shl(x, n - 1), 0, i);
      if i > 0 {
        BitShl(x, n - 1, i - 1);
      }
    }
  }

  lemma DivModUnique(x: int, d: int, q: int, r: int)
    requires d > 0 && x == d * q + r && 0 <= r < d
    ensures x / d == q && x % d == r
  {
    var k := q - x / d;
    assert d * k == x % d - r by {
      assert d * q + r == d * (x / d) + x % d;
      assert d * k == d * q - d * (x / d);
    }
    if k >= 1 {
      MulAtLeast(d, k);
    } else if k <= -1 {
      MulAtLeast(d, -k);
    }
  }

  lemma MulAtLeast(d: int, k: int)
    requires d > 0 && k >= 1
    ensures d * k >= d
    decreases k
  {
    if k > 1 {
      MulAtLeast(d, k - 1);
      assert d * k == d * (k - 1) + d;
    }
  }

  lemma DivDiv(x: int, a: int, b: int)
    requires a > 0 && b > 0
    ensures (x / a) / b == x / (a * b)
    ensures x % (a * b) == x % a + a * ((x / a) % b)
  {
    var q, r := x / a, x % a;
    var q2, r2 := q / b, q % b;
    assert x == a * q + r;
    assert q == b * q2 + r2;
    assert x == (a * b) * q2 + (a * r2 + r) by {
      assert a * q == a * (b * q2) + a * r2;
    }
    assert a * r2 <= a * (b - 1);
    DivModUnique(x, a * b, q2, a * r2 + r);
  }

  lemma ShrShr(x: int, a: nat, b: nat)
    ensures Shr(Shr(x, a), b) == Shr(x, a + b)
  {
    Pow2Add(a, b);
    DivDiv(x, Pow2(a), Pow2(b));
  }

  lemma BitShr(x: int, n: nat, i: nat)
    ensures Bit(Shr(x, n), i) == Bit(x, i + n)
    decreases n
  {
    if n > 0 {
      ShrShr(x, 1, n - 1);
      assert Shr(x, 1) == x / 2;
      BitShr(x / 2, n - 1, i);
    }
  }

  lemma BitLow(x: int, n: nat, i: nat)
    ensures Bit(Low(x, n), i) == (i < n && Bit(x, i))
    decreases n
  {
    if n == 0 {
      BitZero(i);
    } else {
      DivDiv(x, 2, Pow2(n - 1));
      BitOfTwice(Low(x / 2, n - 1), x % 2, i);
      if i > 0 {
        BitLow(x / 2, n - 1, i - 1);
      }
    }
  }

  /** A number below `2**n` has no bit set at or above `n`. */
  lemma BitsAboveBound(y: int, n: nat, j: nat)
    requires 0 <= y < Pow2(n) && j >= n
    ensures !Bit(y, j)
    decreases n
  {
    if n == 0 {
      BitZero(j);
    } else {
      BitsAboveBound(y / 2, n - 1, j - 1);
    }
  }

  /** `2**n - 1` is `n` one bits. */
  lemma BitAllOnes(n: nat, i: nat)
    ensures Bit(Pow2(n) - 1, i) == (i < n)
  {
    if n == 0 {
      BitZero(i);
    } else {
      BitOfTwice(Pow2(n - 1) - 1, 1, i);
      if i > 0 {
        BitAllOnes(n - 1, i - 1);
      }
    }
  }

  /** Two integers with the same bits are equal. */
  lemma BitsExt(a: int, b: int)
    requires forall i: nat :: Bit(a, i) == Bit(b, i)
    ensures a == b
    decreases Size(a) + Size(b)
  {
    assert Bit(a, 0) == Bit(b, 0);
    if !((a == 0 || a == -1) && (b == 0 || b == -1)) {
      SizeHalf(a);
      SizeHalf(b);
      forall i: nat
        ensures Bit(a / 2, i) == Bit(b / 2, i)
      {
        assert Bit(a, i + 1) == Bit(b, i + 1);
      }
      BitsExt(a / 2, b / 2);
    }
  }

  lemma OrZero(b: int)
    requires b >= 0
    ensures Or(0, b) == b
    decreases b
  {
    if b != 0 {
      SizeHalf(b);
      OrZero(b / 2);
    }
  }

  /** OR with a number shifted clear of `a`'s bits is addition. */
  lemma OrDisjoint(a: int, b: int, k: nat)
    requires 0 <= a < Pow2(k) && b >= 0
    ensures Or(a, Shl(b, k)) == a + Shl(b, k)
    decreases k
  {
    if k == 0 {
      OrZero(b);
    } else {
      var big := Shl(b, k);
      assert big == 2 * Shl(b, k - 1);
      if !(a == 0 && big == 0) {
        OrDisjoint(a / 2, b, k - 1);
        assert big / 2 == Shl(b, k - 1) && big % 2 == 0;
      }
    }
  }

  /** The complement of a byte within eight bits. */
  lemma XorByteOnes(c: int)
    requires 0 <= c < 256
    ensures Xor(c, 0xFF) == 0xFF - c
  {
    Pow2Eight();
    forall i: nat
      ensures Bit(Xor(c, 0xFF), i) == Bit(0xFF - c, i)
    {
      BitXor(c, 0xFF, i);
      BitAllOnes(8, i);
      assert 0xFF - c == Low(Not(c), 8);
      BitLow(Not(c), 8, i);
      BitNot(c, i);
      if i >= 8 {
        BitsAboveBound(c, 8, i);
      }
    }
    BitsExt(Xor(c, 0xFF), 0xFF - c);
  }

  // ---------------------------------------------------------------------
  // Little-endian bytes

  function Pow256(n: nat): nat
  {
    Pow2(8 * n)
  }

  lemma Pow256Succ(n: nat)
    ensures Pow256(n + 1) == 256 * Pow256(n)
  {
    Pow2Add(8, 8 * n);
    Pow2Eight();
  }

  /** Byte `i` of `x`: `(x >> i * 8) & 0xFF`. */
  function Byte(x: int, i: nat): int
  {
    Low(Shr(x, i * 8), 8)
  }

  ghost predicate IsBytes(bs: seq<int>)
  {
    forall k :: 0 <= k < |bs| ==> 0 <= bs[k] < 256
  }

  /** The `n` low bytes of `x`, least significant first. */
  function ToBytes(x: int, n: nat): (bs: seq<int>)
    ensures |bs| == n
    decreases n
  {
    if n == 0 then [] else [Low(x, 8)] + ToBytes(Shr(x, 8), n - 1)
  }

  /** The number whose bytes, least significant first, are `bs`. */
  function FromBytes(bs: seq<int>): int
  {
    if bs == [] then 0 else bs[0] + 256 * FromBytes(bs[1..])
  }

  lemma ToBytesAt(x: int, n: nat, i: nat)
    requires i < n
    ensures ToBytes(x, n)[i] == Byte(x, i)
    decreases n
  {
    if i > 0 {
      ToBytesAt(Shr(x, 8), n - 1, i - 1);
      ShrShr(x, 8, (i - 1) * 8);
    }
  }

  lemma ToBytesAreBytes(x: int, n: nat)
    ensures IsBytes(ToBytes(x, n))
  {
    Pow2Eight();
    forall k | 0 <= k < n
      ensures 0 <= ToBytes(x, n)[k] < 256
    {
      ToBytesAt(x, n, k);
    }
  }

  lemma FromBytesBound(bs: seq<int>)
    requires IsBytes(bs)
    ensures 0 <= FromBytes(bs) < Pow256(|bs|)
  {
    if bs != [] {
      FromBytesBound(bs[1..]);
      Pow256Succ(|bs| - 1);
    }
  }

  lemma {:induction false} FromBytesSnoc(bs: seq<int>, b: int)
    ensures FromBytes(bs + [b]) == FromBytes(bs) + b * Pow256(|bs|)
  {
    if bs == [] {
      assert Pow256(0) == 1;
      assert [b][1..] == [];
    } else {
      assert (bs + [b])[0] == bs[0];
      assert (bs + [b])[1..] == bs[1..] + [b];
      FromBytesSnoc(bs[1..], b);
      Pow256Succ(|bs| - 1);
      ShiftByte(FromBytes(bs[1..]), b, Pow256(|bs| - 1));
    }
  }

  /** ORing byte `i` in at bit `8 * i` extends the number of the first `i` bytes by that byte. */
  lemma OrNextByte(bs: seq<int>, i: nat)
    requires IsBytes(bs) && i < |bs|
    ensures Or(FromBytes(bs[..i]), Shl(bs[i], i * 8)) == FromBytes(bs[..i + 1])
  {
    assert IsBytes(bs[..i]);
    FromBytesBound(bs[..i]);
    OrDisjoint(FromBytes(bs[..i]), bs[i], i * 8);
    FromBytesSnoc(bs[..i], bs[i]);
    assert bs[..i + 1] == bs[..i] + [bs[i]];
  }

  /** The first `i + 1` bytes of `x` are its first `i` bytes and byte `i`. */
  lemma ToBytesNext(x: int, n: nat, i: nat)
    requires i < n
    ensures ToBytes(x, n)[..i + 1] == ToBytes(x, n)[..i] + [Byte(x, i)]
  {
    ToBytesAt(x, n, i);
  }

  lemma ShiftByte(t: int, b: int, p: int)
    ensures 256 * (t + b * p) == 256 * t + b * (256 * p)
  {
  }

  /** Reading the low `n` bytes back gives `x` modulo `256**n`. */
  lemma FromToBytes(x: int, n: nat)
    ensures FromBytes(ToBytes(x, n)) == Low(x, 8 * n)
    decreases n
  {
    if n > 0 {
      FromToBytes(Shr(x, 8), n - 1);
      Pow2Eight();
      Pow256Succ(n - 1);
      DivDiv(x, 256, Pow256(n - 1));
    }
  }

  /** Splitting a byte string's number back into bytes gives the bytes. */
  lemma ToFromBytes(bs: seq<int>)
    requires IsBytes(bs)
    ensures ToBytes(FromBytes(bs), |bs|) == bs
  {
    if bs != [] {
      FromBytesBound(bs[1..]);
      Pow2Eight();
      DivModUnique(FromBytes(bs), 256, FromBytes(bs[1..]), bs[0]);
      ToFromBytes(bs[1..]);
    }
  }

  function Reverse<T>(s: seq<T>): (r: seq<T>)
    ensures |r| == |s|
  {
    seq(|s|, i requires 0 <= i < |s| => s[|s| - 1 - i])
  }

  lemma ReverseReverse<T>(s: seq<T>)
    ensures Reverse(Reverse(s)) == s
  {
  }

  // ---------------------------------------------------------------------
  // Hexadecimal rendering

  function HexDigit(d: int): char
    requires 0 <= d < 16
  {
    if d < 10 then ('0' as int + d) as char else ('a' as int + d - 10) as char
  }

  predicate IsHexDigit(c: char)
  {
    '0' <= c <= '9' || 'a' <= c <= 'f'
  }

  function DigitValue(c: char): int
  {
    if '0' <= c <= '9' then c as int - '0' as int
    else if 'a' <= c <= 'f' then c as int - 'a' as int + 10
    else 0
  }

  /** The `width` low hexadecimal digits of `n`, most significant first, zero padded. */
  function Hex(n: int, width: nat): (s: string)
    requires n >= 0
    ensures |s| == width
    ensures forall k :: 0 <= k < |s| ==> IsHexDigit(s[k])
  {
    if width == 0 then "" else Hex(n / 16, width - 1) + [HexDigit(n % 16)]
  }

  /** The value of a string of hexadecimal digits, most significant first. */
  function FromHex(s: string): int
  {
    if s == [] then 0 else 16 * FromHex(s[..|s| - 1]) + DigitValue(s[|s| - 1])
  }

  lemma HexRoundTrip(n: int, width: nat)
    requires 0 <= n < Pow2(4 * width)
    ensures FromHex(Hex(n, width)) == n
  {
    if width > 0 {
      Pow2Add(4, 4 * (width - 1));
      Pow2Eight();
      HexRoundTrip(n / 16, width - 1);
      var s := Hex(n, width);
      assert s[..|s| - 1] == Hex(n / 16, width - 1);
    }
  }

  /** `"{:016x}".format(n)` for a number that fits in 64 bits. */
  function Hex16(n: int): (s: string)
    requires 0 <= n < Pow2(64)
    ensures |s| == 16
    ensures forall k :: 0 <= k < 16 ==> IsHexDigit(s[k])
    ensures FromHex(s) == n
  {
    HexRoundTrip(n, 16);
    Hex(n, 16)
  }
}
