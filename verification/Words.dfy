/** Sixteen-bit words, bytes and nibbles as integers, with the C and Python bit operators the toolchain uses. */
module Words {

  type nibble = x: int | 0 <= x < 16
  type byte = x: int | 0 <= x < 0x100
  type word = x: int | 0 <= x < 0x10000

  datatype Option<+T> = None | Some(value: T)

  /** Conversion to `uint16_t`. */
  function Wrap(x: int): word {
    x % 0x10000
  }

  /** `bswap_16`: exchanges the two bytes of a word. */
  function Bswap(w: word): word {
    w % 0x100 * 0x100 + w / 0x100
  }

  /** `(int16_t)w`. */
  function Signed(w: word): int {
    if w < 0x8000 then w else w - 0x10000
  }

  // ----- sequences -----

  lemma DropCons<T>(s: seq<T>, i: nat, t: seq<T>)
    requires i < |s|
    ensures s[i..] + t == [s[i]] + (s[i + 1..] + t)
  {
  }

  lemma JoinSlices<T>(s: seq<T>, i: nat, j: nat, k: nat)
    requires i <= j <= k <= |s|
    ensures s[i..k] == s[i..j] + s[j..k]
  {
  }

  lemma SliceOfPrefix<T>(s: seq<T>, t: seq<T>, i: nat, j: nat)
    requires i <= j <= |s|
    ensures (s + t)[i..j] == s[i..j]
  {
  }

  lemma AppendAssociates<T>(a: seq<T>, b: seq<T>, c: seq<T>)
    ensures a + (b + c) == (a + b) + c
  {
  }

  // ----- bitwise operators -----

  datatype BitOp = BitAnd | BitOr | BitXor

  function Exp2(n: nat): (r: nat)
    ensures r > 0
  {
    if n == 0 then 1 else 2 * Exp2(n - 1)
  }

  predicate CombineBits(o: BitOp, p: bool, q: bool) {
    match o
    case BitAnd => p && q
    case BitOr => p || q
    case BitXor => p != q
  }

  /** `a o b` on operands of at most `width` bits, one bit at a time from the bottom. */
  function Bitwise(o: BitOp, a: nat, b: nat, width: nat): (r: nat)
    ensures r < Exp2(width)
  {
    if width == 0 then 0
    else 2 * Bitwise(o, a / 2, b / 2, width - 1) + (if CombineBits(o, a % 2 == 1, b % 2 == 1) then 1 else 0)
  }

  /** Bit `i` of a number, bit 0 being the least significant one. */
  predicate Bit(x: nat, i: nat) {
    if i == 0 then x % 2 == 1 else Bit(x / 2, i - 1)
  }

  /** Every bit of the result combines the operands' bits at the same position. */
  lemma {:induction false} BitwiseMeaning(o: BitOp, a: nat, b: nat, width: nat, i: nat)
    requires i < width
    ensures Bit(Bitwise(o, a, b, width), i) <==> CombineBits(o, Bit(a, i), Bit(b, i))
    decreases i
  {
    if i > 0 {
      BitwiseMeaning(o, a / 2, b / 2, width - 1, i - 1);
    }
  }

  lemma DivideTwice(x: nat, m: nat)
    requires m > 0
    ensures x / (2 * m) == x / 2 / m
  {
    var q, r, b := x / 2 / m, x / 2 % m, x % 2;
    assert x / 2 == m * q + r;
    assert x == (2 * m) * q + (2 * r + b) by { assert m * q + m * q == (2 * m) * q; }
    QuotientIs(x, 2 * m, q, 2 * r + b);
  }

  lemma QuotientIs(x: nat, d: nat, q: nat, r: nat)
    requires d > 0 && x == d * q + r && r < d
    ensures x / d == q
  {
    var excess: int := x / d - q;
    assert d * excess == (r as int) - x % d by { assert x == d * (x / d) + x % d; }
    ProductIsFar(d, excess);
  }

  lemma ProductIsFar(d: int, k: int)
    requires d > 0
    ensures k >= 1 ==> d * k >= d
    ensures k <= -1 ==> d * k <= -d
  {
  }

  /** Bit `i` in terms of arithmetic: `(x >> i) & 1`. */
  lemma {:induction false} BitIsShifted(x: nat, i: nat)
    ensures Bit(x, i) <==> x / Exp2(i) % 2 == 1
    decreases i
  {
    if i > 0 {
      BitIsShifted(x / 2, i - 1);
      DivideTwice(x, Exp2(i - 1));
    }
  }

  /** Subtracting from all ones flips every bit. */
  lemma {:induction false} ComplementFlips(x: nat, width: nat, i: nat)
    requires i < width && x < Exp2(width)
    ensures Bit(Exp2(width) - 1 - x, i) <==> !Bit(x, i)
    decreases i
  {
    var y, h := Exp2(width) - 1 - x, Exp2(width - 1);
    assert y == 2 * h - 1 - x;
    assert y / 2 == h - 1 - x / 2 && y % 2 == 1 - x % 2;
    if i > 0 {
      ComplementFlips(x / 2, width - 1, i - 1);
    }
  }

  /** The two bytes of a word change places. */
  lemma BswapExchanges(hi: byte, lo: byte)
    ensures var w: int := 0x100 * hi + lo; var v: int := 0x100 * lo + hi; Bswap(w) == v
  {
    var h: int, l: int := hi, lo;
    assert (0x100 * h + l) / 0x100 == h && (0x100 * h + l) % 0x100 == l;
  }

  /** The signed reading of a word is the number in the signed range that is congruent to it. */
  lemma SignedIsCongruent(w: word)
    ensures -32768 <= Signed(w) <= 32767 && Signed(w) % 65536 == w
  {
  }

  function Bitwise16(o: BitOp, a: word, b: word): word {
    assert Exp2(4) == 16 && Exp2(8) == 0x100 && Exp2(12) == 0x1000 && Exp2(16) == 0x10000;
    Bitwise(o, a, b, 16)
  }

  lemma {:induction false} AndZero(a: nat, width: nat)
    ensures Bitwise(BitAnd, a, 0, width) == 0
  {
    if width > 0 {
      AndZero(a / 2, width - 1);
    }
  }

  lemma {:induction false} OrZero(a: nat, width: nat)
    requires a < Exp2(width)
    ensures Bitwise(BitOr, a, 0, width) == a
  {
    if width > 0 {
      OrZero(a / 2, width - 1);
    }
  }

  /** The number formed by the low `k` bits. */
  function LowBits(x: nat, k: nat): nat {
    if k == 0 then 0 else 2 * LowBits(x / 2, k - 1) + x % 2
  }

  /** Masking with `k` ones keeps the low `k` bits. */
  lemma {:induction false} MaskLow(x: nat, k: nat, width: nat)
    requires k <= width
    ensures Bitwise(BitAnd, x, Exp2(k) - 1, width) == LowBits(x, k)
    decreases k
  {
    if k == 0 {
      AndZero(x, width);
    } else {
      var m := Exp2(k - 1) - 1;
      assert Exp2(k) - 1 == 2 * m + 1 && (2 * m + 1) / 2 == m && (2 * m + 1) % 2 == 1;
      MaskLow(x / 2, k - 1, width - 1);
    }
  }

  /** Or-ing `k` low bits into a number whose low `k` bits are clear puts the two side by side. */
  lemma {:induction false} JoinBits(hi: nat, lo: nat, k: nat, width: nat)
    requires hi < Exp2(width) && lo < Exp2(k)
    ensures Bitwise(BitOr, Exp2(k) * hi, lo, width + k) == Exp2(k) * hi + lo
  {
    if k == 0 {
      OrZero(hi, width);
    } else {
      var h := Exp2(k - 1) * hi;
      assert Exp2(k) * hi == 2 * h && 2 * h / 2 == h;
      JoinBits(hi, lo / 2, k - 1, width);
    }
  }

  /** `x & 0xf`, as MaskIsLowNibble shows. */
  function LowNibble(x: nat): nibble {
    x % 16
  }

  lemma MaskIsLowNibble(x: nat, width: nat)
    requires width >= 4
    ensures Bitwise(BitAnd, x, 15, width) == LowNibble(x)
  {
    hide Bitwise, LowBits;
    assert Exp2(4) == 16;
    MaskLow(x, 4, width);
    FourLowBits(x);
  }

  lemma Remainder4(x: nat)
    ensures x % 4 == 2 * (x / 2 % 2) + x % 2
  {
  }

  lemma Remainder8(x: nat)
    ensures x % 8 == 2 * (x / 2 % 4) + x % 2
  {
  }

  lemma Remainder16(x: nat)
    ensures x % 16 == 2 * (x / 2 % 8) + x % 2
  {
  }

  lemma FourLowBits(x: nat)
    ensures LowBits(x, 4) == x % 16
  {
    var x1, x2, x3 := x / 2, x / 2 / 2, x / 2 / 2 / 2;
    Remainder4(x2);
    Remainder8(x1);
    Remainder16(x);
    assert LowBits(x3, 1) == x3 % 2;
    assert LowBits(x2, 2) == x2 % 4;
    assert LowBits(x1, 3) == x1 % 8;
  }

  /** `(hi << 4) | lo`, as ShiftOrIsJoin shows. */
  function JoinNibbles(hi: nibble, lo: nibble): byte {
    16 * hi + lo
  }

  lemma ShiftOrIsJoin(hi: nibble, lo: nibble, width: nat)
    requires width >= 8
    ensures Bitwise(BitOr, 16 * hi, lo, width) == JoinNibbles(hi, lo)
  {
    assert Exp2(4) == 16 && Exp2(width - 4) >= 16 by { Exp2Monotone(4, width - 4); }
    JoinBits(hi, lo, 4, width - 4);
  }

  lemma {:induction false} Exp2Monotone(a: nat, b: nat)
    requires a <= b
    ensures Exp2(a) <= Exp2(b)
    decreases b
  {
    if a < b {
      Exp2Monotone(a, b - 1);
    }
  }
}
