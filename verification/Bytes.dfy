/** Bytes, fixed-width unsigned integers, their little-endian encodings, and XOR. */
module Bytes {
  const TWO_TO_THE_32: nat := 0x1_0000_0000
  const TWO_TO_THE_64: nat := 0x1_0000_0000_0000_0000

  /** Rust's `u8`, `u32` and `u64`. */
  type byte = n: nat | n < 256
  type u32 = n: nat | n < TWO_TO_THE_32
  type u64 = n: nat | n < TWO_TO_THE_64

  datatype Option<+T> = None | Some(value: T)

  /** The `width` little-endian bytes of `n`, least significant first. */
  function LittleEndian(n: nat, width: nat): (s: seq<byte>)
    ensures |s| == width
  {
    if width == 0 then [] else [n % 256] + LittleEndian(n / 256, width - 1)
  }

  function FromLittleEndian(s: seq<byte>): nat {
    if s == [] then 0 else s[0] + 256 * FromLittleEndian(s[1..])
  }

  function Power256(width: nat): nat {
    if width == 0 then 1 else 256 * Power256(width - 1)
  }

  lemma {:induction false} FromLittleEndianBound(s: seq<byte>)
    ensures FromLittleEndian(s) < Power256(|s|)
  {
    if s == [] {
    } else {
      FromLittleEndianBound(s[1..]);
    }
  }

  /** Decoding inverts encoding on every value that fits the width. */
  lemma {:induction false} DecodeEncode(n: nat, width: nat)
    requires n < Power256(width)
    ensures FromLittleEndian(LittleEndian(n, width)) == n
  {
    if width == 0 {
    } else {
      DecodeEncode(n / 256, width - 1);
      assert LittleEndian(n, width)[1..] == LittleEndian(n / 256, width - 1);
    }
  }

  /** Encoding inverts decoding on every byte string. */
  lemma {:induction false} EncodeDecode(s: seq<byte>)
    ensures LittleEndian(FromLittleEndian(s), |s|) == s
  {
    if s == [] {
    } else {
      EncodeDecode(s[1..]);
      assert FromLittleEndian(s) % 256 == s[0] && FromLittleEndian(s) / 256 == FromLittleEndian(s[1..]);
    }
  }

  /** The two widths in use, four and eight bytes. */
  lemma Widths()
    ensures Power256(4) == TWO_TO_THE_32
    ensures Power256(8) == TWO_TO_THE_64
  {
    assert Power256(2) == 0x1_0000;
    assert Power256(4) == 0x1_0000_0000;
    assert Power256(6) == 0x1_0000_0000_0000;
  }

  /** `u32::from_le_bytes`. */
  function U32(s: seq<byte>): u32
    requires |s| == 4
  {
    FromLittleEndianBound(s);
    Widths();
    FromLittleEndian(s)
  }

  /** `u64::from_le_bytes`. */
  function U64(s: seq<byte>): u64
    requires |s| == 8
  {
    FromLittleEndianBound(s);
    Widths();
    FromLittleEndian(s)
  }

  lemma U32RoundTrip(n: u32)
    ensures U32(LittleEndian(n, 4)) == n
  {
    Widths();
    DecodeEncode(n, 4);
  }

  lemma U64RoundTrip(n: u64)
    ensures U64(LittleEndian(n, 8)) == n
  {
    Widths();
    DecodeEncode(n, 8);
  }

  lemma U32Reencodes(s: seq<byte>)
    requires |s| == 4
    ensures LittleEndian(U32(s), 4) == s
  {
    EncodeDecode(s);
  }

  lemma U64Reencodes(s: seq<byte>)
    requires |s| == 8
    ensures LittleEndian(U64(s), 8) == s
  {
    EncodeDecode(s);
  }

  /** XOR of the low `bits` bits. */
  function XorBits(a: nat, b: nat, bits: nat): nat {
    if bits == 0 then 0 else (if a % 2 == b % 2 then 0 else 1) + 2 * XorBits(a / 2, b / 2, bits - 1)
  }

  lemma XorDigit(a: nat, b: nat, bits: nat)
    requires bits > 0
    ensures XorBits(a, b, bits) == (if a % 2 == b % 2 then 0 else 1) + 2 * XorBits(a / 2, b / 2, bits - 1)
  {
  }

  function Power2(bits: nat): nat {
    if bits == 0 then 1 else 2 * Power2(bits - 1)
  }

  lemma {:induction false} XorBitsBound(a: nat, b: nat, bits: nat)
    ensures XorBits(a, b, bits) < Power2(bits)
  {
    if bits == 0 {
    } else {
      XorBitsBound(a / 2, b / 2, bits - 1);
    }
  }

  lemma {:induction false} XorBitsAssociative(a: nat, b: nat, c: nat, bits: nat)
    ensures XorBits(XorBits(a, b, bits), c, bits) == XorBits(a, XorBits(b, c, bits), bits)
  {
    if bits == 0 {
    } else {
      XorBitsAssociative(a / 2, b / 2, c / 2, bits - 1);
      var ab, bc := XorBits(a, b, bits), XorBits(b, c, bits);
      assert ab / 2 == XorBits(a / 2, b / 2, bits - 1) && bc / 2 == XorBits(b / 2, c / 2, bits - 1);
      assert ab % 2 == (if a % 2 == b % 2 then 0 else 1) && bc % 2 == (if b % 2 == c % 2 then 0 else 1);
    }
  }

  lemma {:induction false} XorBitsCommutes(a: nat, b: nat, bits: nat)
    ensures XorBits(a, b, bits) == XorBits(b, a, bits)
  {
    if bits == 0 {
    } else {
      XorBitsCommutes(a / 2, b / 2, bits - 1);
    }
  }

  lemma {:induction false} XorBitsSelf(a: nat, bits: nat)
    ensures XorBits(a, a, bits) == 0
  {
    if bits == 0 {
    } else {
      XorBitsSelf(a / 2, bits - 1);
    }
  }

  lemma {:induction false} XorBitsZero(a: nat, bits: nat)
    requires a < Power2(bits)
    ensures XorBits(a, 0, bits) == a
  {
    if bits == 0 {
    } else {
      XorBitsZero(a / 2, bits - 1);
    }
  }

  lemma Power2Of8()
    ensures Power2(1) == 2 && Power2(2) == 4 && Power2(5) == 32 && Power2(8) == 256
  {
  }

  lemma Power2Of32()
    ensures Power2(22) == 0x40_0000 && Power2(32) == TWO_TO_THE_32
  {
    Power2Of8();
    assert Power2(11) == 0x800;
    assert Power2(14) == 0x4000;
    assert Power2(17) == 0x2_0000;
    assert Power2(20) == 0x10_0000;
    assert Power2(25) == 0x200_0000;
    assert Power2(28) == 0x1000_0000;
  }

  function XorByte(a: byte, b: byte): byte {
    XorBitsBound(a, b, 8);
    Power2Of8();
    XorBits(a, b, 8)
  }

  /**
    * Four bytes in wire order. The `u32` header key and packed headers are only ever XORed,
    * compared and sent, so they are kept as their little-endian bytes.
    */
  type Word = s: seq<byte> | |s| == 4 witness [0, 0, 0, 0]

  const ZERO: Word := [0, 0, 0, 0]

  /** XOR byte by byte. */
  function Xor(a: seq<byte>, b: seq<byte>): (s: seq<byte>)
    requires |a| == |b|
    ensures |s| == |a|
  {
    if a == [] then [] else [XorByte(a[0], b[0])] + Xor(a[1..], b[1..])
  }

  lemma {:induction false} XorAt(a: seq<byte>, b: seq<byte>, i: nat)
    requires i < |a| == |b|
    ensures Xor(a, b)[i] == XorByte(a[i], b[i])
  {
    if i == 0 {
    } else {
      XorAt(a[1..], b[1..], i - 1);
    }
  }

  lemma {:induction false} XorAssociative(a: seq<byte>, b: seq<byte>, c: seq<byte>)
    requires |a| == |b| == |c|
    ensures Xor(Xor(a, b), c) == Xor(a, Xor(b, c))
  {
    if a == [] {
    } else {
      XorBitsAssociative(a[0], b[0], c[0], 8);
      XorAssociative(a[1..], b[1..], c[1..]);
      assert Xor(a, b)[1..] == Xor(a[1..], b[1..]) && Xor(b, c)[1..] == Xor(b[1..], c[1..]);
    }
  }

  lemma {:induction false} XorCommutes(a: seq<byte>, b: seq<byte>)
    requires |a| == |b|
    ensures Xor(a, b) == Xor(b, a)
  {
    if a == [] {
    } else {
      XorBitsCommutes(a[0], b[0], 8);
      XorCommutes(a[1..], b[1..]);
    }
  }

  function Zeros(n: nat): (s: seq<byte>)
    ensures |s| == n
  {
    if n == 0 then [] else [0] + Zeros(n - 1)
  }

  lemma {:induction false} XorZeros(a: seq<byte>)
    ensures Xor(a, Zeros(|a|)) == a && Xor(a, a) == Zeros(|a|)
  {
    if a == [] {
    } else {
      Power2Of8();
      XorBitsZero(a[0], 8);
      XorBitsSelf(a[0], 8);
      XorZeros(a[1..]);
      assert Zeros(|a|)[1..] == Zeros(|a| - 1);
    }
  }

  lemma XorUnit(a: Word)
    ensures Xor(a, ZERO) == a && Xor(a, a) == ZERO
  {
    XorZeros(a);
    assert Zeros(2) == [0, 0];
    assert Zeros(4) == ZERO;
  }

  /** Masking twice with one key gives the word back. */
  lemma XorCancels(a: Word, k: Word)
    ensures Xor(Xor(a, k), k) == a
  {
    XorAssociative(a, k, k);
    XorUnit(k);
    XorUnit(a);
  }

  /** Masking with two keys gives one result only if the keys are equal. */
  lemma XorInjective(a: Word, j: Word, k: Word)
    ensures Xor(a, j) == Xor(a, k) <==> j == k
  {
    XorCommutes(a, j);
    XorCommutes(a, k);
    XorCancels(j, a);
    XorCancels(k, a);
  }

  /** The number whose low bits are those of `a` and whose other bits are `c`. */
  function Join(a: nat, low: nat, c: nat): nat {
    if low == 0 then c else a % 2 + 2 * Join(a / 2, low - 1, c)
  }

  /** The low `width` bits. */
  function Low(n: nat, width: nat): (l: nat)
    ensures l < Power2(width)
  {
    if width == 0 then 0 else n % 2 + 2 * Low(n / 2, width - 1)
  }

  /** `n >> width`. */
  function Drop(n: nat, width: nat): nat {
    if width == 0 then n else Drop(n / 2, width - 1)
  }

  lemma {:induction false} XorJoins(a: nat, b: nat, c: nat, d: nat, low: nat, high: nat)
    ensures XorBits(Join(a, low, c), Join(b, low, d), low + high)
         == Join(XorBits(a, b, low), low, XorBits(c, d, high))
  {
    if low == 0 {
    } else {
      XorJoins(a / 2, b / 2, c, d, low - 1, high);
      var x, y := Join(a, low, c), Join(b, low, d);
      assert x / 2 == Join(a / 2, low - 1, c) && y / 2 == Join(b / 2, low - 1, d);
      assert x % 2 == a % 2 && y % 2 == b % 2;
      assert XorBits(a, b, low) / 2 == XorBits(a / 2, b / 2, low - 1);
    }
  }

  lemma {:induction false} ModDoubles(a: nat, p: nat)
    requires p > 0
    ensures a % (2 * p) == a % 2 + 2 * (a / 2 % p)
  {
    var q, r := a / 2 / p, a % 2 + 2 * (a / 2 % p);
    assert a == 2 * p * q + r by {
      assert a / 2 == p * q + a / 2 % p;
      assert 2 * p * q == 2 * (p * q);
    }
    DivisionIsUnique(a, 2 * p, q, r);
  }

  lemma MultipleBounds(m: nat, d: int)
    ensures d >= 1 ==> m * d >= m
    ensures d <= -1 ==> m * d <= -1 * m
  {
  }

  lemma DivisionIsUnique(a: nat, m: nat, q: nat, r: nat)
    requires a == m * q + r && r < m
    ensures a / m == q && a % m == r
  {
    var d := a / m - q;
    assert a == m * (a / m) + a % m;
    assert m * (a / m) - m * q == m * d;
    MultipleBounds(m, d);
  }

  lemma {:induction false} JoinSum(a: nat, low: nat, c: nat)
    ensures Power2(low) > 0 && Join(a, low, c) == a % Power2(low) + Power2(low) * c
  {
    if low == 0 {
    } else {
      JoinSum(a / 2, low - 1, c);
      var p := Power2(low - 1);
      ModDoubles(a, p);
      assert 2 * (p * c) == 2 * p * c;
    }
  }

  lemma {:induction false} LowIsMod(a: nat, width: nat)
    ensures Power2(width) > 0 && Low(a, width) == a % Power2(width)
  {
    if width == 0 {
    } else {
      LowIsMod(a / 2, width - 1);
      ModDoubles(a, Power2(width - 1));
    }
  }

  lemma {:induction false} SplitOfJoin(a: nat, low: nat, c: nat)
    ensures Low(Join(a, low, c), low) == Low(a, low) && Drop(Join(a, low, c), low) == c
  {
    hide Power2;
    if low == 0 {
    } else {
      SplitOfJoin(a / 2, low - 1, c);
      Halves(a % 2, Join(a / 2, low - 1, c));
    }
  }

  lemma Halves(bit: nat, tail: nat)
    requires bit < 2
    ensures (bit + 2 * tail) % 2 == bit && (bit + 2 * tail) / 2 == tail
  {
  }

  lemma {:induction false} JoinOfSplit(n: nat, low: nat)
    ensures Join(Low(n, low), low, Drop(n, low)) == n
  {
    if low == 0 {
    } else {
      JoinOfSplit(n / 2, low - 1);
    }
  }

  lemma {:induction false} JoinBound(a: nat, low: nat, c: nat, high: nat)
    requires c < Power2(high)
    ensures Join(a, low, c) < Power2(low + high)
  {
    if low == 0 {
    } else {
      JoinBound(a / 2, low - 1, c, high);
    }
  }

  lemma {:induction false} DropBound(n: nat, low: nat, high: nat)
    requires n < Power2(low + high)
    ensures Drop(n, low) < Power2(high)
  {
    if low == 0 {
    } else {
      DropBound(n / 2, low - 1, high);
    }
  }

  // ----- bit fields

  /** Fields of the given widths in one number, the first in the lowest bits. */
  function PackFields(values: seq<nat>, widths: seq<nat>): nat
    requires |values| == |widths|
  {
    if values == [] then 0 else Join(values[0], widths[0], PackFields(values[1..], widths[1..]))
  }

  function UnpackFields(n: nat, widths: seq<nat>): (values: seq<nat>)
    ensures |values| == |widths|
    ensures forall i :: 0 <= i < |widths| ==> values[i] < Power2(widths[i])
    decreases |widths|
  {
    if widths == [] then [] else [Low(n, widths[0])] + UnpackFields(Drop(n, widths[0]), widths[1..])
  }

  function Total(widths: seq<nat>): nat {
    if widths == [] then 0 else widths[0] + Total(widths[1..])
  }

  lemma {:induction false} PackFieldsBound(values: seq<nat>, widths: seq<nat>)
    requires |values| == |widths|
    ensures PackFields(values, widths) < Power2(Total(widths))
  {
    if values == [] {
    } else {
      PackFieldsBound(values[1..], widths[1..]);
      JoinBound(values[0], widths[0], PackFields(values[1..], widths[1..]), Total(widths[1..]));
    }
  }

  /** Reading fields back gives the low bits of each. */
  lemma {:induction false} UnpackPackFields(values: seq<nat>, widths: seq<nat>)
    requires |values| == |widths|
    ensures UnpackFields(PackFields(values, widths), widths)
         == seq(|values|, i requires 0 <= i < |values| => Low(values[i], widths[i]))
  {
    if values == [] {
    } else {
      UnpackPackFields(values[1..], widths[1..]);
      SplitOfJoin(values[0], widths[0], PackFields(values[1..], widths[1..]));
    }
  }

  /** Every number that fits the widths is made of its fields. */
  lemma {:induction false} PackUnpackFields(n: nat, widths: seq<nat>)
    requires n < Power2(Total(widths))
    ensures PackFields(UnpackFields(n, widths), widths) == n
    decreases |widths|
  {
    if widths == [] {
    } else {
      DropBound(n, widths[0], Total(widths[1..]));
      PackUnpackFields(Drop(n, widths[0]), widths[1..]);
      JoinOfSplit(n, widths[0]);
    }
  }

  lemma JoinByte(a: byte, c: nat)
    ensures Join(a, 8, c) == a + 256 * c
  {
    Power2Of8();
    JoinSum(a, 8, c);
  }

  lemma XorLowByte(a: byte, b: byte, c: nat, d: nat, bits: nat)
    ensures XorBits(a + 256 * c, b + 256 * d, 8 + bits) == XorByte(a, b) + 256 * XorBits(c, d, bits)
  {
    JoinByte(a, c);
    JoinByte(b, d);
    JoinByte(XorByte(a, b), XorBits(c, d, bits));
    XorJoins(a, b, c, d, 8, bits);
  }

  lemma XorNothing()
    ensures XorBits(0, 0, 0) == 0
  {
  }

  /** XOR byte by byte is the XOR of the little-endian values, bit by bit. */
  lemma {:induction false} XorIsNumberXor(a: seq<byte>, b: seq<byte>)
    requires |a| == |b|
    ensures FromLittleEndian(Xor(a, b)) == XorBits(FromLittleEndian(a), FromLittleEndian(b), 8 * |a|)
  {
    if a == [] {
      XorNothing();
    } else {
      XorIsNumberXor(a[1..], b[1..]);
      assert Xor(a, b)[1..] == Xor(a[1..], b[1..]);
      XorLowByte(a[0], b[0], FromLittleEndian(a[1..]), FromLittleEndian(b[1..]), 8 * (|a| - 1));
    }
  }
}
