/** Bytes and 32-bit words as bounded integers, with exclusive or defined bit by bit. */
module Words {
  import opened Arithmetic

  type byte = x: int | 0 <= x < 0x100
  type word = x: int | 0 <= x < 0x1_0000_0000

  /** How many words there are: the modulus of unsigned 32-bit arithmetic. */
  const WORDS: nat := 0x1_0000_0000

  /** Exclusive or of the low n bits. */
  function XorBits(n: nat, a: nat, b: nat): nat {
    if n == 0 then 0 else 2 * XorBits(n - 1, a / 2, b / 2) + (a + b) % 2
  }

  function Pow2(n: nat): nat { if n == 0 then 1 else 2 * Pow2(n - 1) }

  function Bit(a: nat, i: nat): nat { if i == 0 then a % 2 else Bit(a / 2, i - 1) }

  /** Bit i of the result is set exactly when bit i of one operand, and not of the other, is. */
  lemma {:induction false} XorBitsAt(n: nat, a: nat, b: nat, i: nat)
    requires i < n
    ensures Bit(XorBits(n, a, b), i) == 1 <==> Bit(a, i) != Bit(b, i)
  {
    HalfAndParity(XorBits(n - 1, a / 2, b / 2), (a + b) % 2, XorBits(n, a, b));
    if i > 0 {
      XorBitsAt(n - 1, a / 2, b / 2, i - 1);
    } else {
      Parities(a, b);
    }
  }

  lemma Parities(a: nat, b: nat)
    ensures (a + b) % 2 == 1 <==> a % 2 != b % 2
  {}

  lemma {:induction false} XorBitsBound(n: nat, a: nat, b: nat)
    ensures XorBits(n, a, b) < Pow2(n)
  {
    if n > 0 { XorBitsBound(n - 1, a / 2, b / 2); }
  }

  lemma HalfAndParity(high: nat, bit: nat, m: nat)
    requires bit < 2 && m == 2 * high + bit
    ensures m / 2 == high && m % 2 == bit
  {}

  lemma ParityCancels(a: nat, b: nat, m: nat)
    requires m % 2 == (a + b) % 2
    ensures (m + b) % 2 == a % 2
  {}

  lemma {:induction false} XorBitsCancels(n: nat, a: nat, b: nat, m: nat)
    requires a < Pow2(n) && m == XorBits(n, a, b)
    ensures XorBits(n, m, b) == a
  {
    if n > 0 {
      HalfAndParity(XorBits(n - 1, a / 2, b / 2), (a + b) % 2, m);
      XorBitsCancels(n - 1, a / 2, b / 2, m / 2);
      ParityCancels(a, b, m);
    }
  }

  lemma {:induction false} XorBitsZero(n: nat, a: nat)
    requires a < Pow2(n)
    ensures XorBits(n, a, 0) == a && XorBits(n, 0, a) == a
  {
    if n > 0 { XorBitsZero(n - 1, a / 2); }
  }

  lemma {:induction false} Pow2Sum(m: nat, n: nat)
    ensures Pow2(m + n) == Pow2(m) * Pow2(n)
  {
    if n > 0 { Pow2Sum(m, n - 1); }
  }

  lemma Pow2Widths()
    ensures Pow2(8) == 0x100 && Pow2(32) == 0x1_0000_0000
  {
    assert Pow2(4) == 16 && Pow2(8) == 0x100;
    Pow2Sum(8, 8);
    Pow2Sum(16, 16);
  }

  function Xor(a: word, b: word): word {
    XorBitsBound(32, a, b);
    Pow2Widths();
    XorBits(32, a, b)
  }

  function XorByte(a: byte, b: byte): byte {
    XorBitsBound(8, a, b);
    Pow2Widths();
    XorBits(8, a, b)
  }

  lemma XorAt(a: word, b: word, i: nat)
    requires i < 32
    ensures Bit(Xor(a, b), i) == 1 <==> Bit(a, i) != Bit(b, i)
  {
    XorBitsAt(32, a, b, i);
  }

  lemma XorCancels(a: word, b: word)
    ensures Xor(Xor(a, b), b) == a
  {
    Pow2Widths();
    XorBitsCancels(32, a, b, Xor(a, b));
  }

  lemma XorZero(a: word)
    ensures Xor(a, 0) == a
  {
    Pow2Widths();
    XorBitsZero(32, a);
  }

  lemma XorByteCancels(a: byte, b: byte)
    ensures XorByte(XorByte(a, b), b) == a
  {
    Pow2Widths();
    XorBitsCancels(8, a, b, XorByte(a, b));
  }

  /** Addition of unsigned 32-bit words wraps. */
  function Add(a: word, b: word): word { (a + b) % 0x1_0000_0000 }

  function Pack(b0: byte, b1: byte, b2: byte, b3: byte): word {
    b0 * 0x100_0000 + b1 * 0x1_0000 + b2 * 0x100 + b3
  }

  function Byte0(w: word): byte { w / 0x100_0000 }
  function Byte1(w: word): byte { w / 0x1_0000 % 0x100 }
  function Byte2(w: word): byte { w / 0x100 % 0x100 }
  function Byte3(w: word): byte { w % 0x100 }

  function BigEndian(w: word): (bytes: seq<byte>)
    ensures |bytes| == 4
  {
    [Byte0(w), Byte1(w), Byte2(w), Byte3(w)]
  }

  lemma PackUnpack(w: word)
    ensures Pack(Byte0(w), Byte1(w), Byte2(w), Byte3(w)) == w
  {
    assert w / 0x1_0000 == w / 0x100 / 0x100 && w / 0x100_0000 == w / 0x1_0000 / 0x100;
  }

  lemma UnpackPack(b0: byte, b1: byte, b2: byte, b3: byte)
    ensures var w := Pack(b0, b1, b2, b3);
            Byte0(w) == b0 && Byte1(w) == b1 && Byte2(w) == b2 && Byte3(w) == b3
  {
    var w := Pack(b0, b1, b2, b3);
    DivModUnique(w, 0x100_0000, b0, b1 * 0x1_0000 + b2 * 0x100 + b3);
    DivModUnique(w, 0x1_0000, b0 * 0x100 + b1, b2 * 0x100 + b3);
    DivModUnique(w, 0x100, b0 * 0x1_0000 + b1 * 0x100 + b2, b3);
    DivModUnique(b0 * 0x100 + b1, 0x100, b0, b1);
    DivModUnique(b0 * 0x1_0000 + b1 * 0x100 + b2, 0x100, b0 * 0x100 + b1, b2);
  }

  /** The number that bytes spell, the most significant first. */
  function Number(bytes: seq<byte>): int {
    if bytes == [] then 0 else 0x100 * Number(bytes[..|bytes| - 1]) + bytes[|bytes| - 1]
  }

  lemma PackIsNumber(b: seq<byte>)
    requires |b| == 4
    ensures Number(b) == Pack(b[0], b[1], b[2], b[3])
  {
    assert b[..3][..2] == b[..2] && b[..2][..1] == b[..1] && b[..1][..0] == [];
    assert Number(b[..1]) == b[0];
    assert Number(b[..2]) == 0x100 * Number(b[..1]) + b[1];
    assert Number(b[..3]) == 0x100 * Number(b[..2]) + b[2];
  }

  lemma BigEndianIsNumber(w: word)
    ensures Number(BigEndian(w)) == w
  {
    PackIsNumber(BigEndian(w));
    PackUnpack(w);
  }

  lemma XorByteAt(a: byte, b: byte, i: nat)
    requires i < 8
    ensures Bit(XorByte(a, b), i) == 1 <==> Bit(a, i) != Bit(b, i)
  {
    XorBitsAt(8, a, b, i);
  }
}
