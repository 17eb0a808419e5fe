/** The Blowfish network on values: what one call of the cipher computes from the tables. */
module Cipher {
  import opened Words

  /** 18 subkeys and the four S-boxes laid out one after the other. */
  datatype RawTables = Tables(p: seq<word>, s: seq<word>)
  type Tables = t: RawTables | |t.p| == 18 && |t.s| == 1024
    witness Tables(seq(18, _ => 0), seq(1024, _ => 0))

  datatype Halves = Halves(l: word, r: word)

  const ROUNDS: nat := 16

  function F(s: seq<word>, x: word): word
    requires |s| == 1024
  {
    Add(Xor(Add(s[Byte0(x)], s[0x100 + Byte1(x)]), s[0x200 + Byte2(x)]), s[0x300 + Byte3(x)])
  }

  /** The four bytes of a word, most significant first, each index its own S-box. */
  lemma FOfBytes(s: seq<word>, a: byte, b: byte, c: byte, d: byte)
    requires |s| == 1024
    ensures F(s, Pack(a, b, c, d)) == Add(Xor(Add(s[a], s[256 + b]), s[512 + c]), s[768 + d])
  {
    UnpackPack(a, b, c, d);
  }

  /** One Feistel round with subkey n, the halves exchanged afterwards. */
  function Round(t: Tables, n: nat, h: Halves): Halves
    requires n < 18
  {
    Halves(Xor(h.r, Xor(F(t.s, h.l), t.p[n])), h.l)
  }

  function Rounds(t: Tables, n: nat, h: Halves): Halves
    requires n < 18
  {
    if n == 0 then h else Round(t, n, Rounds(t, n - 1, h))
  }

  function Whiten(key: word, h: Halves): Halves { Halves(Xor(h.l, key), h.r) }

  function Swap(h: Halves): Halves { Halves(h.r, h.l) }

  /** Whiten the left half, run n rounds, undo the last exchange and whiten the other half. */
  function Network(t: Tables, n: nat, h: Halves): Halves
    requires n < 18
  {
    Whiten(t.p[17], Swap(Rounds(t, n, Whiten(t.p[0], h))))
  }

  function Encrypt(t: Tables, h: Halves): Halves { Network(t, ROUNDS, h) }

  /** The tables with the subkeys in reverse order. */
  function Reversed(t: Tables): Tables {
    Tables(seq(18, i requires 0 <= i < 18 => t.p[17 - i]), t.s)
  }

  /** Decryption is encryption under the reversed subkeys. */
  function Decrypt(t: Tables, h: Halves): Halves { Encrypt(Reversed(t), h) }

  lemma RoundUndoes(t: Tables, n: nat, h: Halves)
    requires 1 <= n <= 16
    ensures Round(Reversed(t), 17 - n, Swap(Round(t, n, h))) == Swap(h)
  {
    XorCancels(h.r, Xor(F(t.s, h.l), t.p[n]));
  }

  lemma {:induction false} RoundsUndo(t: Tables, n: nat, k: nat, h: Halves)
    requires k <= n == 16
    ensures Rounds(Reversed(t), k, Swap(Rounds(t, n, h))) == Swap(Rounds(t, n - k, h))
  {
    if k > 0 {
      RoundsUndo(t, n, k - 1, h);
      RoundUndoes(t, 17 - k, Rounds(t, 16 - k, h));
    }
  }

  lemma WhitenCancels(key: word, h: Halves)
    ensures Whiten(key, Whiten(key, h)) == h
  {
    XorCancels(h.l, key);
  }

  lemma NetworkUndoes(t: Tables, n: nat, h: Halves)
    requires n == 16
    ensures Network(Reversed(t), n, Network(t, n, h)) == h
  {
    var start := Whiten(t.p[0], h);
    WhitenCancels(t.p[17], Swap(Rounds(t, n, start)));
    RoundsUndo(t, n, n, start);
    WhitenCancels(t.p[0], h);
  }

  /** Whatever the tables hold, deciphering undoes enciphering ... */
  lemma DecryptInvertsEncrypt(t: Tables, h: Halves)
    ensures Decrypt(t, Encrypt(t, h)) == h
  {
    NetworkUndoes(t, ROUNDS, h);
  }

  lemma ReversedTwice(t: Tables)
    ensures Reversed(Reversed(t)) == t
  {
    assert Reversed(Reversed(t)).p == t.p;
  }

  /** ... and enciphering undoes deciphering. */
  lemma EncryptInvertsDecrypt(t: Tables, h: Halves)
    ensures Encrypt(t, Decrypt(t, h)) == h
  {
    ReversedTwice(t);
    DecryptInvertsEncrypt(Reversed(t), h);
  }

  lemma NetworkOutput(t: Tables, n: nat, h: Halves, g: Halves)
    requires n == ROUNDS && Rounds(t, n, Whiten(t.p[0], h)) == g
    ensures Encrypt(t, h) == Halves(Xor(g.r, t.p[17]), g.l)
  {}
}

/** The block modes on values. Decrypting is the same function under the reversed subkeys, except for CBC. */
module BlockModes {
  import opened Sequences
  import opened Words
  import opened Cipher

  type Block = b: seq<byte> | |b| == 8 witness [0, 0, 0, 0, 0, 0, 0, 0]

  function FromBlock(b: Block): Halves {
    Halves(Pack(b[0], b[1], b[2], b[3]), Pack(b[4], b[5], b[6], b[7]))
  }

  function ToBlock(h: Halves): Block {
    BigEndian(h.l) + BigEndian(h.r)
  }

  lemma FromTo(h: Halves)
    ensures FromBlock(ToBlock(h)) == h
  {
    PackUnpack(h.l);
    PackUnpack(h.r);
  }

  lemma ToFrom(b: Block)
    ensures ToBlock(FromBlock(b)) == b
  {
    UnpackPack(b[0], b[1], b[2], b[3]);
    UnpackPack(b[4], b[5], b[6], b[7]);
  }

  function BlockAt(s: seq<byte>, off: nat): Block
    requires off + 8 <= |s|
  {
    s[off..off + 8]
  }

  function EncryptBlock(t: Tables, b: Block): Block { ToBlock(Encrypt(t, FromBlock(b))) }

  lemma BlockRoundTrip(t: Tables, b: Block)
    ensures EncryptBlock(Reversed(t), EncryptBlock(t, b)) == b
  {
    FromTo(Encrypt(t, FromBlock(b)));
    DecryptInvertsEncrypt(t, FromBlock(b));
    ToFrom(b);
  }

  /** A block operation, such as the cipher under fixed tables. The modes below work for any. */
  type BlockFn = Block -> Block

  function Enciphering(t: Tables): BlockFn { b => EncryptBlock(t, b) }

  /** Deciphering is enciphering under the reversed subkeys. */
  function Deciphering(t: Tables): BlockFn { Enciphering(Reversed(t)) }

  ghost predicate Inverts(g: BlockFn, f: BlockFn) {
    forall b {:trigger f(b)} :: g(f(b)) == b
  }

  lemma DecipheringInverts(t: Tables)
    ensures Inverts(Deciphering(t), Enciphering(t))
  {
    forall b {:trigger Enciphering(t)(b)} ensures Deciphering(t)(Enciphering(t)(b)) == b {
      BlockRoundTrip(t, b);
    }
  }

  function XorBlock(a: Block, b: Block): Block {
    seq(8, i requires 0 <= i < 8 => XorByte(a[i], b[i]))
  }

  lemma XorBlockCancels(a: Block, b: Block)
    ensures XorBlock(XorBlock(a, b), b) == a
  {
    forall i | 0 <= i < 8 ensures XorBlock(XorBlock(a, b), b)[i] == a[i] {
      XorByteCancels(a[i], b[i]);
    }
  }

  ghost predicate Whole(d: seq<byte>) { |d| % 8 == 0 }

  function Ecb(f: BlockFn, d: seq<byte>): (r: seq<byte>)
    requires Whole(d)
    ensures |r| == |d|
  {
    if d == [] then [] else f(d[..8]) + Ecb(f, d[8..])
  }

  /** Each plaintext block is mixed with the ciphertext block before it. */
  function CbcEncrypt(f: BlockFn, iv: Block, d: seq<byte>): (r: seq<byte>)
    requires Whole(d)
    ensures |r| == |d|
    decreases |d|
  {
    if d == [] then [] else
      var c := f(XorBlock(d[..8], iv));
      c + CbcEncrypt(f, c, d[8..])
  }

  function CbcDecrypt(g: BlockFn, iv: Block, d: seq<byte>): (r: seq<byte>)
    requires Whole(d)
    ensures |r| == |d|
    decreases |d|
  {
    if d == [] then [] else XorBlock(g(d[..8]), iv) + CbcDecrypt(g, d[..8], d[8..])
  }

  lemma EcbCons(f: BlockFn, b: Block, d: seq<byte>)
    requires Whole(d)
    ensures Ecb(f, b + d) == f(b) + Ecb(f, d)
  {
    Behind(b, d);
  }

  lemma CbcEncryptCons(f: BlockFn, iv: Block, b: Block, d: seq<byte>)
    requires Whole(d)
    ensures var c := f(XorBlock(b, iv)); CbcEncrypt(f, iv, b + d) == c + CbcEncrypt(f, c, d)
  {
    Behind(b, d);
  }

  lemma CbcDecryptCons(g: BlockFn, iv: Block, b: Block, d: seq<byte>)
    requires Whole(d)
    ensures CbcDecrypt(g, iv, b + d) == XorBlock(g(b), iv) + CbcDecrypt(g, b, d)
  {
    Behind(b, d);
  }

  lemma {:induction false} EcbRoundTrip(f: BlockFn, g: BlockFn, d: seq<byte>)
    requires Inverts(g, f) && Whole(d)
    ensures Ecb(g, Ecb(f, d)) == d
  {
    if d != [] {
      EcbCons(g, f(d[..8]), Ecb(f, d[8..]));
      EcbRoundTrip(f, g, d[8..]);
      Rejoin(d, 8);
    }
  }

  lemma {:induction false} CbcRoundTrip(f: BlockFn, g: BlockFn, iv: Block, d: seq<byte>)
    requires Inverts(g, f) && Whole(d)
    ensures CbcDecrypt(g, iv, CbcEncrypt(f, iv, d)) == d
    decreases |d|
  {
    if d != [] {
      var c := f(XorBlock(d[..8], iv));
      CbcDecryptCons(g, iv, c, CbcEncrypt(f, c, d[8..]));
      XorBlockCancels(d[..8], iv);
      CbcRoundTrip(f, g, c, d[8..]);
      Rejoin(d, 8);
    }
  }

  lemma {:induction false} EcbSplits(f: BlockFn, a: seq<byte>, b: seq<byte>)
    requires Whole(a) && Whole(b)
    ensures Ecb(f, a + b) == Ecb(f, a) + Ecb(f, b)
  {
    if a == [] {
      Empty(b);
    } else {
      EcbSplits(f, a[8..], b);
      EcbCons(f, a[..8], a[8..] + b);
      RejoinBefore(a, 8, b);
      Assoc(f(a[..8]), Ecb(f, a[8..]), Ecb(f, b));
    }
  }

  /** What the next call must be given as its IV: the last ciphertext block, or the IV itself. */
  function LastBlock(iv: Block, c: seq<byte>): Block
    requires Whole(c)
  {
    if c == [] then iv else c[|c| - 8..]
  }

  lemma LastBlockCons(iv: Block, b: Block, c: seq<byte>)
    requires Whole(c)
    ensures LastBlock(iv, b + c) == LastBlock(b, c)
  {
    if c == [] {
      Empty(b);
    } else {
      EndOfConcat(b, c, 8);
    }
  }

  lemma NoBlocks(f: BlockFn, iv: Block)
    ensures CbcEncrypt(f, iv, []) == [] && CbcDecrypt(f, iv, []) == [] && LastBlock(iv, []) == iv
  {}

  /** Encrypting in two calls, the second chained to the first, is encrypting once. */
  lemma {:induction false} CbcEncryptSplits(f: BlockFn, iv: Block, a: seq<byte>, b: seq<byte>)
    requires Whole(a) && Whole(b)
    ensures CbcEncrypt(f, iv, a + b) ==
            CbcEncrypt(f, iv, a) + CbcEncrypt(f, LastBlock(iv, CbcEncrypt(f, iv, a)), b)
    decreases |a|
  {
    hide CbcEncrypt, XorBlock, LastBlock;
    if a == [] {
      NoBlocks(f, iv);
      Empty(CbcEncrypt(f, iv, b));
      Empty(b);
    } else {
      var x, rest := a[..8], a[8..];
      var c := f(XorBlock(x, iv));
      Rejoin(a, 8);
      RejoinBefore(a, 8, b);
      CbcEncryptCons(f, iv, x, rest + b);
      CbcEncryptCons(f, iv, x, rest);
      LastBlockCons(iv, c, CbcEncrypt(f, c, rest));
      CbcEncryptSplits(f, c, rest, b);
      Assoc(c, CbcEncrypt(f, c, rest), CbcEncrypt(f, LastBlock(c, CbcEncrypt(f, c, rest)), b));
    }
  }

  lemma {:induction false} CbcDecryptSplits(g: BlockFn, iv: Block, a: seq<byte>, b: seq<byte>)
    requires Whole(a) && Whole(b)
    ensures CbcDecrypt(g, iv, a + b) == CbcDecrypt(g, iv, a) + CbcDecrypt(g, LastBlock(iv, a), b)
    decreases |a|
  {
    hide CbcDecrypt, XorBlock, LastBlock;
    if a == [] {
      NoBlocks(g, iv);
      Empty(CbcDecrypt(g, iv, b));
      Empty(b);
    } else {
      var x, rest := a[..8], a[8..];
      Rejoin(a, 8);
      RejoinBefore(a, 8, b);
      CbcDecryptCons(g, iv, x, rest + b);
      CbcDecryptCons(g, iv, x, rest);
      LastBlockCons(iv, x, rest);
      CbcDecryptSplits(g, x, rest, b);
      Assoc(XorBlock(g(x), iv), CbcDecrypt(g, x, rest), CbcDecrypt(g, LastBlock(x, rest), b));
    }
  }

  lemma EcbSnoc(f: BlockFn, d: seq<byte>, b: Block)
    requires Whole(d)
    ensures Ecb(f, d + b) == Ecb(f, d) + f(b)
  {
    EcbSplits(f, d, b);
    EcbCons(f, b, []);
    Empty(b);
  }

  lemma CbcEncryptSnoc(f: BlockFn, iv: Block, d: seq<byte>, b: Block)
    requires Whole(d)
    ensures var c := CbcEncrypt(f, iv, d); CbcEncrypt(f, iv, d + b) == c + f(XorBlock(b, LastBlock(iv, c)))
  {
    CbcEncryptSplits(f, iv, d, b);
    CbcEncryptCons(f, LastBlock(iv, CbcEncrypt(f, iv, d)), b, []);
    Empty(b);
  }

  /** How many blocks a forward loop handles: a length that is not a whole number of blocks is rounded up. */
  function Blocks(len: nat): nat { (len + 7) / 8 }

  lemma BlocksBound(len: nat, b: nat)
    ensures b < Blocks(len) <==> 8 * b < len
  {}

  function Padded(len: nat): nat { 8 * Blocks(len) }

  /** The buffer after blf_cbc_encrypt: the forward loop rounds the length up. */
  function CbcEncryptBuffer(t: Tables, iv: Block, d: seq<byte>, len: nat): (r: seq<byte>)
    requires Padded(len) <= |d|
    ensures |r| == |d|
  {
    CbcEncrypt(Enciphering(t), iv, d[..Padded(len)]) + d[Padded(len)..]
  }

  /** The buffer after blf_cbc_decrypt: the backward loop aligns the blocks to the end. */
  function CbcDecryptBuffer(t: Tables, iv: Block, d: seq<byte>, len: nat): (r: seq<byte>)
    requires 8 <= len <= |d|
    ensures |r| == |d|
  {
    d[..len % 8] + CbcDecrypt(Deciphering(t), iv, d[len % 8..len]) + d[len..]
  }

  lemma PaddedWhole(len: nat)
    requires len % 8 == 0
    ensures Padded(len) == len
  {}

  lemma EncryptAligned(t: Tables, iv: Block, d: seq<byte>, len: nat)
    requires len <= |d| && len % 8 == 0
    ensures Padded(len) == len
    ensures CbcEncryptBuffer(t, iv, d, len) == CbcEncrypt(Enciphering(t), iv, d[..len]) + d[len..]
  {
    PaddedWhole(len);
  }

  lemma DecryptAligned(t: Tables, iv: Block, c: seq<byte>, after: seq<byte>)
    requires |c| >= 8 && Whole(c)
    ensures CbcDecryptBuffer(t, iv, c + after, |c|) == CbcDecrypt(Deciphering(t), iv, c) + after
  {
    var d := c + after;
    assert d[..0] == [] && d[0..|c|] == c && d[|c|..] == after;
    var plain := CbcDecrypt(Deciphering(t), iv, c);
    assert [] + plain == plain;
  }

  /** For a whole number of blocks the backward pass restores exactly what the forward pass changed. */
  lemma CbcBufferRoundTrip(t: Tables, iv: Block, d: seq<byte>, len: nat)
    requires 8 <= len <= |d| && len % 8 == 0
    ensures Padded(len) == len
    ensures CbcDecryptBuffer(t, iv, CbcEncryptBuffer(t, iv, d, len), len) == d
  {
    EncryptAligned(t, iv, d, len);
    var c := CbcEncrypt(Enciphering(t), iv, d[..len]);
    DecryptAligned(t, iv, c, d[len..]);
    DecipheringInverts(t);
    CbcRoundTrip(Enciphering(t), Deciphering(t), iv, d[..len]);
    Rejoin(d, len);
  }

  /** Which bytes stay ciphertext after both passes: those before the blocks that are aligned to the end. */
  lemma MisalignedPrefixStays(t: Tables, iv: Block, d: seq<byte>, len: nat)
    requires 8 <= len && Padded(len) <= |d|
    ensures var e := CbcEncryptBuffer(t, iv, d, len);
            CbcDecryptBuffer(t, iv, e, len)[..len % 8] == e[..len % 8]
  {}

  /** For any other length it does not: some tables and buffer come back changed. */
  lemma CbcMisalignedFails(len: nat) returns (t: Tables, iv: Block, d: seq<byte>)
    requires 8 <= len && len % 8 != 0
    ensures |d| == Padded(len)
    ensures CbcDecryptBuffer(t, iv, CbcEncryptBuffer(t, iv, d, len), len)[0] != d[0]
  {
    t := Tables(seq(18, _ => 0), seq(1024, _ => 0));
    iv := seq(8, _ => 0);
    d := seq(Padded(len), i requires 0 <= i < Padded(len) => if i == 4 then 1 else 0);
    MisalignedLeavesCipher(t, iv, d, len);
    XorByteZero(d[4]);
  }

  /** With all-zero tables the first byte that stays is a plaintext byte of the other half. */
  lemma MisalignedLeavesCipher(t: Tables, iv: Block, d: seq<byte>, len: nat)
    requires t == Tables(seq(18, _ => 0), seq(1024, _ => 0))
    requires 8 <= len && len % 8 != 0 && |d| == Padded(len)
    ensures CbcDecryptBuffer(t, iv, CbcEncryptBuffer(t, iv, d, len), len)[0] == XorByte(d[4], iv[4])
  {
    var n := Blocks(len) - 1;
    var first, rest := d[..8], d[8..8 + 8 * n];
    assert d[..Padded(len)] == first + rest;
    CbcEncryptCons(Enciphering(t), iv, first, rest);
    SwappedBlock(t, XorBlock(first, iv));
    var e := CbcEncryptBuffer(t, iv, d, len);
    assert e[0] == XorByte(d[4], iv[4]);
    MisalignedPrefixStays(t, iv, d, len);
    assert CbcDecryptBuffer(t, iv, e, len)[..len % 8][0] == e[..len % 8][0];
  }

  lemma SwappedBlock(t: Tables, b: Block)
    requires t == Tables(seq(18, _ => 0), seq(1024, _ => 0))
    ensures EncryptBlock(t, b)[0] == b[4]
  {
    ZeroTablesSwap(t, FromBlock(b));
    UnpackPack(b[4], b[5], b[6], b[7]);
  }

  lemma XorByteZero(a: byte)
    ensures XorByte(a, 0) == a
  {
    Pow2Widths();
    XorBitsZero(8, a);
  }

  /** With all-zero tables every round only exchanges the halves. */
  lemma ZeroTablesSwap(t: Tables, h: Halves)
    requires t == Tables(seq(18, _ => 0), seq(1024, _ => 0))
    ensures Encrypt(t, h) == Swap(h)
  {
    XorZero(h.l);
    XorZero(h.r);
    ZeroRounds(t, 8, h);
  }

  lemma ZeroRound(t: Tables, n: nat, h: Halves)
    requires n < 18 && t == Tables(seq(18, _ => 0), seq(1024, _ => 0))
    ensures Round(t, n, h) == Swap(h)
  {
    XorZero(0);
    XorZero(h.r);
    assert F(t.s, h.l) == 0;
  }

  lemma {:induction false} ZeroRounds(t: Tables, m: nat, h: Halves)
    requires 2 * m < 18 && t == Tables(seq(18, _ => 0), seq(1024, _ => 0))
    ensures Rounds(t, 2 * m, h) == h
  {
    if m > 0 {
      ZeroRounds(t, m - 1, h);
      var g := Rounds(t, 2 * m - 2, h);
      assert Rounds(t, 2 * m - 1, h) == Round(t, 2 * m - 1, g);
      ZeroRound(t, 2 * m - 1, g);
      ZeroRound(t, 2 * m, Swap(g));
    }
  }

  /** blf_enc and blf_dec work on pairs of words rather than bytes. */
  type PairFn = Halves -> Halves

  function Pairs(f: PairFn, d: seq<word>): (r: seq<word>)
    requires |d| % 2 == 0
    ensures |r| == |d|
  {
    if d == [] then [] else
      var h := f(Halves(d[0], d[1]));
      [h.l, h.r] + Pairs(f, d[2..])
  }

  function EncipheringPair(t: Tables): PairFn { h => Encrypt(t, h) }

  lemma BlfDecInvertsEnc(t: Tables, d: seq<word>)
    requires |d| % 2 == 0
    ensures Pairs(EncipheringPair(Reversed(t)), Pairs(EncipheringPair(t), d)) == d
  {
    var f, g := EncipheringPair(t), EncipheringPair(Reversed(t));
    forall h {:trigger f(h)} ensures g(f(h)) == h {
      DecryptInvertsEncrypt(t, h);
    }
    PairsRoundTrip(f, g, d);
  }

  lemma EcbDecryptInvertsEncrypt(t: Tables, d: seq<byte>)
    requires Whole(d)
    ensures Ecb(Deciphering(t), Ecb(Enciphering(t), d)) == d
  {
    DecipheringInverts(t);
    EcbRoundTrip(Enciphering(t), Deciphering(t), d);
  }

  lemma PairsCons(f: PairFn, h: Halves, d: seq<word>)
    requires |d| % 2 == 0
    ensures Pairs(f, [h.l, h.r] + d) == [f(h).l, f(h).r] + Pairs(f, d)
  {
    assert ([h.l, h.r] + d)[2..] == d;
  }

  lemma {:induction false} PairsRoundTrip(f: PairFn, g: PairFn, d: seq<word>)
    requires |d| % 2 == 0
    requires forall h {:trigger f(h)} :: g(f(h)) == h
    ensures Pairs(g, Pairs(f, d)) == d
  {
    if d != [] {
      var h := Halves(d[0], d[1]);
      PairsCons(g, f(h), Pairs(f, d[2..]));
      PairsRoundTrip(f, g, d[2..]);
      assert d == [d[0], d[1]] + d[2..];
    }
  }

  lemma {:induction false} PairsSplit(f: PairFn, a: seq<word>, b: seq<word>)
    requires |a| % 2 == 0 && |b| % 2 == 0
    ensures Pairs(f, a + b) == Pairs(f, a) + Pairs(f, b)
  {
    if a == [] {
      Empty(b);
    } else {
      var h, rest := Halves(a[0], a[1]), a[2..];
      assert a == [h.l, h.r] + rest;
      assert a + b == [h.l, h.r] + (rest + b);
      PairsCons(f, h, rest + b);
      PairsCons(f, h, rest);
      PairsSplit(f, rest, b);
      Assoc([f(h).l, f(h).r], Pairs(f, rest), Pairs(f, b));
    }
  }
}
