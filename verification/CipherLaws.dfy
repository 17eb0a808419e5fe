/** The cipher and its block modes as equations between the words and bytes that go in and those that come out. */
module CipherLaws {
  import opened Sequences
  import opened Words
  import opened Cipher
  import opened BlockModes

  // The network. x holds the right halves before each round, and the last left half.

  lemma {:induction false} RoundsAlong(t: Tables, h: Halves, x: seq<word>, n: nat)
    requires |x| == 18 && x[0] == h.r && x[1] == Xor(h.l, t.p[0]) && n <= 16
    requires forall i | 1 <= i <= 16 :: x[i + 1] == Xor(x[i - 1], Xor(F(t.s, x[i]), t.p[i]))
    ensures Rounds(t, n, Whiten(t.p[0], h)) == Halves(x[n + 1], x[n])
  {
    if n > 0 {
      RoundsAlong(t, h, x, n - 1);
    }
  }

  /** Each word is the one before the last, mixed with F of the last and the next subkey; the last two, the first of
      them under the last subkey, are the result. */
  lemma EncryptIs(t: Tables, h: Halves, x: seq<word>)
    requires |x| == 18 && x[0] == h.r && x[1] == Xor(h.l, t.p[0])
    requires forall i | 1 <= i <= 16 :: x[i + 1] == Xor(x[i - 1], Xor(F(t.s, x[i]), t.p[i]))
    ensures Encrypt(t, h) == Halves(Xor(x[16], t.p[17]), x[17])
  {
    RoundsAlong(t, h, x, 16);
  }

  /** Deciphering is the same with the subkeys taken from the end. */
  lemma DecryptIs(t: Tables, h: Halves, x: seq<word>)
    requires |x| == 18 && x[0] == h.r && x[1] == Xor(h.l, t.p[17])
    requires forall i | 1 <= i <= 16 :: x[i + 1] == Xor(x[i - 1], Xor(F(t.s, x[i]), t.p[17 - i]))
    ensures Decrypt(t, h) == Halves(Xor(x[16], t.p[0]), x[17])
  {
    EncryptIs(Reversed(t), h, x);
  }

  /** There always is such a sequence. */
  lemma TrailExists(t: Tables, h: Halves) returns (x: seq<word>)
    ensures |x| == 18 && x[0] == h.r && x[1] == Xor(h.l, t.p[0])
    ensures forall i | 1 <= i <= 16 :: x[i + 1] == Xor(x[i - 1], Xor(F(t.s, x[i]), t.p[i]))
  {
    x := [h.r, Xor(h.l, t.p[0])];
    for n := 1 to 17
      invariant |x| == n + 1 && x[0] == h.r && x[1] == Xor(h.l, t.p[0])
      invariant forall i | 1 <= i < n :: x[i + 1] == Xor(x[i - 1], Xor(F(t.s, x[i]), t.p[i]))
    {
      x := x + [Xor(x[n - 1], Xor(F(t.s, x[n]), t.p[n]))];
    }
  }

  /** Blocks hold their two words most significant byte first. */
  lemma BlockIs(t: Tables, b: Block, h: Halves)
    requires h.l == Number(b[..4]) && h.r == Number(b[4..])
    ensures Number(EncryptBlock(t, b)[..4]) == Encrypt(t, h).l
    ensures Number(EncryptBlock(t, b)[4..]) == Encrypt(t, h).r
  {
    hide Encrypt, Number, BigEndian, Pack;
    PackIsNumber(b[..4]);
    PackIsNumber(b[4..]);
    var e := Encrypt(t, h);
    Behind(BigEndian(e.l), BigEndian(e.r));
    BigEndianIsNumber(e.l);
    BigEndianIsNumber(e.r);
  }

  // The modes, block by block.

  lemma {:induction false} EcbAt(f: BlockFn, d: seq<byte>, i: nat)
    requires Whole(d) && 8 * i + 8 <= |d|
    ensures BlockAt(Ecb(f, d), 8 * i) == f(BlockAt(d, 8 * i))
  {
    var b, rest := d[..8], d[8..];
    Behind(f(b), Ecb(f, rest));
    if i > 0 {
      EcbAt(f, rest, i - 1);
      LaterBlock(f(b), Ecb(f, rest), i);
      LaterBlock(b, rest, i);
      Rejoin(d, 8);
    }
  }

  lemma LaterBlock(b: Block, rest: seq<byte>, i: nat)
    requires i > 0 && 8 * i <= |rest|
    ensures BlockAt(b + rest, 8 * i) == BlockAt(rest, 8 * i - 8)
  {}

  lemma FirstBlock(b: Block, rest: seq<byte>)
    ensures BlockAt(b + rest, 0) == b
  {}

  /** Byte by byte: a block of two others mixed. */
  ghost predicate Mixes(x: Block, a: Block, b: Block) { forall j | 0 <= j < 8 :: x[j] == XorByte(a[j], b[j]) }

  lemma MixesIs(a: Block, b: Block)
    ensures Mixes(XorBlock(a, b), a, b) && forall x: Block :: Mixes(x, a, b) ==> x == XorBlock(a, b)
  {
    hide XorByte;
  }

  /** Each plaintext block is mixed with the ciphertext block before it, the first with the IV, and then enciphered. */
  lemma {:induction false} CbcEncryptAt(f: BlockFn, iv: Block, d: seq<byte>, i: nat, x: Block)
    requires Whole(d) && 8 * i + 8 <= |d|
    requires Mixes(x, BlockAt(d, 8 * i), if i == 0 then iv else BlockAt(CbcEncrypt(f, iv, d), 8 * i - 8))
    ensures BlockAt(CbcEncrypt(f, iv, d), 8 * i) == f(x)
    decreases i
  {
    hide BlockAt, Mixes;
    var b, rest := d[..8], d[8..];
    Rejoin(d, 8);
    FirstBlock(b, rest);
    MixesIs(b, iv);
    var c := f(XorBlock(b, iv));
    var later := CbcEncrypt(f, c, rest);
    FirstBlock(c, later);
    if i > 0 {
      LaterBlock(b, rest, i);
      LaterBlock(c, later, i);
      if i > 1 {
        LaterBlock(c, later, i - 1);
      }
      CbcEncryptAt(f, c, rest, i - 1, x);
    }
  }

  /** Each plaintext block is the deciphered block mixed with the ciphertext block before it, the first with the IV. */
  lemma {:induction false} CbcDecryptAt(g: BlockFn, iv: Block, d: seq<byte>, i: nat)
    requires Whole(d) && 8 * i + 8 <= |d|
    ensures Mixes(BlockAt(CbcDecrypt(g, iv, d), 8 * i), g(BlockAt(d, 8 * i)),
                  if i == 0 then iv else BlockAt(d, 8 * i - 8))
    decreases i
  {
    hide BlockAt, Mixes;
    var b, rest := d[..8], d[8..];
    Rejoin(d, 8);
    FirstBlock(b, rest);
    MixesIs(g(b), iv);
    var p := XorBlock(g(b), iv);
    var later := CbcDecrypt(g, b, rest);
    FirstBlock(p, later);
    if i > 0 {
      LaterBlock(b, rest, i);
      LaterBlock(p, later, i);
      if i > 1 {
        LaterBlock(b, rest, i - 1);
      }
      CbcDecryptAt(g, b, rest, i - 1);
    }
  }

  lemma {:induction false} PairsAt(f: PairFn, d: seq<word>, i: nat)
    requires |d| % 2 == 0 && 2 * i + 1 < |d|
    ensures Halves(Pairs(f, d)[2 * i], Pairs(f, d)[2 * i + 1]) == f(Halves(d[2 * i], d[2 * i + 1]))
  {
    if i > 0 {
      PairsAt(f, d[2..], i - 1);
    }
  }

  // The two passes over a buffer.

  /** The forward pass rounds the length up and leaves the rest alone. */
  lemma EncryptBufferAt(t: Tables, iv: Block, d: seq<byte>, len: nat, i: nat, x: Block)
    requires Padded(len) <= |d| && 8 * i < len
    requires var e := CbcEncryptBuffer(t, iv, d, len);
             8 * i + 8 <= |d| && Mixes(x, BlockAt(d, 8 * i), if i == 0 then iv else BlockAt(e, 8 * i - 8))
    ensures var e := CbcEncryptBuffer(t, iv, d, len);
            && BlockAt(e, 8 * i) == EncryptBlock(t, x)
            && len <= Padded(len) < len + 8 && e[Padded(len)..] == d[Padded(len)..]
  {
    hide EncryptBlock, CbcEncrypt, Mixes, BlockAt, Padded;
    PaddedMeans(len, i);
    var front, after := d[..Padded(len)], d[Padded(len)..];
    var c := CbcEncrypt(Enciphering(t), iv, front);
    BlockInFront(front, after, 8 * i);
    BlockInFront(c, after, 8 * i);
    if i > 0 {
      BlockInFront(c, after, 8 * i - 8);
    }
    Rejoin(d, Padded(len));
    Behind(c, after);
    assert BlockAt(front, 8 * i) == BlockAt(d, 8 * i);
    CbcEncryptAt(Enciphering(t), iv, front, i, x);
  }

  lemma PaddedMeans(len: nat, i: nat)
    ensures Padded(len) % 8 == 0 && len <= Padded(len) < len + 8
    ensures 8 * i < len ==> 8 * i + 8 <= Padded(len)
  {
    BlocksBound(len, i);
  }

  lemma BlockInFront(a: seq<byte>, b: seq<byte>, off: nat)
    requires off + 8 <= |a|
    ensures BlockAt(a + b, off) == BlockAt(a, off)
  {}

  lemma BlockBehind(a: seq<byte>, b: seq<byte>, off: nat)
    requires off + 8 <= |b|
    ensures BlockAt(a + b, |a| + off) == BlockAt(b, off)
  {}

  lemma BlockOfSlice(d: seq<byte>, from: nat, to: nat, off: nat)
    requires from + off + 8 <= to <= |d|
    ensures BlockAt(d[from..to], off) == BlockAt(d, from + off)
  {
    forall j | 0 <= j < 8
      ensures BlockAt(d[from..to], off)[j] == BlockAt(d, from + off)[j]
    {
      assert d[from..to][off + j] == d[from + off + j];
    }
  }

  /** The backward pass aligns its blocks to the end; the bytes before them and behind the length stay. */
  lemma DecryptBufferAt(t: Tables, iv: Block, d: seq<byte>, len: nat, i: nat)
    requires 8 <= len <= |d| && len % 8 + 8 * i + 8 <= len
    ensures var p, off := CbcDecryptBuffer(t, iv, d, len), len % 8 + 8 * i;
            && Mixes(BlockAt(p, off), EncryptBlock(Reversed(t), BlockAt(d, off)),
                     if i == 0 then iv else BlockAt(d, off - 8))
            && p[..len % 8] == d[..len % 8] && p[len..] == d[len..]
  {
    hide EncryptBlock, CbcDecrypt, Mixes;
    var r := len % 8;
    var front, mid, after := d[..r], d[r..len], d[len..];
    var plain := CbcDecrypt(Deciphering(t), iv, mid);
    CbcDecryptAt(Deciphering(t), iv, mid, i);
    BlockOfSlice(d, r, len, 8 * i);
    if i > 0 {
      BlockOfSlice(d, r, len, 8 * i - 8);
    }
    Assoc(front, plain, after);
    Behind(front, plain + after);
    Behind(front + plain, after);
    BlockBehind(front, plain + after, 8 * i);
    BlockInFront(plain, after, 8 * i);
  }
}
