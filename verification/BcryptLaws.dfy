/** The derivation as equations between successive values, apart from the functions that compute them. */
module BcryptLaws {
  import opened Sequences
  import opened Arithmetic
  import opened Words
  import opened Cipher
  import opened BlockModes
  import opened CipherLaws
  import opened KeySchedule
  import opened BcryptPbkdf

  const MAGIC_TEXT := "OxychromaticBlowfishSwatDynamite"

  lemma MagicIsText()
    ensures |MAGIC| == |MAGIC_TEXT| && forall i | 0 <= i < |MAGIC| :: MAGIC[i] == MAGIC_TEXT[i] as int
  {}

  // bcrypt_hash

  /** 64 times: the salt, then the password. */
  ghost predicate Alternates(x: seq<Tables>, pass: Digest, salt: Digest) {
    && |x| == 129
    && forall k: nat | k < 64 ::
         x[2 * k + 1] == Expand(x[2 * k], NoSalt, salt) && x[2 * k + 2] == Expand(x[2 * k + 1], NoSalt, pass)
  }

  lemma {:induction false} StretchedIs(x: seq<Tables>, pass: Digest, salt: Digest, k: nat)
    requires Alternates(x, pass, salt) && k <= 64
    ensures Stretched(x[0], pass, salt, k) == x[2 * k]
  {
    hide Expand;
    if k > 0 {
      StretchedIs(x, pass, salt, k - 1);
      assert x[2 * (k - 1) + 1] == Expand(x[2 * (k - 1)], NoSalt, salt);
    }
  }

  /** The eight words, first those of the text, enciphered in pairs 64 times. */
  ghost predicate Enciphers(y: seq<seq<word>>, t: Tables) {
    && |y| == 65
    && (forall k: nat | k < 65 :: |y[k]| == 8)
    && (forall j: nat | j < 8 :: y[0][j] == Number(MAGIC[4 * j..4 * j + 4]))
    && forall k: nat | k < 64 :: EnciphersOnce(y[k], y[k + 1], t)
  }

  ghost predicate EnciphersOnce(d: seq<word>, e: seq<word>, t: Tables)
    requires |d| == |e| == 8
  {
    forall j: nat | j < 4 :: Halves(e[2 * j], e[2 * j + 1]) == Encrypt(t, Halves(d[2 * j], d[2 * j + 1]))
  }

  lemma WordOf(k: KeySchedule.Key, j: nat)
    requires 4 * j + 4 <= |k|
    ensures StreamWord(k, 4 * j) == Number(k[4 * j..4 * j + 4])
  {
    hide Number, Pack;
    var i, b := 4 * j, k[4 * j..4 * j + 4];
    forall r: nat | r < 4
      ensures Cyclic(k, i + r) == b[r]
    {
      ModSmall(i + r, |k|);
    }
    assert Cyclic(k, i + 0) == b[0];
    PackIsNumber(b);
  }

  lemma MagicWord(j: nat)
    requires j < 8
    ensures MagicWords()[j] == Number(MAGIC[4 * j..4 * j + 4])
  {
    hide Number, StreamWord;
    WordOf(MAGIC, j);
  }

  lemma FourPairs(f: PairFn, d: seq<word>, e: seq<word>)
    requires |d| == 8 && |e| == 8
    requires forall j: nat | j < 4 :: Halves(e[2 * j], e[2 * j + 1]) == f(Halves(d[2 * j], d[2 * j + 1]))
    ensures Pairs(f, d) == e
  {
    hide Pairs;
    assert e == [e[0], e[1]] + ([e[2], e[3]] + ([e[4], e[5]] + ([e[6], e[7]] + [])));
    assert d == [d[0], d[1]] + ([d[2], d[3]] + ([d[4], d[5]] + ([d[6], d[7]] + [])));
    assert e[2 * 0] == e[0] && e[2 * 1] == e[2] && e[2 * 2] == e[4] && e[2 * 3] == e[6];
    PairsCons(f, Halves(d[6], d[7]), []);
    PairsCons(f, Halves(d[4], d[5]), [d[6], d[7]] + []);
    PairsCons(f, Halves(d[2], d[3]), [d[4], d[5]] + ([d[6], d[7]] + []));
    PairsCons(f, Halves(d[0], d[1]), [d[2], d[3]] + ([d[4], d[5]] + ([d[6], d[7]] + [])));
    NoPairs(f);
  }

  lemma NoPairs(f: PairFn)
    ensures Pairs(f, []) == []
  {}

  lemma {:induction false} EnciphersIs(y: seq<seq<word>>, t: Tables, k: nat)
    requires Enciphers(y, t) && k <= 64
    ensures EncipherTimes(EncipheringPair(t), MagicWords(), k) == y[k]
  {
    hide Encrypt, Pairs;
    if k == 0 {
      forall j: nat | j < 8
        ensures MagicWords()[j] == y[0][j]
      {
        MagicWord(j);
      }
    } else {
      EnciphersIs(y, t, k - 1);
      assert k == (k - 1) + 1;
      FourPairs(EncipheringPair(t), y[k - 1], y[k]);
    }
  }

  /** The hash: tables expanded under salt and password, 64 alternations, 64 encryptions of the text, and the words out
      with their least significant byte first. */
  lemma BcryptHashIs(init: Tables, pass: Digest, salt: Digest, x: seq<Tables>, y: seq<seq<word>>, q: nat)
    requires Alternates(x, pass, salt) && x[0] == Expand(init, Salted(salt), pass)
    requires Enciphers(y, x[128]) && q < 8
    ensures var out := BcryptHash(init, pass, salt);
            Number([out[4 * q + 3], out[4 * q + 2], out[4 * q + 1], out[4 * q]]) == y[64][q]
  {
    hide Expand, Stretched, EncipherTimes, LittleEndian, Number, Alternates, Enciphers;
    Lengths(x, pass, salt, y);
    StretchedIs(x, pass, salt, 64);
    EnciphersIs(y, x[128], 64);
    WordOut(y[64], q);
  }

  lemma Lengths(x: seq<Tables>, pass: Digest, salt: Digest, y: seq<seq<word>>)
    requires Alternates(x, pass, salt) && Enciphers(y, x[128])
    ensures |x| == 129 && |y| == 65 && |y[64]| == 8
  {}

  /** The bytes of word q come out least significant first. */
  lemma {:induction false} WordOut(d: seq<word>, q: nat)
    requires q < |d|
    ensures var out := LittleEndian(d);
            Number([out[4 * q + 3], out[4 * q + 2], out[4 * q + 1], out[4 * q]]) == d[q]
  {
    hide Number, Byte0, Byte1, Byte2, Byte3;
    if q == 0 {
      BigEndianIsNumber(d[0]);
    } else {
      WordOut(d[1..], q - 1);
    }
  }

  // bcrypt_pbkdf

  /** h is the hash of the text under the password. */
  ghost predicate Hashes(p: Primitives, pass: seq<byte>, text: seq<byte>, h: HashBlock) {
    h == BcryptHash(p.initstate, p.sha512(pass), p.sha512(text))
  }

  ghost predicate MixesHash(z: HashBlock, a: HashBlock, b: HashBlock) {
    forall j | 0 <= j < HASHSIZE :: z[j] == XorByte(a[j], b[j])
  }

  /** The chain of section 5.2 of RFC 8018 behind the given first text: u[k] is U_{k+1}, and z[k] the exclusive or of
      the first k + 1 of them. */
  ghost predicate Chain(p: Primitives, pass: seq<byte>, first: seq<byte>, u: seq<HashBlock>, z: seq<HashBlock>) {
    && |u| == |z| > 0
    && Hashes(p, pass, first, u[0]) && z[0] == u[0]
    && forall k: nat | k + 1 < |u| :: Hashes(p, pass, u[k], u[k + 1]) && MixesHash(z[k + 1], z[k], u[k + 1])
  }

  lemma IntIsNumber(b: seq<byte>, i: word)
    requires |b| == 4 && Number(b) == i
    ensures b == Int(i)
  {
    hide Number;
    PackIsNumber(b);
    UnpackPack(b[0], b[1], b[2], b[3]);
  }

  /** Such a chain behind the salt and the block's number, most significant byte first, ends in the block. */
  lemma {:induction false} BlockIsChain(p: Primitives, pass: seq<byte>, salt: seq<byte>, i: word, b: seq<byte>,
                                        u: seq<HashBlock>, z: seq<HashBlock>, n: nat)
    requires |b| == 4 && Number(b) == i && Chain(p, pass, salt + b, u, z) && 0 < n <= |u|
    ensures U(p, pass, salt, i, n) == u[n - 1] && T(p, pass, salt, i, n) == z[n - 1]
    decreases n
  {
    hide BcryptHash, XorByte, Number, Int, U, T, XorHash, MixesHash;
    if n == 1 {
      IntIsNumber(b, i);
      FirstRound(p, pass, salt, i);
    } else {
      BlockIsChain(p, pass, salt, i, b, u, z, n - 1);
      NextRound(p, pass, salt, i, n);
      var k: nat := n - 2;
      assert k + 1 == n - 1 && Hashes(p, pass, u[k], u[k + 1]);
      MixesHashIs(z[k + 1], z[k], u[k + 1]);
    }
  }

  lemma MixesHashIs(z: HashBlock, a: HashBlock, b: HashBlock)
    requires MixesHash(z, a, b)
    ensures z == XorHash(a, b)
  {
    hide XorByte;
  }

  // There always are such sequences.

  lemma AlternationExists(t: Tables, pass: Digest, salt: Digest) returns (x: seq<Tables>)
    ensures Alternates(x, pass, salt) && x[0] == t
  {
    hide Expand;
    x := [t];
    for k := 0 to 64
      invariant |x| == 2 * k + 1 && x[0] == t
      invariant forall j: nat | j < k ::
        x[2 * j + 1] == Expand(x[2 * j], NoSalt, salt) && x[2 * j + 2] == Expand(x[2 * j + 1], NoSalt, pass)
    {
      var y := Expand(x[2 * k], NoSalt, salt);
      x := x + [y] + [Expand(y, NoSalt, pass)];
    }
  }

  lemma EncryptionsExist(t: Tables) returns (y: seq<seq<word>>)
    ensures Enciphers(y, t)
  {
    hide Encrypt, EncipherTimes, Pairs;
    var f := EncipheringPair(t);
    y := seq(65, k requires 0 <= k < 65 => EncipherTimes(f, MagicWords(), k));
    forall j: nat | j < 8
      ensures y[0][j] == Number(MAGIC[4 * j..4 * j + 4])
    {
      TimesNone(f, MagicWords());
      MagicWord(j);
    }
    forall k: nat | k < 64
      ensures EnciphersOnce(y[k], y[k + 1], t)
    {
      TimesNext(f, MagicWords(), k);
      forall j: nat | j < 4
        ensures Halves(y[k + 1][2 * j], y[k + 1][2 * j + 1]) == Encrypt(t, Halves(y[k][2 * j], y[k][2 * j + 1]))
      {
        PairsAt(f, y[k], j);
      }
    }
  }

  lemma TimesNone(f: PairFn, d: seq<word>)
    requires |d| % 2 == 0
    ensures EncipherTimes(f, d, 0) == d
  {}

  lemma TimesNext(f: PairFn, d: seq<word>, k: nat)
    requires |d| % 2 == 0
    ensures EncipherTimes(f, d, k + 1) == Pairs(f, EncipherTimes(f, d, k))
  {}
}
