/** bcrypt_hash and bcrypt_pbkdf. SHA-512 and the initial tables are whatever the caller supplies. */
module BcryptPbkdf {
  import opened Sequences
  import opened Arithmetic
  import opened Words
  import opened Cipher
  import opened BlockModes
  import opened KeySchedule
  import opened Blowfish
  import opened StridedOutput

  type Digest = d: seq<byte> | |d| == 64 witness seq(64, _ => 0)

  const HASHSIZE: nat := 32

  type HashBlock = b: seq<byte> | |b| == HASHSIZE witness seq(HASHSIZE, _ => 0)

  datatype Primitives = Primitives(sha512: seq<byte> -> Digest, initstate: Tables)

  /** "OxychromaticBlowfishSwatDynamite" */
  const MAGIC: KeySchedule.Key := [
    0x4f, 0x78, 0x79, 0x63, 0x68, 0x72, 0x6f, 0x6d, 0x61, 0x74, 0x69, 0x63, 0x42, 0x6c, 0x6f, 0x77,
    0x66, 0x69, 0x73, 0x68, 0x53, 0x77, 0x61, 0x74, 0x44, 0x79, 0x6e, 0x61, 0x6d, 0x69, 0x74, 0x65]

  /** The 64 rounds of key expansion, alternating salt and password. */
  function Stretched(t: Tables, pass: Digest, salt: Digest, n: nat): Tables {
    if n == 0 then t else Expand(Expand(Stretched(t, pass, salt, n - 1), NoSalt, salt), NoSalt, pass)
  }

  function EncipherTimes(f: PairFn, d: seq<word>, n: nat): (r: seq<word>)
    requires |d| % 2 == 0
    ensures |r| == |d|
  {
    if n == 0 then d else Pairs(f, EncipherTimes(f, d, n - 1))
  }

  /** Output byte m is byte m % 4 of word m / 4, least significant first. */
  function LittleEndian(d: seq<word>): (r: seq<byte>)
    ensures |r| == 4 * |d|
  {
    if d == [] then [] else [Byte3(d[0]), Byte2(d[0]), Byte1(d[0]), Byte0(d[0])] + LittleEndian(d[1..])
  }

  function MagicWords(): (r: seq<word>)
    ensures |r| == 8
  {
    seq(8, i requires 0 <= i < 8 => StreamWord(MAGIC, 4 * i))
  }

  function HashTables(init: Tables, pass: Digest, salt: Digest): Tables {
    Stretched(Expand(init, Salted(salt), pass), pass, salt, 64)
  }

  /** The magic string enciphered 64 times. */
  function EncipheredMagic(t: Tables): (r: seq<word>)
    ensures |r| == 8
  {
    EncipherTimes(EncipheringPair(t), MagicWords(), 64)
  }

  function BcryptHash(init: Tables, pass: Digest, salt: Digest): HashBlock {
    LittleEndian(EncipheredMagic(HashTables(init, pass, salt)))
  }

  method Hash(p: Primitives, sha2pass: Digest, sha2salt: Digest, out: array<byte>)
    requires out.Length == HASHSIZE
    modifies out
    ensures out[..] == BcryptHash(p.initstate, sha2pass, sha2salt)
  {
    var cdata := HashWords(p, sha2pass, sha2salt);
    CopyOut(cdata, out);
  }

  /** Key expansion and the 64 encryptions of the magic string. */
  method HashWords(p: Primitives, sha2pass: Digest, sha2salt: Digest) returns (cdata: array<word>)
    ensures fresh(cdata) && cdata.Length == 8
    ensures cdata[..] == EncipheredMagic(HashTables(p.initstate, sha2pass, sha2salt))
  {
    var state := new Context(p.initstate);
    ExpandKeys(state, sha2pass, sha2salt);
    cdata := new word[8];
    LoadMagic(cdata);
    EncipherMany(state, cdata);
  }

  method ExpandKeys(state: Context, sha2pass: Digest, sha2salt: Digest)
    requires state.Valid()
    modifies state.P, state.S
    ensures state.Value() == HashTables(old(state.Value()), sha2pass, sha2salt)
  {
    state.ExpandState(sha2salt, sha2pass);
    ghost var expanded := state.Value();
    var i := 0;
    while i < 64
      invariant 0 <= i <= 64
      invariant state.Value() == Stretched(expanded, sha2pass, sha2salt, i)
    {
      state.Expand0State(sha2salt);
      state.Expand0State(sha2pass);
      i := i + 1;
    }
  }

  lemma CursorStarts(size: nat)
    requires size > 0
    ensures Cursor(size, 0) == 0
  {}

  method LoadMagic(cdata: array<word>)
    requires cdata.Length == 8
    modifies cdata
    ensures cdata[..] == MagicWords()
  {
    hide StreamWord, Cursor;
    CursorStarts(|MAGIC|);
    var j := 0;
    var i := 0;
    while i < 8
      invariant 0 <= i <= 8
      invariant j == Cursor(|MAGIC|, 4 * i)
      invariant forall k :: 0 <= k < i ==> cdata[k] == MagicWords()[k]
    {
      var w;
      w, j := Stream2Word(MAGIC, j, 4 * i);
      cdata[i] := w;
      i := i + 1;
    }
  }

  method EncipherMany(state: Context, cdata: array<word>)
    requires state.Valid() && cdata.Length == 8 && cdata != state.P && cdata != state.S
    modifies cdata
    ensures cdata[..] == EncipherTimes(EncipheringPair(state.Value()), old(cdata[..]), 64)
  {
    ghost var f, d := EncipheringPair(state.Value()), cdata[..];
    var i := 0;
    while i < 64
      invariant 0 <= i <= 64
      invariant cdata[..] == EncipherTimes(f, d, i)
    {
      AllPairs(f, cdata[..]);
      state.Enc(cdata, 4);
      i := i + 1;
    }
  }

  lemma AllPairs(f: PairFn, d: seq<word>)
    requires |d| == 8
    ensures PairsDone(f, d, 4) == Pairs(f, d)
  {
    assert d[..8] == d;
  }

  method CopyOut(cdata: array<word>, out: array<byte>)
    requires out.Length == 4 * cdata.Length
    modifies out
    ensures out[..] == LittleEndian(cdata[..])
  {
    ghost var d := cdata[..];
    for i := 0 to cdata.Length
      invariant cdata[..] == d
      invariant out[..4 * i] == LittleEndian(d[..i])
    {
      out[4 * i + 3] := Byte0(cdata[i]);
      out[4 * i + 2] := Byte1(cdata[i]);
      out[4 * i + 1] := Byte2(cdata[i]);
      out[4 * i + 0] := Byte3(cdata[i]);
      LittleEndianSnoc(d[..i], d[i]);
      assert d[..i + 1] == d[..i] + [d[i]];
      assert out[..4 * (i + 1)] == out[..4 * i] + [Byte3(d[i]), Byte2(d[i]), Byte1(d[i]), Byte0(d[i])];
    }
    assert d[..cdata.Length] == d;
    assert out[..4 * cdata.Length] == out[..];
  }

  lemma {:induction false} LittleEndianSnoc(d: seq<word>, w: word)
    ensures LittleEndian(d + [w]) == LittleEndian(d) + [Byte3(w), Byte2(w), Byte1(w), Byte0(w)]
  {
    if d == [] {
      assert d + [w] == [w];
    } else {
      assert (d + [w])[1..] == d[1..] + [w];
      LittleEndianSnoc(d[1..], w);
    }
  }

  lemma {:induction false} LittleEndianByte(d: seq<word>, m: nat)
    requires m < 4 * |d|
    ensures LittleEndian(d)[m] == [Byte3(d[m / 4]), Byte2(d[m / 4]), Byte1(d[m / 4]), Byte0(d[m / 4])][m % 4]
  {
    if m >= 4 { LittleEndianByte(d[1..], m - 4); }
  }

  /** The big-endian encoding of a block number. */
  function Int(i: word): seq<byte> { BigEndian(i) }

  function Prf(p: Primitives, pass: seq<byte>, s: seq<byte>): HashBlock {
    BcryptHash(p.initstate, p.sha512(pass), p.sha512(s))
  }

  /** U_n of block i: section 5.2 of RFC 8018, counting n from 1. */
  function U(p: Primitives, pass: seq<byte>, salt: seq<byte>, i: word, n: nat): HashBlock
    requires n > 0
  {
    if n == 1 then Prf(p, pass, salt + Int(i)) else Prf(p, pass, U(p, pass, salt, i, n - 1))
  }

  function XorHash(a: HashBlock, b: HashBlock): HashBlock {
    seq(HASHSIZE, k requires 0 <= k < HASHSIZE => XorByte(a[k], b[k]))
  }

  /** T_i = U_1 xor U_2 xor ... xor U_n */
  function T(p: Primitives, pass: seq<byte>, salt: seq<byte>, i: word, n: nat): HashBlock
    requires n > 0
  {
    if n == 1 then U(p, pass, salt, i, 1)
    else XorHash(T(p, pass, salt, i, n - 1), U(p, pass, salt, i, n))
  }

  lemma FirstRound(p: Primitives, pass: seq<byte>, salt: seq<byte>, i: word)
    ensures T(p, pass, salt, i, 1) == U(p, pass, salt, i, 1) == Prf(p, pass, salt + Int(i))
  {}

  lemma NextRound(p: Primitives, pass: seq<byte>, salt: seq<byte>, i: word, n: nat)
    requires n > 1
    ensures U(p, pass, salt, i, n) == Prf(p, pass, U(p, pass, salt, i, n - 1))
    ensures T(p, pass, salt, i, n) == XorHash(T(p, pass, salt, i, n - 1), U(p, pass, salt, i, n))
  {}

  /** The blocks T_1, T_2, ... of one derivation. */
  function DerivedBlocks(p: Primitives, pass: seq<byte>, salt: seq<byte>, rounds: nat): BlockSource
    requires rounds > 0
  {
    (count: nat) => if count < 0x1_0000_0000 then T(p, pass, salt, count, rounds) else []
  }

  ghost predicate Rejected(passlen: nat, saltlen: nat, keylen: nat, rounds: nat) {
    rounds < 1 || passlen == 0 || saltlen == 0 || keylen == 0 || keylen > HASHSIZE * HASHSIZE || saltlen > 0x10_0000
  }

  /** One block: T of the given count is left in out. */
  method DeriveBlock(p: Primitives, pass: seq<byte>, salt: seq<byte>, sha2pass: Digest, countsalt: array<byte>,
                     count: word, rounds: nat, out: array<byte>, tmpout: array<byte>)
    requires sha2pass == p.sha512(pass) && rounds > 0
    requires countsalt.Length == |salt| + 4 && countsalt[..|salt|] == salt
    requires out.Length == HASHSIZE && tmpout.Length == HASHSIZE
    requires out != tmpout && out != countsalt && tmpout != countsalt
    modifies countsalt, out, tmpout
    ensures countsalt[..|salt|] == salt
    ensures out[..] == DerivedBlocks(p, pass, salt, rounds)(count)
  {
    hide U, T, BcryptHash, XorHash, Int;
    FirstRound(p, pass, salt, count);
    SetCount(countsalt, |salt|, count);
    assert countsalt[..] == salt + Int(count) by { Rejoin(countsalt[..], |salt|); }
    Hash(p, sha2pass, p.sha512(countsalt[..]), tmpout);
    Copy(out, tmpout);
    var i := 1;
    while i < rounds
      invariant 1 <= i <= rounds
      invariant countsalt[..|salt|] == salt
      invariant tmpout[..] == U(p, pass, salt, count, i)
      invariant out[..] == T(p, pass, salt, count, i)
    {
      NextRound(p, pass, salt, count, i + 1);
      Hash(p, sha2pass, p.sha512(tmpout[..]), tmpout);
      XorOut(out, tmpout);
      i := i + 1;
    }
  }

  method SetCount(countsalt: array<byte>, saltlen: nat, count: word)
    requires countsalt.Length == saltlen + 4
    modifies countsalt
    ensures countsalt[..saltlen] == old(countsalt[..saltlen]) && countsalt[saltlen..] == Int(count)
  {
    countsalt[saltlen + 0] := Byte0(count);
    countsalt[saltlen + 1] := Byte1(count);
    countsalt[saltlen + 2] := Byte2(count);
    countsalt[saltlen + 3] := Byte3(count);
  }

  method Copy(out: array<byte>, tmpout: array<byte>)
    requires out.Length == tmpout.Length
    modifies out
    ensures out[..] == old(tmpout[..])
  {
    forall j | 0 <= j < out.Length { out[j] := tmpout[j]; }
  }

  method XorOut(out: array<byte>, tmpout: array<byte>)
    requires out.Length == HASHSIZE && tmpout.Length == HASHSIZE && out != tmpout
    modifies out
    ensures out[..] == XorHash(old(out[..]), tmpout[..])
  {
    ghost var was := out[..];
    for j := 0 to HASHSIZE
      invariant forall k :: 0 <= k < HASHSIZE ==> out[k] == if k < j then XorByte(was[k], tmpout[k]) else was[k]
    {
      out[j] := XorByte(out[j], tmpout[j]);
    }
    assert out[..] == XorHash(was, tmpout[..]);
  }

  /** The output loop of one block. amt may exceed the rows of the column; the break then ends the loop. */
  method Scatter(out: array<byte>, key: array<byte>, origkeylen: nat, stride: nat, k: nat, amt: nat,
                 ghost writes: seq<nat>)
    returns (i: nat, ghost writes': seq<nat>)
    requires out != key && origkeylen <= key.Length && k < stride
    requires Rows(origkeylen, stride, k) <= amt <= out.Length
    modifies key
    ensures i == Rows(origkeylen, stride, k)
    ensures writes' == writes + ColumnWrites(stride, k, i)
    ensures key[..] == Scattered(old(key[..]), origkeylen, stride, k, out[..])
  {
    i, writes' := 0, writes;
    while i < amt
      invariant 0 <= i <= amt && i <= Rows(origkeylen, stride, k)
      invariant writes' == writes + ColumnWrites(stride, k, i)
      invariant forall d :: 0 <= d < key.Length && d % stride == k && d / stride < i ==>
        0 <= d / stride < out.Length && key[d] == out[d / stride]
      invariant forall d :: 0 <= d < key.Length && !(d % stride == k && d / stride < i) ==> key[d] == old(key[d])
    {
      InsideKey(origkeylen, stride, k, i);
      RowAndColumn(stride, k, i);
      var dest := i * stride + k;
      if dest >= origkeylen {
        break;
      }
      SameCell(stride, k, i);
      key[dest] := out[i];
      writes' := writes' + [dest];
      i := i + 1;
    }
    InsideColumn(origkeylen, stride, k);
    assert key[..] == Scattered(old(key[..]), origkeylen, stride, k, out[..]);
  }

  lemma SameCell(stride: nat, k: nat, i: nat)
    requires k < stride
    ensures forall d: nat :: d % stride == k && d / stride == i ==> d == i * stride + k
  {}

  lemma InsideColumn(keylen: nat, stride: nat, k: nat)
    requires k < stride
    ensures forall d: nat :: d % stride == k ==>
              0 <= d / stride && (d < keylen <==> d / stride < Rows(keylen, stride, k))
  {
    forall d: nat | d % stride == k
      ensures 0 <= d / stride && (d < keylen <==> d / stride < Rows(keylen, stride, k))
    {
      InColumn(keylen, stride, k, d);
    }
  }

  lemma FilledMeans(p: Primitives, pass: seq<byte>, salt: seq<byte>, rounds: nat, keylen: nat, key: seq<byte>)
    requires 0 < keylen <= |key| && keylen <= HASHSIZE * HASHSIZE && rounds > 0
    requires var s := Stride(keylen, HASHSIZE);
             0 < s && Filled(DerivedBlocks(p, pass, salt, rounds), keylen, s, s, key)
    ensures var s := (keylen + 31) / 32;
      && 0 < s <= 32
      && forall d :: 0 <= d < keylen ==> 0 <= d / s < 32 && 0 <= d % s < 32
                                         && key[d] == T(p, pass, salt, d % s + 1, rounds)[d / s]
  {
    hide T;
    var s := Stride(keylen, HASHSIZE);
    forall d | 0 <= d < keylen
      ensures 0 <= d / s < 32 && 0 <= d % s < 32 && key[d] == T(p, pass, salt, d % s + 1, rounds)[d / s]
    {
      ModBound(d, s);
    }
  }

  /** Derives keylen bytes into key. The ghost result lists the indices written, in order. */
  method Pbkdf(p: Primitives, pass: seq<byte>, salt: seq<byte>, key: array<byte>, keylen: nat, rounds: nat)
    returns (rc: int, ghost writes: seq<nat>)
    requires keylen <= key.Length
    modifies key
    ensures rc == if Rejected(|pass|, |salt|, keylen, rounds) then -1 else 0
    ensures rc == 0 <==> rounds >= 1 && |pass| >= 1 && 1 <= |salt| <= 1048576 && 1 <= keylen <= 1024
    ensures rc == -1 ==> key[..] == old(key[..]) && writes == []
    ensures rc == 0 ==> key[keylen..] == old(key[keylen..])
    ensures rc == 0 ==> var s := Stride(keylen, HASHSIZE);
      && 0 < s <= keylen <= HASHSIZE * HASHSIZE
      && Filled(DerivedBlocks(p, pass, salt, rounds), keylen, s, s, key[..])
      && writes == Writes(keylen, s, s)
    // in full: byte d of the key is byte d / s of block d mod s + 1
    ensures rc == 0 ==> var s := (keylen + 31) / 32;
      && 0 < s <= 32
      && forall d :: 0 <= d < keylen ==> 0 <= d / s < 32 && 0 <= d % s < 32
                                         && key[d] == T(p, pass, salt, d % s + 1, rounds)[d / s]
  {
    if rounds < 1 {
      return -1, [];
    }
    if |pass| == 0 || |salt| == 0 || keylen == 0 || keylen > HASHSIZE * HASHSIZE || |salt| > 0x10_0000 {
      return -1, [];
    }
    var countsalt := new byte[|salt| + 4];
    forall j | 0 <= j < |salt| { countsalt[j] := salt[j]; }
    assert countsalt[..|salt|] == salt;
    StrideBounds(keylen, HASHSIZE);
    var stride := CeilDiv(keylen, HASHSIZE);
    var amt := CeilDiv(keylen, stride);
    writes := DeriveKey(p, pass, salt, countsalt, p.sha512(pass), key, keylen, rounds, stride, amt);
    FilledMeans(p, pass, salt, rounds, keylen, key[..]);
    rc := 0;
  }

  /** The outer loop: one block and one column of the key each time round. */
  method DeriveKey(p: Primitives, pass: seq<byte>, salt: seq<byte>, countsalt: array<byte>, sha2pass: Digest,
                   key: array<byte>, origkeylen: nat, rounds: nat, stride: nat, amt0: nat)
    returns (ghost writes: seq<nat>)
    requires sha2pass == p.sha512(pass) && rounds > 0
    requires 0 < origkeylen <= key.Length && origkeylen <= HASHSIZE * HASHSIZE
    requires countsalt.Length == |salt| + 4 && countsalt[..|salt|] == salt && countsalt != key
    requires 0 < stride == Stride(origkeylen, HASHSIZE) <= origkeylen && amt0 == CeilDiv(origkeylen, stride)
    modifies countsalt, key
    ensures key[origkeylen..] == old(key[origkeylen..])
    ensures Filled(DerivedBlocks(p, pass, salt, rounds), origkeylen, stride, stride, key[..])
    ensures writes == Writes(origkeylen, stride, stride)
  {
    hide LoopState, Filled, Writes;
    var out, tmpout := new byte[HASHSIZE], new byte[HASHSIZE];
    var count, keylen, amt := 1, origkeylen, amt0;
    ghost var block := DerivedBlocks(p, pass, salt, rounds);
    writes := [];
    LoopStarts(origkeylen, HASHSIZE);
    NothingFilled(block, origkeylen, stride, key[..]);
    ghost var k := 0;
    while keylen > 0
      invariant count == k + 1
      invariant LoopState(origkeylen, HASHSIZE, k, keylen, amt)
      invariant countsalt[..|salt|] == salt
      invariant writes == Writes(origkeylen, stride, k)
      invariant Filled(block, origkeylen, stride, k, key[..])
      invariant key[origkeylen..] == old(key[origkeylen..])
      decreases stride - k
    {
      LoopSteps(origkeylen, HASHSIZE, k, keylen, amt);
      DeriveBlock(p, pass, salt, sha2pass, countsalt, count, rounds, out, tmpout);
      assert out[..] == block(k + 1);
      amt, keylen, writes := FillColumn(block, out, key, origkeylen, stride, count, keylen, amt, k, writes);
      count, k := count + 1, k + 1;
    }
    LoopSteps(origkeylen, HASHSIZE, k, keylen, amt);
  }

  /** The end of one turn of the outer loop: lower the limit, write the column, count off what was written. */
  method FillColumn(ghost block: BlockSource, out: array<byte>, key: array<byte>, origkeylen: nat, stride: nat,
                    count: nat, keylen: nat, amt: nat, ghost k: nat, ghost writes: seq<nat>)
    returns (amt': nat, keylen': nat, ghost writes': seq<nat>)
    requires out != key && origkeylen <= key.Length && out.Length == HASHSIZE
    requires LoopState(origkeylen, HASHSIZE, k, keylen, amt) && stride == Stride(origkeylen, HASHSIZE)
    requires count == k + 1 <= stride && out[..] == block(k + 1)
    requires Filled(block, origkeylen, stride, k, key[..])
    requires writes == Writes(origkeylen, stride, k)
    modifies key
    ensures LoopState(origkeylen, HASHSIZE, k + 1, keylen', amt')
    ensures writes' == Writes(origkeylen, stride, k + 1)
    ensures Filled(block, origkeylen, stride, k + 1, key[..])
    ensures key[origkeylen..] == old(key[origkeylen..])
  {
    LoopSteps(origkeylen, HASHSIZE, k, keylen, amt);
    amt' := if amt < keylen then amt else keylen;
    FilledNext(block, origkeylen, stride, k, key[..]);
    var i;
    i, writes' := Scatter(out, key, origkeylen, stride, count - 1, amt', writes);
    keylen' := keylen - i;
  }
}
