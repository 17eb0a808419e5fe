/** The mutable context and the operations that read or rewrite it in place. */
module Blowfish {
  import opened Sequences
  import opened Arithmetic
  import opened Words
  import opened Cipher
  import opened BlockModes
  import opened CipherLaws
  import opened KeySchedule

  /** The word moved up by a byte, its top byte lost, with b in the free place. */
  function ShiftIn(w: word, b: byte): word { w % 0x100_0000 * 0x100 + b }

  function Shifted(k: KeySchedule.Key, pos: nat, n: nat): word {
    if n == 0 then 0 else ShiftIn(Shifted(k, pos, n - 1), Cyclic(k, pos + n - 1))
  }

  lemma ShiftInFour(b0: byte, b1: byte, b2: byte, b3: byte)
    ensures ShiftIn(ShiftIn(ShiftIn(ShiftIn(0, b0), b1), b2), b3) == Pack(b0, b1, b2, b3)
  {}

  lemma ShiftedWord(k: KeySchedule.Key, pos: nat)
    ensures Shifted(k, pos, 4) == StreamWord(k, pos)
  {
    ShiftInFour(Cyclic(k, pos), Cyclic(k, pos + 1), Cyclic(k, pos + 2), Cyclic(k, pos + 3));
    assert Shifted(k, pos, 1) == ShiftIn(0, Cyclic(k, pos));
    assert Shifted(k, pos, 2) == ShiftIn(Shifted(k, pos, 1), Cyclic(k, pos + 1));
    assert Shifted(k, pos, 3) == ShiftIn(Shifted(k, pos, 2), Cyclic(k, pos + 2));
  }

  function Wrapped(n: nat, j: nat): nat { if j >= n then 0 else j }

  /** Where the cursor rests after pos bytes. It wraps lazily, so it may rest one past the end until the next read. */
  function Cursor(n: nat, pos: nat): nat {
    if pos == 0 then 0 else Wrapped(n, Cursor(n, pos - 1)) + 1
  }

  /** The next byte read is the one at pos modulo the length. */
  lemma {:induction false} CursorIsModulo(n: nat, pos: nat)
    requires n > 0
    ensures Cursor(n, pos) <= n && Wrapped(n, Cursor(n, pos)) == pos % n
  {
    if pos > 0 {
      CursorIsModulo(n, pos - 1);
      var j := (pos - 1) % n;
      ModSmall(j, n);
      ModAdd(pos - 1, j, 1, n);
      if j + 1 < n { ModSmall(j + 1, n); } else { ModShift(0, n); ModSmall(0, n); }
    }
  }

  /** Reads four bytes through the cursor; pos is where the cursor stands in the endless stream. */
  method Stream2Word(data: KeySchedule.Key, current: nat, ghost pos: nat) returns (temp: word, next: nat)
    requires current == Cursor(|data|, pos)
    ensures temp == StreamWord(data, pos)
    ensures next == Cursor(|data|, pos + 4)
  {
    temp := 0;
    next := current;
    for i := 0 to 4
      invariant next == Cursor(|data|, pos + i)
      invariant temp == Shifted(data, pos, i)
    {
      CursorIsModulo(|data|, pos + i);
      if next >= |data| {
        next := 0;
      }
      temp := ShiftIn(temp, data[next]);
      next := next + 1;
    }
    ShiftedWord(data, pos);
  }

  /** Step n's two salt words are mixed into the running block. */
  method MixSalt(data: KeySchedule.Key, current: nat, ghost n: nat, l: word, r: word)
    returns (l': word, r': word, next: nat)
    requires current == Cursor(|data|, 8 * n)
    ensures Halves(l', r') == Salting(Salted(data), n, Halves(l, r))
    ensures next == Cursor(|data|, 8 * (n + 1))
  {
    hide StreamWord, Xor, Cursor;
    var w;
    w, next := Stream2Word(data, current, 8 * n);
    l' := Xor(l, w);
    w, next := Stream2Word(data, next, 8 * n + 4);
    r' := Xor(r, w);
  }

  /** How many salt bytes have been read when the refill of S-box i begins. */
  function BoxStart(i: nat): nat { 8 * (9 + 128 * i) }

  lemma Advance(start: Tables, salt: Salt, n: nat, t: Tables, h: Halves)
    requires n < STEPS
    requires var f := Refilled(start, salt, n); h == Encrypt(f.t, Salting(salt, n, f.h)) && t == Put(f.t, n, h)
    ensures Refill(t, h) == Refilled(start, salt, n + 1)
  {}

  class Context {
    const P: array<word>
    const S: array<word>

    ghost predicate Valid()
      reads this
    {
      P != S && P.Length == 18 && S.Length == 1024
    }

    function Value(): Tables
      requires Valid()
      reads this, P, S
    {
      Tables(P[..], S[..])
    }

    /** Blowfish_initstate: copy the initial tables, whatever they hold. */
    constructor (initstate: Tables)
      ensures Valid() && Value() == initstate && fresh(P) && fresh(S)
    {
      P := new word[18](i requires 0 <= i < 18 => initstate.p[i]);
      S := new word[1024](i requires 0 <= i < 1024 => initstate.s[i]);
      new;
      assert P[..] == initstate.p && S[..] == initstate.s;
    }

    /** The round macro: i becomes i xor (F(j) xor P[n]). With P[n] the next subkey of a schedule t, that
        carries the network one round on. */
    method Blfrnd(i: word, j: word, n: nat, ghost t: Tables, ghost k: nat, ghost start: Halves) returns (i': word)
      requires Valid() && n < 18 && k < 17
      requires t.s == S[..] && t.p[k + 1] == P[n]
      requires Rounds(t, k, start) == Halves(j, i)
      ensures Rounds(t, k + 1, start) == Halves(i', j)
    {
      i' := Xor(i, Xor(F(S[..], j), P[n]));
    }

    /** One line of the unrolled rounds: two uses of the macro. */
    method RoundPair(l: word, r: word, m: nat, n: nat, ghost t: Tables, ghost k: nat, ghost start: Halves)
      returns (l': word, r': word)
      requires Valid() && m < 18 && n < 18 && k < 16
      requires t.s == S[..] && t.p[k + 1] == P[m] && t.p[k + 2] == P[n]
      requires Rounds(t, k, start) == Halves(l, r)
      ensures Rounds(t, k + 2, start) == Halves(l', r')
    {
      r' := Blfrnd(r, l, m, t, k, start);
      l' := Blfrnd(l, r', n, t, k + 1, start);
    }

    method Encipher(xl: word, xr: word) returns (yl: word, yr: word)
      requires Valid()
      ensures Halves(yl, yr) == Encrypt(Value(), Halves(xl, xr))
    {
      ghost var t, k := Value(), 0;
      var l, r := Xor(xl, P[0]), xr;
      ghost var start := Halves(l, r);
      l, r := RoundPair(l, r, 1, 2, t, k, start);
      k := k + 2;
      l, r := RoundPair(l, r, 3, 4, t, k, start);
      k := k + 2;
      l, r := RoundPair(l, r, 5, 6, t, k, start);
      k := k + 2;
      l, r := RoundPair(l, r, 7, 8, t, k, start);
      k := k + 2;
      l, r := RoundPair(l, r, 9, 10, t, k, start);
      k := k + 2;
      l, r := RoundPair(l, r, 11, 12, t, k, start);
      k := k + 2;
      l, r := RoundPair(l, r, 13, 14, t, k, start);
      k := k + 2;
      l, r := RoundPair(l, r, 15, 16, t, k, start);
      k := k + 2;
      NetworkOutput(t, k, Halves(xl, xr), Halves(l, r));
      yl := Xor(r, P[17]);
      yr := l;
    }

    method Decipher(xl: word, xr: word) returns (yl: word, yr: word)
      requires Valid()
      ensures Halves(yl, yr) == Decrypt(Value(), Halves(xl, xr))
    {
      ghost var t, k := Reversed(Value()), 0;
      assert forall i :: 0 <= i < 18 ==> t.p[i] == P[17 - i];
      var l, r := Xor(xl, P[17]), xr;
      ghost var start := Halves(l, r);
      l, r := RoundPair(l, r, 16, 15, t, k, start);
      k := k + 2;
      l, r := RoundPair(l, r, 14, 13, t, k, start);
      k := k + 2;
      l, r := RoundPair(l, r, 12, 11, t, k, start);
      k := k + 2;
      l, r := RoundPair(l, r, 10, 9, t, k, start);
      k := k + 2;
      l, r := RoundPair(l, r, 8, 7, t, k, start);
      k := k + 2;
      l, r := RoundPair(l, r, 6, 5, t, k, start);
      k := k + 2;
      l, r := RoundPair(l, r, 4, 3, t, k, start);
      k := k + 2;
      l, r := RoundPair(l, r, 2, 1, t, k, start);
      k := k + 2;
      NetworkOutput(t, k, Halves(xl, xr), Halves(l, r));
      yl := Xor(r, P[0]);
      yr := l;
    }

    /** Encipher the running block and store it over the n-th pair of subkeys. */
    method RewriteSubkeys(n: nat, xl: word, xr: word) returns (yl: word, yr: word)
      requires Valid() && n < 9
      modifies P
      ensures Halves(yl, yr) == Encrypt(old(Value()), Halves(xl, xr))
      ensures Value() == Put(old(Value()), n, Halves(yl, yr))
    {
      yl, yr := Encipher(xl, xr);
      P[2 * n] := yl;
      P[2 * n + 1] := yr;
      assert P[..] == old(P[..])[2 * n := yl][2 * n + 1 := yr];
    }

    /** The same for the m-th pair of S-box entries, the boxes taken as one table. */
    method RewriteBoxes(m: nat, xl: word, xr: word) returns (yl: word, yr: word)
      requires Valid() && m < 512
      modifies S
      ensures Halves(yl, yr) == Encrypt(old(Value()), Halves(xl, xr))
      ensures Value() == Put(old(Value()), 9 + m, Halves(yl, yr))
    {
      yl, yr := Encipher(xl, xr);
      S[2 * m] := yl;
      S[2 * m + 1] := yr;
      assert S[..] == old(S[..])[2 * m := yl][2 * m + 1 := yr];
    }

    /** Every subkey is xored with its key word. */
    method MixKey(key: KeySchedule.Key)
      requires Valid()
      modifies P
      ensures Value() == Keyed(old(Value()), key)
    {
      var j := 0;
      ghost var was := P[..];
      for i := 0 to 18
        invariant j == Cursor(|key|, 4 * i)
        invariant S[..] == old(S[..])
        invariant forall k :: 0 <= k < i ==> P[k] == Xor(was[k], StreamWord(key, 4 * k))
        invariant forall k :: i <= k < 18 ==> P[k] == was[k]
      {
        var temp;
        temp, j := Stream2Word(key, j, 4 * i);
        P[i] := Xor(P[i], temp);
      }
      assert P[..] == Keyed(old(Value()), key).p;
    }

    /** The inner loop of expand0state: S-box i, two entries at a time. */
    method RefillBox(i: nat, xl: word, xr: word, ghost start: Tables) returns (l: word, r: word)
      requires Valid() && i < 4
      requires Refill(Value(), Halves(xl, xr)) == Refilled(start, NoSalt, 9 + 128 * i)
      modifies S
      ensures Refill(Value(), Halves(l, r)) == Refilled(start, NoSalt, 9 + 128 * (i + 1))
    {
      l, r := xl, xr;
      ghost var n := 9 + 128 * i;
      var k := 0;
      while k < 128
        invariant 0 <= k <= 128 && n == 9 + 128 * i + k
        invariant Refill(Value(), Halves(l, r)) == Refilled(start, NoSalt, n)
      {
        l, r := RewriteBoxes(128 * i + k, l, r);
        Advance(start, NoSalt, n, Value(), Halves(l, r));
        k, n := k + 1, n + 1;
      }
    }

    /** The inner loop of expandstate, which also mixes in the salt. */
    method SaltBox(i: nat, data: KeySchedule.Key, current: nat, xl: word, xr: word, ghost start: Tables)
      returns (l: word, r: word, j: nat)
      requires Valid() && i < 4 && current == Cursor(|data|, BoxStart(i))
      requires Refill(Value(), Halves(xl, xr)) == Refilled(start, Salted(data), 9 + 128 * i)
      modifies S
      ensures j == Cursor(|data|, BoxStart(i + 1))
      ensures Refill(Value(), Halves(l, r)) == Refilled(start, Salted(data), 9 + 128 * (i + 1))
    {
      l, r, j := xl, xr, current;
      ghost var n := 9 + 128 * i;
      var k := 0;
      while k < 128
        invariant 0 <= k <= 128 && n == 9 + 128 * i + k
        invariant j == Cursor(|data|, 8 * n)
        invariant Refill(Value(), Halves(l, r)) == Refilled(start, Salted(data), n)
      {
        l, r, j := MixSalt(data, j, n, l, r);
        l, r := RewriteBoxes(128 * i + k, l, r);
        Advance(start, Salted(data), n, Value(), Halves(l, r));
        k, n := k + 1, n + 1;
      }
    }

    method Expand0State(key: KeySchedule.Key)
      requires Valid()
      modifies P, S
      ensures Value() == Expand(old(Value()), NoSalt, key)
    {
      MixKey(key);
      ghost var start := Value();
      var datal, datar := 0, 0;
      for n := 0 to 9
        invariant Refill(Value(), Halves(datal, datar)) == Refilled(start, NoSalt, n)
      {
        datal, datar := RewriteSubkeys(n, datal, datar);
        Advance(start, NoSalt, n, Value(), Halves(datal, datar));
      }
      for i := 0 to 4
        invariant Refill(Value(), Halves(datal, datar)) == Refilled(start, NoSalt, 9 + 128 * i)
      {
        datal, datar := RefillBox(i, datal, datar, start);
      }
    }

    /** The subkey loop of expandstate. */
    method SaltSubkeys(data: KeySchedule.Key, ghost start: Tables) returns (l: word, r: word, j: nat)
      requires Valid() && start == Value()
      modifies P
      ensures j == Cursor(|data|, BoxStart(0))
      ensures Refill(Value(), Halves(l, r)) == Refilled(start, Salted(data), 9)
    {
      l, r, j := 0, 0, 0;
      for n := 0 to 9
        invariant j == Cursor(|data|, 8 * n)
        invariant Refill(Value(), Halves(l, r)) == Refilled(start, Salted(data), n)
      {
        l, r, j := MixSalt(data, j, n, l, r);
        l, r := RewriteSubkeys(n, l, r);
        Advance(start, Salted(data), n, Value(), Halves(l, r));
      }
    }

    method ExpandState(data: KeySchedule.Key, key: KeySchedule.Key)
      requires Valid()
      modifies P, S
      ensures Value() == Expand(old(Value()), Salted(data), key)
    {
      MixKey(key);
      ghost var start := Value();
      var datal, datar, j := SaltSubkeys(data, start);
      var i := 0;
      ghost var n := 9;
      while i < 4
        invariant 0 <= i <= 4 && n == 9 + 128 * i
        invariant j == Cursor(|data|, BoxStart(i))
        invariant Refill(Value(), Halves(datal, datar)) == Refilled(start, Salted(data), n)
      {
        datal, datar, j := SaltBox(i, data, j, datal, datar, start);
        i, n := i + 1, n + 128;
      }
    }

    method Key(initstate: Tables, key: KeySchedule.Key)
      requires Valid()
      modifies P, S
      ensures Value() == Expand(initstate, NoSalt, key)
    {
      forall i | 0 <= i < 18 { P[i] := initstate.p[i]; }
      forall i | 0 <= i < 1024 { S[i] := initstate.s[i]; }
      assert P[..] == initstate.p && S[..] == initstate.s;
      Expand0State(key);
    }

    /** blf_enc: encipher word pairs in place. */
    method Enc(data: array<word>, blocks: nat)
      requires Valid() && data != P && data != S && 2 * blocks <= data.Length
      modifies data
      ensures data[..] == PairsDone(EncipheringPair(Value()), old(data[..]), blocks)
    {
      ghost var f, was := EncipheringPair(Value()), data[..];
      PairsNone(f, was);
      for i := 0 to blocks
        invariant data[..] == PairsDone(f, was, i)
      {
        PairsAdvance(f, was, i);
        var l, r := Encipher(data[2 * i], data[2 * i + 1]);
        StorePair(data, i, l, r);
      }
    }

    /** blf_dec */
    method Dec(data: array<word>, blocks: nat)
      requires Valid() && data != P && data != S && 2 * blocks <= data.Length
      modifies data
      ensures data[..] == PairsDone(EncipheringPair(Reversed(Value())), old(data[..]), blocks)
    {
      ghost var f, was := EncipheringPair(Reversed(Value())), data[..];
      PairsNone(f, was);
      for i := 0 to blocks
        invariant data[..] == PairsDone(f, was, i)
      {
        PairsAdvance(f, was, i);
        var l, r := Decipher(data[2 * i], data[2 * i + 1]);
        StorePair(data, i, l, r);
      }
    }

    method EncipherAt(data: array<byte>, off: nat)
      requires Valid() && off + 8 <= data.Length
      modifies data
      ensures data[..] == Applied(Enciphering(Value()), old(data[..]), off)
    {
      var l, r := Load(data, off);
      l, r := Encipher(l, r);
      Store(data, off, l, r);
    }

    method DecipherAt(data: array<byte>, off: nat)
      requires Valid() && off + 8 <= data.Length
      modifies data
      ensures data[..] == Applied(Deciphering(Value()), old(data[..]), off)
    {
      var l, r := Load(data, off);
      l, r := Decipher(l, r);
      Store(data, off, l, r);
    }

    method EcbEncrypt(data: array<byte>, len: nat)
      requires Valid() && Padded(len) <= data.Length
      modifies data
      ensures data[..] == EcbDone(Enciphering(Value()), old(data[..]), Blocks(len))
    {
      ghost var f, was, b := Enciphering(Value()), data[..], 0;
      EcbNone(f, was);
      var i := 0;
      while i < len
        invariant i == 8 * b && b <= Blocks(len)
        invariant data[..] == EcbDone(f, was, b)
      {
        BlocksBound(len, b);
        EcbAdvance(f, was, b);
        EncipherAt(data, i);
        i := i + 8;
        b := b + 1;
      }
      BlocksBound(len, b);
    }

    method EcbDecrypt(data: array<byte>, len: nat)
      requires Valid() && Padded(len) <= data.Length
      modifies data
      ensures data[..] == EcbDone(Deciphering(Value()), old(data[..]), Blocks(len))
    {
      ghost var f, was, b := Deciphering(Value()), data[..], 0;
      EcbNone(f, was);
      var i := 0;
      while i < len
        invariant i == 8 * b && b <= Blocks(len)
        invariant data[..] == EcbDone(f, was, b)
      {
        BlocksBound(len, b);
        EcbAdvance(f, was, b);
        DecipherAt(data, i);
        i := i + 8;
        b := b + 1;
      }
      BlocksBound(len, b);
    }

    /** The IV pointer starts at the caller's IV and then follows one block behind the data pointer. */
    method CbcEncryptInPlace(iv: array<byte>, data: array<byte>, len: nat)
      requires Valid() && iv != data && iv.Length >= 8 && Padded(len) <= data.Length
      modifies data
      ensures data[..] == CbcEncryptBuffer(Value(), BlockAt(iv[..], 0), old(data[..]), len)
    {
      hide CbcDone, CbcEncryptBuffer, Mask, Applied, Masked;
      ghost var f, was, b := Enciphering(Value()), data[..], 0;
      ghost var iv0 := BlockAt(iv[..], 0);
      CbcNone(f, iv0, was);
      var i := 0;
      var ivBuf, ivOff := iv, 0;
      while i < len
        invariant i == 8 * b && b <= Blocks(len)
        invariant data[..] == CbcDone(f, iv0, was, b)
        invariant if i == 0 then ivBuf == iv && ivOff == 0 else ivBuf == data && ivOff == i - 8
        invariant BlockAt(iv[..], 0) == iv0
      {
        BlocksBound(len, b);
        CbcAdvance(f, iv0, was, b);
        XorInto(data, i, ivBuf, ivOff, Mask(f, iv0, was, b));
        EncipherAt(data, i);
        ivBuf, ivOff := data, i;
        i := i + 8;
        b := b + 1;
      }
      BlocksBound(len, b);
      CbcAll(Value(), iv0, was, len);
    }

    /** One block of the decryption: deciphered, then xored with the ciphertext before it or with the IV. */
    method DecipherXor(data: array<byte>, off: nat, iv: array<byte>, ivOff: nat, ghost mask: Block)
      requires Valid() && off + 8 <= data.Length && ivOff + 8 <= iv.Length
      requires data == iv ==> ivOff + 8 <= off
      requires mask == BlockAt(iv[..], ivOff)
      modifies data
      ensures data[..] == Masked(Applied(Deciphering(Value()), old(data[..]), off), off, mask)
    {
      ghost var was := data[..];
      DecipherAt(data, off);
      if data == iv {
        assert BlockAt(data[..], ivOff) == BlockAt(was, ivOff);
      }
      XorInto(data, off, iv, ivOff, mask);
    }

    /** Works backwards, so that each block is still ciphertext when the block after it needs it. */
    method CbcDecryptInPlace(iva: array<byte>, data: array<byte>, len: nat)
      requires Valid() && iva != data && iva.Length >= 8 && 8 <= len <= data.Length
      modifies data
      ensures data[..] == CbcDecryptBuffer(Value(), BlockAt(iva[..], 0), old(data[..]), len)
    {
      hide CbcLeft, CbcDecryptBuffer, Applied, Masked;
      ghost var g, was, iv0 := Deciphering(Value()), data[..], BlockAt(iva[..], 0);
      ghost var m := 0;
      CbcWhole(g, was, len);
      var i := len - 8;
      while i >= 8
        invariant i == len - 8 - 8 * m && i >= 0
        invariant data[..] == CbcLeft(g, was, i, m)
        invariant BlockAt(iva[..], 0) == iv0
      {
        CbcRetreatNext(g, was, i, m);
        DecipherXor(data, i, data, i - 8, BlockAt(was, i - 8));
        i := i - 8;
        m := m + 1;
      }
      CbcLast(Value(), iv0, was, len, i, m);
      DecipherXor(data, i, iva, 0, iv0);
    }
  }

  /** s with the bytes from off on replaced by b. */
  function Splice<T>(s: seq<T>, off: nat, b: seq<T>): (r: seq<T>)
    requires off + |b| <= |s|
    ensures |r| == |s|
  {
    s[..off] + b + s[off + |b|..]
  }

  /** s with the block at off put through f. */
  function Applied(f: BlockFn, s: seq<byte>, off: nat): (r: seq<byte>)
    requires off + 8 <= |s|
    ensures |r| == |s|
  {
    Splice(s, off, f(BlockAt(s, off)))
  }

  /** s with the block at off xored with a mask. */
  function Masked(s: seq<byte>, off: nat, mask: Block): (r: seq<byte>)
    requires off + 8 <= |s|
    ensures |r| == |s|
  {
    Splice(s, off, XorBlock(BlockAt(s, off), mask))
  }

  method Load(data: array<byte>, off: nat) returns (l: word, r: word)
    requires off + 8 <= data.Length
    ensures Halves(l, r) == FromBlock(BlockAt(data[..], off))
  {
    l := Pack(data[off], data[off + 1], data[off + 2], data[off + 3]);
    r := Pack(data[off + 4], data[off + 5], data[off + 6], data[off + 7]);
  }

  method Store(data: array<byte>, off: nat, l: word, r: word)
    requires off + 8 <= data.Length
    modifies data
    ensures data[..] == Splice(old(data[..]), off, ToBlock(Halves(l, r)))
  {
    StoreWord(data, off, l);
    StoreWord(data, off + 4, r);
    SpliceTwice(old(data[..]), off, BigEndian(l), BigEndian(r));
  }

  method StoreWord(data: array<byte>, off: nat, w: word)
    requires off + 4 <= data.Length
    modifies data
    ensures data[..] == Splice(old(data[..]), off, BigEndian(w))
  {
    data[off] := Byte0(w);
    data[off + 1] := Byte1(w);
    data[off + 2] := Byte2(w);
    data[off + 3] := Byte3(w);
  }

  lemma SpliceTwice<T>(s: seq<T>, off: nat, a: seq<T>, b: seq<T>)
    requires off + |a| + |b| <= |s|
    ensures Splice(Splice(s, off, a), off + |a|, b) == Splice(s, off, a + b)
  {}

  method StorePair(data: array<word>, i: nat, l: word, r: word)
    requires 2 * i + 2 <= data.Length
    modifies data
    ensures data[..] == Splice(old(data[..]), 2 * i, [l, r])
  {
    data[2 * i] := l;
    data[2 * i + 1] := r;
  }

  /** Xors the eight bytes of a block with those of the IV, one by one. */
  method XorInto(data: array<byte>, off: nat, iv: array<byte>, ivOff: nat, ghost mask: Block)
    requires off + 8 <= data.Length && ivOff + 8 <= iv.Length
    requires data == iv ==> ivOff + 8 <= off
    requires mask == BlockAt(iv[..], ivOff)
    modifies data
    ensures data[..] == Masked(old(data[..]), off, mask)
  {
    hide XorByte, Masked;
    ghost var was := data[..];
    for j := 0 to 8
      invariant forall k :: 0 <= k < 8 ==> iv[ivOff + k] == mask[k]
      invariant forall k :: 0 <= k < data.Length ==>
        data[k] == if off <= k < off + j then XorByte(was[k], mask[k - off]) else was[k]
    {
      data[off + j] := XorByte(data[off + j], iv[ivOff + j]);
    }
    MaskedIs(was, off, mask, data[..]);
  }

  lemma MaskedIs(s: seq<byte>, off: nat, mask: Block, s': seq<byte>)
    requires off + 8 <= |s| == |s'|
    requires forall k :: 0 <= k < |s| ==> s'[k] == if off <= k < off + 8 then XorByte(s[k], mask[k - off]) else s[k]
    ensures s' == Masked(s, off, mask)
  {
    hide XorByte;
    var m := Masked(s, off, mask);
    forall k | 0 <= k < |s|
      ensures s'[k] == m[k]
    {
      if off <= k < off + 8 {
        assert BlockAt(s, off)[k - off] == s[k];
        assert m[k] == XorBlock(BlockAt(s, off), mask)[k - off];
      }
    }
  }

  function PairsDone(f: PairFn, d: seq<word>, n: nat): seq<word>
    requires 2 * n <= |d|
  {
    Pairs(f, d[..2 * n]) + d[2 * n..]
  }

  /** The first n pairs of words are each put through f, and nothing else changes. */
  lemma PairsDoneAt(f: PairFn, d: seq<word>, n: nat, i: nat)
    requires 2 * n <= |d| && i < n
    ensures |PairsDone(f, d, n)| == |d| && PairsDone(f, d, n)[2 * n..] == d[2 * n..]
    ensures Halves(PairsDone(f, d, n)[2 * i], PairsDone(f, d, n)[2 * i + 1]) == f(Halves(d[2 * i], d[2 * i + 1]))
  {
    hide Pairs;
    Behind(Pairs(f, d[..2 * n]), d[2 * n..]);
    PairsAt(f, d[..2 * n], i);
  }

  lemma PairsNone(f: PairFn, d: seq<word>)
    ensures PairsDone(f, d, 0) == d
  {}

  lemma PairsAdvance(f: PairFn, d: seq<word>, i: nat)
    requires 2 * i + 2 <= |d|
    ensures var s := PairsDone(f, d, i);
            var h := f(Halves(s[2 * i], s[2 * i + 1]));
            |s| == |d| && PairsDone(f, d, i + 1) == Splice(s, 2 * i, [h.l, h.r])
  {
    var h := Halves(d[2 * i], d[2 * i + 1]);
    assert d[..2 * (i + 1)] == d[..2 * i] + [h.l, h.r];
    PairsSplit(f, d[..2 * i], [h.l, h.r]);
    PairsCons(f, h, []);
    assert [h.l, h.r] + [] == [h.l, h.r];
  }

  function EcbDone(f: BlockFn, d: seq<byte>, n: nat): seq<byte>
    requires 8 * n <= |d|
  {
    Ecb(f, d[..8 * n]) + d[8 * n..]
  }

  /** The first n blocks are each put through f, and nothing else changes. */
  lemma EcbDoneAt(f: BlockFn, d: seq<byte>, n: nat, i: nat)
    requires 8 * n <= |d| && i < n
    ensures |EcbDone(f, d, n)| == |d| && EcbDone(f, d, n)[8 * n..] == d[8 * n..]
    ensures BlockAt(EcbDone(f, d, n), 8 * i) == f(BlockAt(d, 8 * i))
  {
    hide Ecb, BlockAt;
    var front, after := d[..8 * n], d[8 * n..];
    Behind(Ecb(f, front), after);
    Rejoin(d, 8 * n);
    BlockInFront(front, after, 8 * i);
    BlockInFront(Ecb(f, front), after, 8 * i);
    EcbAt(f, front, i);
  }

  lemma EcbNone(f: BlockFn, d: seq<byte>)
    ensures EcbDone(f, d, 0) == d
  {}

  lemma EcbAdvance(f: BlockFn, d: seq<byte>, n: nat)
    requires 8 * n + 8 <= |d|
    ensures |EcbDone(f, d, n)| == |d|
    ensures EcbDone(f, d, n + 1) == Applied(f, EcbDone(f, d, n), 8 * n)
  {
    var i := 8 * n;
    var done, b, rest := d[..i], d[i..i + 8], d[i + 8..];
    EcbSnoc(f, done, b);
    assert d[..8 * (n + 1)] == done + b;
    SpliceMiddle(Ecb(f, done), b, rest, f(b));
    assert Ecb(f, done) + d[i..] == Ecb(f, done) + b + rest;
  }

  lemma SpliceMiddle<T>(a: seq<T>, b: seq<T>, c: seq<T>, b': seq<T>)
    requires |b| == |b'|
    ensures (a + b + c)[|a|..|a| + |b|] == b
    ensures Splice(a + b + c, |a|, b') == a + b' + c
  {}

  function CbcDone(f: BlockFn, iv: Block, d: seq<byte>, n: nat): seq<byte>
    requires 8 * n <= |d|
  {
    CbcEncrypt(f, iv, d[..8 * n]) + d[8 * n..]
  }

  /** What block n is xored with: the ciphertext block before it, or the IV. */
  function Mask(f: BlockFn, iv: Block, d: seq<byte>, n: nat): Block
    requires 8 * n <= |d|
  {
    LastBlock(iv, CbcEncrypt(f, iv, d[..8 * n]))
  }

  lemma CbcNone(f: BlockFn, iv: Block, d: seq<byte>)
    ensures CbcDone(f, iv, d, 0) == d && Mask(f, iv, d, 0) == iv
  {}

  lemma CbcAll(t: Tables, iv: Block, d: seq<byte>, len: nat)
    requires Padded(len) <= |d|
    ensures CbcDone(Enciphering(t), iv, d, Blocks(len)) == CbcEncryptBuffer(t, iv, d, len)
  {}

  lemma CbcAdvance(f: BlockFn, iv: Block, d: seq<byte>, n: nat)
    requires 8 * n + 8 <= |d|
    ensures var s := CbcDone(f, iv, d, n);
            && |s| == |d|
            && (n > 0 ==> BlockAt(s, 8 * n - 8) == Mask(f, iv, d, n))
            && (n == 0 ==> iv == Mask(f, iv, d, n))
            && CbcDone(f, iv, d, n + 1) == Applied(f, Masked(s, 8 * n, Mask(f, iv, d, n)), 8 * n)
  {
    var i := 8 * n;
    var done, b, rest := d[..i], d[i..i + 8], d[i + 8..];
    var c := CbcEncrypt(f, iv, done);
    var x := XorBlock(b, LastBlock(iv, c));
    assert d[..8 * (n + 1)] == done + b;
    CbcEncryptSnoc(f, iv, done, b);
    assert c + d[i..] == c + b + rest;
    SpliceMiddle(c, b, rest, x);
    SpliceMiddle(c, x, rest, f(x));
  }

  /** The block at i and everything before it is still ciphertext; the m blocks after it are plain. */
  function CbcLeft(g: BlockFn, d: seq<byte>, i: nat, m: nat): seq<byte>
    requires i + 8 + 8 * m <= |d|
  {
    d[..i + 8] + CbcDecrypt(g, d[i..i + 8], d[i + 8..i + 8 + 8 * m]) + d[i + 8 + 8 * m..]
  }

  lemma CbcWhole(g: BlockFn, d: seq<byte>, len: nat)
    requires 8 <= len <= |d|
    ensures CbcLeft(g, d, len - 8, 0) == d
  {}

  lemma CbcRetreat(g: BlockFn, iv: Block, d: seq<byte>, i: nat, m: nat)
    requires i + 8 + 8 * m <= |d|
    ensures var s, end := CbcLeft(g, d, i, m), i + 8 + 8 * m;
            && |s| == |d|
            && Applied(g, s, i)[..i] == d[..i]
            && Masked(Applied(g, s, i), i, iv) == d[..i] + CbcDecrypt(g, iv, d[i..end]) + d[end..]
  {
    hide CbcDecrypt, CbcLeft, Splice, XorBlock;
    var end := i + 8 + 8 * m;
    var a, b, rest := d[..i], d[i..i + 8], d[i + 8..end];
    var x, plain := XorBlock(g(b), iv), CbcDecrypt(g, b, rest);
    var tail := plain + d[end..];
    CbcDecryptCons(g, iv, b, rest);
    JoinSlices(d, i, i + 8, end);
    CbcLeftParts(g, d, i, m);
    SpliceMiddle(a, b, tail, g(b));
    SpliceMiddle(a, g(b), tail, x);
    Behind(a, g(b) + tail);
    Assoc(a, g(b), tail);
    Assoc(x, plain, d[end..]);
    Assoc(a, x, tail);
    Assoc(a, x + plain, d[end..]);
  }

  lemma CbcLeftParts(g: BlockFn, d: seq<byte>, i: nat, m: nat)
    requires i + 8 + 8 * m <= |d|
    ensures var end := i + 8 + 8 * m;
            CbcLeft(g, d, i, m) == d[..i] + d[i..i + 8] + (CbcDecrypt(g, d[i..i + 8], d[i + 8..end]) + d[end..])
  {
    hide CbcDecrypt;
    var end := i + 8 + 8 * m;
    JoinSlices(d, 0, i, i + 8);
    Assoc(d[..i + 8], CbcDecrypt(g, d[i..i + 8], d[i + 8..end]), d[end..]);
  }

  lemma CbcRetreatNext(g: BlockFn, d: seq<byte>, i: nat, m: nat)
    requires 8 <= i && i + 8 + 8 * m <= |d|
    ensures var s := CbcLeft(g, d, i, m);
            && |s| == |d|
            && BlockAt(s, i - 8) == BlockAt(d, i - 8)
            && Masked(Applied(g, s, i), i, BlockAt(d, i - 8)) == CbcLeft(g, d, i - 8, m + 1)
  {
    CbcRetreat(g, d[i - 8..i], d, i, m);
    var s := CbcLeft(g, d, i, m);
    assert s[..i] == d[..i];
    assert s[i - 8..i] == s[..i][i - 8..i];
    assert d[i - 8..i] == d[..i][i - 8..i];
  }

  /** The first block, under the IV, finishes the buffer. */
  lemma CbcLast(t: Tables, iv: Block, d: seq<byte>, len: nat, i: nat, m: nat)
    requires i < 8 && len == i + 8 + 8 * m <= |d|
    ensures var g := Deciphering(t);
            Masked(Applied(g, CbcLeft(g, d, i, m), i), i, iv) == CbcDecryptBuffer(t, iv, d, len)
  {
    hide CbcLeft, CbcDecrypt, Masked, Applied;
    CbcRetreat(Deciphering(t), iv, d, i, m);
    Remainder(len, m, i);
  }

  lemma Remainder(len: nat, m: nat, i: nat)
    requires i < 8 && len == i + 8 + 8 * m
    ensures len % 8 == i
  {}
}
