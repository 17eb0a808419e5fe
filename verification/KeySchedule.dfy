/** The key schedule on values: how key and salt bytes rewrite the tables. */
module KeySchedule {
  import opened Arithmetic
  import opened Words
  import opened Cipher

  type Key = k: seq<byte> | 0 < |k| < 0x1_0000 witness [0]

  /** Byte i of the key repeated for ever. */
  function Cyclic(k: Key, i: nat): byte { k[i % |k|] }

  /** The four bytes of that stream from position i, as a big-endian word. */
  function StreamWord(k: Key, i: nat): word {
    Pack(Cyclic(k, i), Cyclic(k, i + 1), Cyclic(k, i + 2), Cyclic(k, i + 3))
  }

  function Keyed(t: Tables, key: Key): Tables {
    Tables(seq(18, i requires 0 <= i < 18 => Xor(t.p[i], StreamWord(key, 4 * i))), t.s)
  }

  datatype Salt = NoSalt | Salted(bytes: Key)

  function Salting(salt: Salt, n: nat, h: Halves): Halves {
    match salt
    case NoSalt => h
    case Salted(d) => Halves(Xor(h.l, StreamWord(d, 8 * n)), Xor(h.r, StreamWord(d, 8 * n + 4)))
  }

  const STEPS: nat := 521

  /** Step n of the refill writes the n-th pair of entries: nine pairs of subkeys, then the S-boxes. */
  function Put(t: Tables, n: nat, h: Halves): Tables
    requires n < STEPS
  {
    if n < 9 then Tables(t.p[2 * n := h.l][2 * n + 1 := h.r], t.s)
    else Tables(t.p, t.s[2 * (n - 9) := h.l][2 * (n - 9) + 1 := h.r])
  }

  datatype Refill = Refill(t: Tables, h: Halves)

  function NextRefill(f: Refill, salt: Salt, n: nat): Refill
    requires n < STEPS
  {
    var h := Encrypt(f.t, Salting(salt, n, f.h));
    Refill(Put(f.t, n, h), h)
  }

  type StepFn = (nat, Refill) -> Refill

  function RefillStep(salt: Salt): StepFn {
    (n: nat, f: Refill) => if n < STEPS then NextRefill(f, salt, n) else f
  }

  function Iterate(step: StepFn, n: nat, start: Refill): Refill {
    if n == 0 then start else step(n - 1, Iterate(step, n - 1, start))
  }

  /** The tables and running block after n steps. Each step enciphers under the half-rewritten tables. */
  function Refilled(t: Tables, salt: Salt, n: nat): Refill {
    Iterate(RefillStep(salt), n, Refill(t, Halves(0, 0)))
  }

  function Expand(t: Tables, salt: Salt, key: Key): Tables {
    Refilled(Keyed(t, key), salt, STEPS).t
  }

  ghost predicate SameStream(k1: Key, k2: Key, n: nat) {
    forall i: nat :: i < n ==> Cyclic(k1, i) == Cyclic(k2, i)
  }

  /** Keys mix into the tables identically exactly when their streams agree on the first 72 bytes. */
  lemma KeyedDependsOn72(t: Tables, k1: Key, k2: Key)
    ensures Keyed(t, k1) == Keyed(t, k2) <==> SameStream(k1, k2, 72)
  {
    if SameStream(k1, k2, 72) {
      assert Keyed(t, k1).p == Keyed(t, k2).p;
    }
    if Keyed(t, k1) == Keyed(t, k2) {
      forall i: nat | i < 72 ensures Cyclic(k1, i) == Cyclic(k2, i) {
        KeyedWordEqual(t, k1, k2, i / 4);
        assert i == 4 * (i / 4) + i % 4;
      }
    }
  }

  lemma KeyedWord(t: Tables, k: Key, w: nat)
    requires w < 18
    ensures |Keyed(t, k).p| == 18 && Keyed(t, k).p[w] == Xor(t.p[w], StreamWord(k, 4 * w))
  {}

  lemma KeyedWordEqual(t: Tables, k1: Key, k2: Key, w: nat)
    requires w < 18 && Keyed(t, k1).p == Keyed(t, k2).p
    ensures forall i: nat :: 4 * w <= i < 4 * w + 4 ==> Cyclic(k1, i) == Cyclic(k2, i)
  {
    hide Keyed, Xor, Cyclic, Pack;
    var i := 4 * w;
    KeyedWord(t, k1, w);
    KeyedWord(t, k2, w);
    XorInjective(t.p[w], StreamWord(k1, i), StreamWord(k2, i));
    PackInjective(Cyclic(k1, i), Cyclic(k1, i + 1), Cyclic(k1, i + 2), Cyclic(k1, i + 3),
                  Cyclic(k2, i), Cyclic(k2, i + 1), Cyclic(k2, i + 2), Cyclic(k2, i + 3));
  }

  lemma PackInjective(a0: byte, a1: byte, a2: byte, a3: byte, b0: byte, b1: byte, b2: byte, b3: byte)
    requires Pack(a0, a1, a2, a3) == Pack(b0, b1, b2, b3)
    ensures a0 == b0 && a1 == b1 && a2 == b2 && a3 == b3
  {
    UnpackPack(a0, a1, a2, a3);
    UnpackPack(b0, b1, b2, b3);
  }

  lemma XorInjective(a: word, b: word, c: word)
    requires Xor(a, b) == Xor(a, c)
    ensures b == c
  {
    XorCommutes(a, b);
    XorCommutes(a, c);
    XorCancels(b, a);
    XorCancels(c, a);
  }

  lemma XorCommutes(a: word, b: word)
    ensures Xor(a, b) == Xor(b, a)
  {
    XorBitsCommutes(32, a, b);
  }

  lemma {:induction false} XorBitsCommutes(n: nat, a: nat, b: nat)
    ensures XorBits(n, a, b) == XorBits(n, b, a)
  {
    if n > 0 { XorBitsCommutes(n - 1, a / 2, b / 2); }
  }

  /** So the expanded context depends on no byte of the repeated key after the 72nd. */
  lemma ExpandDependsOn72(t: Tables, salt: Salt, k1: Key, k2: Key)
    requires SameStream(k1, k2, 72)
    ensures Expand(t, salt, k1) == Expand(t, salt, k2)
  {
    KeyedDependsOn72(t, k1, k2);
  }

  lemma LongKeyTruncates(t: Tables, salt: Salt, key: Key)
    requires |key| >= 72
    ensures Expand(t, salt, key) == Expand(t, salt, key[..72])
  {
    forall i: nat | i < 72 ensures Cyclic(key, i) == Cyclic(key[..72], i) {
      if |key| > 72 { ModSmall(i, |key|); }
      ModSmall(i, 72);
    }
    ExpandDependsOn72(t, salt, key, key[..72]);
  }

  function Repeat(k: seq<byte>, m: nat): (r: seq<byte>)
    ensures |r| == m * |k|
  {
    if m == 0 then [] else k + Repeat(k, m - 1)
  }

  lemma {:induction false} RepeatIndex(k: Key, m: nat, i: nat)
    requires i < m * |k|
    ensures Repeat(k, m)[i] == k[i % |k|]
  {
    if i < |k| {
      ModSmall(i, |k|);
    } else {
      assert m * |k| == |k| + (m - 1) * |k|;
      RepeatIndex(k, m - 1, i - |k|);
      ModShift(i - |k|, |k|);
    }
  }

  /** A key and any number of copies of it in a row give the same context. */
  lemma RepeatedKeySame(t: Tables, salt: Salt, key: Key, m: nat)
    requires 0 < m && m * |key| < 0x1_0000
    ensures |Repeat(key, m)| > 0 && Expand(t, salt, Repeat(key, m)) == Expand(t, salt, key)
  {
    ModMultiple(0, m, |key|);
    var long: Key := Repeat(key, m);
    forall i: nat | i < 72 ensures Cyclic(long, i) == Cyclic(key, i) {
      ModMultiple(i, m, |key|);
      RepeatIndex(key, m, i % |long|);
    }
    ExpandDependsOn72(t, salt, long, key);
  }

  ghost predicate AllZero(k: Key) { forall i :: 0 <= i < |k| ==> k[i] == 0 }

  lemma ZeroWord(zeros: Key, i: nat)
    requires AllZero(zeros)
    ensures StreamWord(zeros, i) == 0
  {
    forall j: nat ensures Cyclic(zeros, j) == 0 {}
  }

  lemma ZeroSalting(f: Refill, zeros: Key, n: nat)
    requires AllZero(zeros) && n < STEPS
    ensures NextRefill(f, Salted(zeros), n) == NextRefill(f, NoSalt, n)
  {
    ZeroWord(zeros, 8 * n);
    ZeroWord(zeros, 8 * n + 4);
    XorZero(f.h.l);
    XorZero(f.h.r);
    assert Salting(Salted(zeros), n, f.h) == f.h;
  }

  lemma {:induction false} IterateCongruent(s1: StepFn, s2: StepFn, n: nat, start: Refill)
    requires forall i: nat, f {:trigger s1(i, f)} :: s1(i, f) == s2(i, f)
    ensures Iterate(s1, n, start) == Iterate(s2, n, start)
  {
    if n > 0 { IterateCongruent(s1, s2, n - 1, start); }
  }

  /** A salt of zero bytes, of any length, is no salt: expandstate then computes expand0state. */
  lemma ZeroSaltIsNoSalt(t: Tables, zeros: Key, key: Key)
    requires AllZero(zeros)
    ensures Expand(t, Salted(zeros), key) == Expand(t, NoSalt, key)
  {
    var s1, s2 := RefillStep(Salted(zeros)), RefillStep(NoSalt);
    forall i: nat, f {:trigger s1(i, f)} ensures s1(i, f) == s2(i, f) {
      if i < STEPS { ZeroSalting(f, zeros, i); }
    }
    IterateCongruent(s1, s2, STEPS, Refill(Keyed(t, key), Halves(0, 0)));
  }
}
