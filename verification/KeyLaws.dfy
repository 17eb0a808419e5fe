/** What key expansion does with key and salt, as equations between the entries that go in and those that come out. */
module KeyLaws {
  import opened Arithmetic
  import opened Words
  import opened Cipher
  import opened KeySchedule

  // Mixing in the key.

  /** Word i of a text repeated for ever, by its bytes. */
  ghost predicate IsWord(d: Key, i: nat, w: word) {
    w == Number([d[(4 * i) % |d|], d[(4 * i + 1) % |d|], d[(4 * i + 2) % |d|], d[(4 * i + 3) % |d|]])
  }

  lemma StreamWordIs(d: Key, i: nat)
    ensures IsWord(d, i, StreamWord(d, 4 * i))
    ensures forall w: word :: IsWord(d, i, w) ==> w == StreamWord(d, 4 * i)
  {
    hide Number, Pack;
    PackIsNumber([d[(4 * i) % |d|], d[(4 * i + 1) % |d|], d[(4 * i + 2) % |d|], d[(4 * i + 3) % |d|]]);
  }

  /** b is a mixed with word i of the text. */
  ghost predicate IsMixed(d: Key, i: nat, a: word, b: word) { exists w: word :: IsWord(d, i, w) && b == Xor(a, w) }

  lemma IsMixedMeans(d: Key, i: nat, a: word, b: word)
    ensures IsMixed(d, i, a, b) <==> b == Xor(a, StreamWord(d, 4 * i))
  {
    hide IsWord, Xor, StreamWord;
    StreamWordIs(d, i);
  }

  /** t' is t with each subkey mixed with its word of the key. */
  ghost predicate KeyMixed(t: Tables, key: Key, t': Tables) {
    && t'.s == t.s
    && forall i: nat | i < 18 :: IsMixed(key, i, t.p[i], t'.p[i])
  }

  lemma KeyMixedIs(t: Tables, key: Key, t': Tables)
    ensures KeyMixed(t, key, t') <==> t' == Keyed(t, key)
  {
    hide IsMixed, Xor, StreamWord;
    forall i: nat | i < 18
      ensures Keyed(t, key).p[i] == Xor(t.p[i], StreamWord(key, 4 * i))
      ensures IsMixed(key, i, t.p[i], t'.p[i]) <==> t'.p[i] == Xor(t.p[i], StreamWord(key, 4 * i))
    {
      KeyedWord(t, key, i);
      IsMixedMeans(key, i, t.p[i], t'.p[i]);
    }
    if KeyMixed(t, key, t') {
      assert t'.p == Keyed(t, key).p;
    }
  }

  /** The key acts through the mixed subkeys and in no other way: what is left is the expansion under zeros. */
  lemma KeyIsMixedIn(t: Tables, salt: Salt, key: Key, t': Tables, zeros: Key)
    requires KeyMixed(t, key, t') && AllZero(zeros)
    ensures Expand(t, salt, key) == Expand(t', salt, zeros)
  {
    KeyMixedIs(t, key, t');
    forall i: nat | i < 18
      ensures Keyed(t', zeros).p[i] == t'.p[i]
    {
      ZeroWord(zeros, 4 * i);
      XorZero(t'.p[i]);
    }
    assert Keyed(t', zeros).p == t'.p;
  }

  // Rewriting the tables.

  /** All entries in the order in which they are rewritten. */
  const ENTRIES: nat := 1042

  function Entry(t: Tables, i: nat): word
    requires i < ENTRIES
  {
    if i < 18 then t.p[i] else t.s[i - 18]
  }

  function PairAt(t: Tables, n: nat): Halves
    requires n < STEPS
  {
    Halves(Entry(t, 2 * n), Entry(t, 2 * n + 1))
  }

  /** m holds the first n pairs of e and, behind them, the entries of t. */
  ghost predicate Joins(m: Tables, e: Tables, t: Tables, n: nat)
    requires n <= STEPS
  {
    forall i: nat | i < ENTRIES :: Entry(m, i) == if i < 2 * n then Entry(e, i) else Entry(t, i)
  }

  /** What a pair is enciphered from: the one before it, mixed with the next two words of the salt. */
  ghost predicate MixedWith(salt: Salt, n: nat, before: Halves, h: Halves) {
    match salt
    case NoSalt => h == before
    case Salted(d) => IsMixed(d, 2 * n, before.l, h.l) && IsMixed(d, 2 * n + 1, before.r, h.r)
  }

  lemma MixedWithIs(salt: Salt, n: nat, before: Halves, h: Halves)
    ensures MixedWith(salt, n, before, h) <==> h == Salting(salt, n, before)
  {
    hide IsMixed, Xor, StreamWord;
    if salt.Salted? {
      IsMixedMeans(salt.bytes, 2 * n, before.l, h.l);
      IsMixedMeans(salt.bytes, 2 * n + 1, before.r, h.r);
      assert 4 * (2 * n) == 8 * n && 4 * (2 * n + 1) == 8 * n + 4;
    }
  }

  lemma PutEntry(t: Tables, n: nat, h: Halves, i: nat)
    requires n < STEPS && i < ENTRIES
    ensures Entry(Put(t, n, h), i) == if i == 2 * n then h.l else if i == 2 * n + 1 then h.r else Entry(t, i)
  {}

  /** Step n of the rewriting, and what it leaves alone. */
  lemma StepEntries(t: Tables, salt: Salt, n: nat, i: nat)
    requires n < STEPS && i < ENTRIES
    ensures var f, f' := Refilled(t, salt, n), Refilled(t, salt, n + 1);
            && f'.h == Encrypt(f.t, Salting(salt, n, f.h))
            && Entry(f'.t, i) == if i == 2 * n then f'.h.l else if i == 2 * n + 1 then f'.h.r else Entry(f.t, i)
  {
    hide Encrypt, Salting, Put, Entry;
    var f := Refilled(t, salt, n);
    PutEntry(f.t, n, Encrypt(f.t, Salting(salt, n, f.h)), i);
  }

  /** Entries that are not yet due are those of the start; entries once written stay. */
  lemma {:induction false} EntriesStay(t: Tables, salt: Salt, m: nat, n: nat, i: nat)
    requires m <= n <= STEPS && i < ENTRIES && (i < 2 * m || 2 * n <= i)
    ensures Entry(Refilled(t, salt, n).t, i) == Entry(Refilled(t, salt, m).t, i)
    decreases n
  {
    hide Refilled, Entry, Encrypt;
    if m < n {
      EntriesStay(t, salt, m, n - 1, i);
      StepEntries(t, salt, n - 1, i);
    }
  }

  lemma StartOf(t: Tables, salt: Salt)
    ensures Refilled(t, salt, 0) == Refill(t, Halves(0, 0))
  {}

  /** The running block is the pair written last. */
  lemma RunningBlock(t: Tables, salt: Salt, n: nat)
    requires n <= STEPS
    ensures Refilled(t, salt, n).h == if n == 0 then Halves(0, 0) else PairAt(Refilled(t, salt, STEPS).t, n - 1)
  {
    hide Refilled, Entry, Encrypt;
    StartOf(t, salt);
    if n > 0 {
      StepEntries(t, salt, n - 1, 2 * n - 2);
      StepEntries(t, salt, n - 1, 2 * n - 1);
      EntriesStay(t, salt, n, STEPS, 2 * n - 2);
      EntriesStay(t, salt, n, STEPS, 2 * n - 1);
    }
  }

  lemma SameEntries(a: Tables, b: Tables)
    requires forall i: nat | i < ENTRIES :: Entry(a, i) == Entry(b, i)
    ensures a == b
  {
    forall i | 0 <= i < 18
      ensures a.p[i] == b.p[i]
    {
      assert Entry(a, i) == Entry(b, i);
    }
    forall i | 0 <= i < 1024
      ensures a.s[i] == b.s[i]
    {
      assert Entry(a, i + 18) == Entry(b, i + 18);
    }
    assert a.p == b.p && a.s == b.s;
  }

  lemma HalfRewritten(t: Tables, salt: Salt, n: nat, m: Tables)
    requires n <= STEPS && Joins(m, Refilled(t, salt, STEPS).t, t, n)
    ensures m == Refilled(t, salt, n).t
  {
    hide Refilled, Entry;
    forall i: nat | i < ENTRIES
      ensures Entry(m, i) == Entry(Refilled(t, salt, n).t, i)
    {
      StartOf(t, salt);
      if i < 2 * n {
        EntriesStay(t, salt, n, STEPS, i);
      } else {
        EntriesStay(t, salt, 0, n, i);
      }
    }
    SameEntries(m, Refilled(t, salt, n).t);
  }

  /** Each pair of the result is the pair before it, for the first a pair of zeros, mixed with the next two words of the
      salt and enciphered under the tables rewritten so far. */
  lemma PairIsEnciphered(t: Tables, salt: Salt, key: Key, t': Tables, n: nat, m: Tables, h: Halves)
    requires KeyMixed(t, key, t') && n < 521
    requires Joins(m, Expand(t, salt, key), t', n)
    requires MixedWith(salt, n, if n == 0 then Halves(0, 0) else PairAt(Expand(t, salt, key), n - 1), h)
    ensures PairAt(Expand(t, salt, key), n) == Encrypt(m, h)
  {
    hide Refilled, Entry, Encrypt, Keyed, Salting, MixedWith, Joins, KeyMixed;
    KeyMixedIs(t, key, t');
    var f := Refilled(t', salt, n);
    RunningBlock(t', salt, n);
    RunningBlock(t', salt, n + 1);
    HalfRewritten(t', salt, n, m);
    MixedWithIs(salt, n, f.h, h);
    StepEntries(t', salt, n, 0);
  }

  /** The tables rewritten so far, and the mixed block, for every pair. */
  lemma PartsExist(e: Tables, t: Tables, salt: Salt, n: nat, before: Halves) returns (m: Tables, h: Halves)
    requires n < STEPS
    ensures Joins(m, e, t, n) && MixedWith(salt, n, before, h)
  {
    hide IsMixed, Salting;
    m := Joined(e, t, n);
    JoinedJoins(e, t, n);
    h := Salting(salt, n, before);
    MixedWithIs(salt, n, before, h);
  }

  function Joined(e: Tables, t: Tables, n: nat): Tables {
    Tables(seq(18, i requires 0 <= i < 18 => if i < 2 * n then e.p[i] else t.p[i]),
           seq(1024, i requires 0 <= i < 1024 => if i + 18 < 2 * n then e.s[i] else t.s[i]))
  }

  lemma JoinedJoins(e: Tables, t: Tables, n: nat)
    requires n <= STEPS
    ensures Joins(Joined(e, t, n), e, t, n)
  {}
}
