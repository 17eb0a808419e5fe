/** Base64 by its alphabet and by the numbers that groups spell, apart from the shifts and masks of the code. */
module Base64Laws {
  import opened Sequences
  import opened Words
  import opened Base64

  /** The alphabet by character codes: capitals, small letters, digits, plus and slash. */
  lemma TableIs(v: Sextet)
    ensures TableChar(v) as int == if v < 26 then 65 + v else if v < 52 then 71 + v else if v < 62 then v - 4
                                   else if v == 62 then 43 else 47
  {}

  /** The number that values of six bits spell, the most significant first. */
  function Spelled(q: seq<Sextet>): int {
    if q == [] then 0 else 64 * Spelled(q[..|q| - 1]) + q[|q| - 1]
  }

  function Horner(base: int, a: int, b: int, c: int, d: int): int { base * (base * (base * a + b) + c) + d }

  lemma SpelledFour(q: seq<Sextet>)
    requires |q| == 4
    ensures Spelled(q) == Horner(64, q[0], q[1], q[2], q[3])
  {
    assert q[..3][..2] == q[..2] && q[..2][..1] == q[..1] && q[..1][..0] == [];
    assert Spelled(q[..1]) == q[0];
    assert Spelled(q[..2]) == 64 * Spelled(q[..1]) + q[1];
    assert Spelled(q[..3]) == 64 * Spelled(q[..2]) + q[2];
  }

  lemma NumberThree(b: seq<byte>)
    requires |b| == 3
    ensures Number(b) == Horner(0x100, 0, b[0], b[1], b[2])
  {
    assert b[..2][..1] == b[..1] && b[..1][..0] == [];
    assert Number(b[..1]) == b[0];
    assert Number(b[..2]) == 0x100 * Number(b[..1]) + b[1];
  }

  lemma GroupSpells(b0: byte, b1: byte, b2: byte)
    ensures Horner(64, First(b0), Second(b0, b1), Third(b1, b2), Fourth(b2)) == Horner(0x100, 0, b0, b1, b2)
  {
    assert b0 == 4 * (b0 / 4) + b0 % 4 && b1 == 16 * (b1 / 16) + b1 % 16 && b2 == 64 * (b2 / 64) + b2 % 64;
  }

  lemma SameDigit(x: int, a: Sextet, y: int, b: Sextet)
    requires 64 * x + a == 64 * y + b
    ensures x == y && a == b
  {}

  /** Values are determined by the number they spell. */
  lemma {:induction false} SpelledOnce(p: seq<Sextet>, q: seq<Sextet>)
    requires |p| == |q| && Spelled(p) == Spelled(q)
    ensures p == q
  {
    if p != [] {
      var n := |p| - 1;
      SameDigit(Spelled(p[..n]), p[n], Spelled(q[..n]), q[n]);
      SpelledOnce(p[..n], q[..n]);
      assert p == p[..n] + [p[n]] && q == q[..n] + [q[n]];
    }
  }

  /** Three bytes give four characters of the same number. */
  lemma EncodeThreeIs(b: seq<byte>, q: seq<Sextet>)
    requires |b| >= 3 && |q| == 4 && Spelled(q) == Number(b[..3])
    ensures Encode(b) == [TableChar(q[0]), TableChar(q[1]), TableChar(q[2]), TableChar(q[3])] + Encode(b[3..])
  {
    hide Encode, TableChar, Spelled, Number;
    var g := [First(b[0]), Second(b[0], b[1]), Third(b[1], b[2]), Fourth(b[2])];
    EncodeThree(b);
    NumberThree(b[..3]);
    GroupSpells(b[0], b[1], b[2]);
    SpelledFour(g);
    SpelledOnce(g, q);
  }

  /** What is left of one or two bytes is filled up with zeros, whose characters are replaced by '='. */
  lemma EncodeRestIs(b: seq<byte>, q: seq<Sextet>)
    requires 1 <= |b| <= 2 && |q| == 4
    requires Spelled(q) == Number(if |b| == 1 then [b[0], 0, 0] else [b[0], b[1], 0])
    ensures Encode(b) == [TableChar(q[0]), TableChar(q[1]), if |b| == 1 then '=' else TableChar(q[2]), '=']
  {
    hide Encode, TableChar, Spelled, Number;
    var b1 := if |b| == 1 then 0 else b[1];
    var g := [First(b[0]), Second(b[0], b1), Third(b1, 0), Fourth(0)];
    EncodeShort(b);
    NumberThree([b[0], b1, 0]);
    GroupSpells(b[0], b1, 0);
    SpelledFour(g);
    SpelledOnce(g, q);
  }

  lemma EncodeNone()
    ensures Encode([]) == ""
  {}

  /** The decoder passes over everything but letters, digits, plus and slash. */
  lemma DecodeSkips(s: string, c: char, t: string)
    requires !('A' <= c <= 'Z') && !('a' <= c <= 'z') && !('0' <= c <= '9') && c != '+' && c != '/'
    ensures Decode(s + [c] + t) == Decode(s + t)
  {
    Assoc(s, [c], t);
    SextetsConcat(s, [c] + t);
    SextetsConcat([c], t);
    SextetsConcat(s, t);
    assert [c][1..] == "" && Sextets([c]) == [];
    Empty(Sextets(t));
  }

  predicate Means(c: char) { 'A' <= c <= 'Z' || 'a' <= c <= 'z' || '0' <= c <= '9' || c == '+' || c == '/' }

  /** How many characters of the alphabet there are. */
  function Meaning(s: string): nat {
    if s == "" then 0 else (if Means(s[0]) then 1 else 0) + Meaning(s[1..])
  }

  lemma {:induction false} SextetsCount(s: string)
    ensures |Sextets(s)| == Meaning(s)
  {
    if s != "" {
      SextetsCount(s[1..]);
    }
  }

  /** A text is refused exactly when its characters leave a single one over. */
  lemma DecodeFails(s: string)
    ensures Decode(s).None? <==> Meaning(s) % 4 == 1
  {
    SextetsCount(s);
  }

  lemma GroupOfBytes(v0: Sextet, v1: Sextet, v2: Sextet, v3: Sextet)
    ensures Horner(0x100, 0, Upper(v0, v1), Middle(v1, v2), Lower(v2, v3)) == Horner(64, v0, v1, v2, v3)
  {
    assert v1 == 16 * (v1 / 16) + v1 % 16 && v2 == 4 * (v2 / 4) + v2 % 4;
  }

  /** Four values give the three bytes of the same number. */
  lemma BytesOfFour(q: seq<Sextet>)
    requires |q| >= 4
    ensures |Bytes(q)| >= 3 && Number(Bytes(q)[..3]) == Spelled(q[..4]) && Bytes(q)[3..] == Bytes(q[4..])
  {
    hide Number, Spelled;
    var b := [Upper(q[0], q[1]), Middle(q[1], q[2]), Lower(q[2], q[3])];
    Behind(b, Bytes(q[4..]));
    NumberThree(b);
    SpelledFour(q[..4]);
    GroupOfBytes(q[0], q[1], q[2], q[3]);
  }
}
