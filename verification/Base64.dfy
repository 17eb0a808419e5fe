/** Base64 as the library codes it: the decoder skips every character outside the alphabet. */
module Base64 {
  import opened Sequences
  import opened Words

  type Sextet = v: int | 0 <= v < 64

  datatype Option<+T> = None | Some(value: T)

  function TableChar(v: Sextet): char {
    if v < 26 then 'A' + v as char
    else if v < 52 then 'a' + (v - 26) as char
    else if v < 62 then '0' + (v - 52) as char
    else if v == 62 then '+'
    else '/'
  }

  /** The reverse table: -1 for characters that mean nothing. */
  function Reverse(c: char): (v: int)
    ensures -1 <= v < 64
  {
    if 'A' <= c <= 'Z' then c as int - 'A' as int
    else if 'a' <= c <= 'z' then c as int - 'a' as int + 26
    else if '0' <= c <= '9' then c as int - '0' as int + 52
    else if c == '+' then 62
    else if c == '/' then 63
    else -1
  }

  lemma ReverseOfTable(v: Sextet)
    ensures Reverse(TableChar(v)) == v
  {}

  // Four values of six bits from three bytes, and back.

  function First(b0: byte): Sextet { b0 / 4 }
  function Second(b0: byte, b1: byte): Sextet { b0 % 4 * 16 + b1 / 16 }
  function Third(b1: byte, b2: byte): Sextet { b1 % 16 * 4 + b2 / 64 }
  function Fourth(b2: byte): Sextet { b2 % 64 }

  function Upper(v0: Sextet, v1: Sextet): byte { v0 * 4 + v1 / 16 }
  function Middle(v1: Sextet, v2: Sextet): byte { v1 % 16 * 16 + v2 / 4 }
  function Lower(v2: Sextet, v3: Sextet): byte { v2 % 4 * 64 + v3 }

  lemma GroupInverts(b0: byte, b1: byte, b2: byte)
    ensures Upper(First(b0), Second(b0, b1)) == b0
    ensures Middle(Second(b0, b1), Third(b1, b2)) == b1
    ensures Lower(Third(b1, b2), Fourth(b2)) == b2
  {}

  /** The six-bit values of a run of bytes; a short last group is filled up with zero bits. */
  function Values(b: seq<byte>): seq<Sextet> {
    if |b| == 0 then []
    else if |b| == 1 then [First(b[0]), Second(b[0], 0)]
    else if |b| == 2 then [First(b[0]), Second(b[0], b[1]), Third(b[1], 0)]
    else [First(b[0]), Second(b[0], b[1]), Third(b[1], b[2]), Fourth(b[2])] + Values(b[3..])
  }

  function Chars(q: seq<Sextet>): (s: string)
    ensures |s| == |q|
  {
    seq(|q|, i requires 0 <= i < |q| => TableChar(q[i]))
  }

  function Padding(n: nat): string {
    if n % 3 == 1 then "==" else if n % 3 == 2 then "=" else ""
  }

  function Encode(b: seq<byte>): string {
    Chars(Values(b)) + Padding(|b|)
  }

  /** The values of the characters that mean something. */
  function Sextets(s: string): seq<Sextet> {
    if s == "" then []
    else
      var v := Reverse(s[0]);
      if v < 0 then Sextets(s[1..]) else [v] + Sextets(s[1..])
  }

  /** Three bytes from each four values; a remainder of two or three values gives one or two bytes. */
  function Bytes(q: seq<Sextet>): seq<byte> {
    if |q| < 2 then []
    else if |q| == 2 then [Upper(q[0], q[1])]
    else if |q| == 3 then [Upper(q[0], q[1]), Middle(q[1], q[2])]
    else [Upper(q[0], q[1]), Middle(q[1], q[2]), Lower(q[2], q[3])] + Bytes(q[4..])
  }

  function Decode(s: string): Option<seq<byte>> {
    var q := Sextets(s);
    if |q| % 4 == 1 then None else Some(Bytes(q))
  }

  lemma {:induction false} SextetsConcat(s: string, t: string)
    ensures Sextets(s + t) == Sextets(s) + Sextets(t)
  {
    if s == "" {
      assert s + t == t;
    } else {
      assert (s + t)[1..] == s[1..] + t;
      SextetsConcat(s[1..], t);
    }
  }

  lemma {:induction false} SextetsCons(v: Sextet, s: string)
    ensures Sextets([TableChar(v)] + s) == [v] + Sextets(s)
  {
    ReverseOfTable(v);
    assert ([TableChar(v)] + s)[1..] == s;
  }

  lemma {:induction false} SextetsOfChars(q: seq<Sextet>)
    ensures Sextets(Chars(q)) == q
  {
    if q != [] {
      SextetsOfChars(q[1..]);
      SextetsCons(q[0], Chars(q[1..]));
      assert Chars(q) == [TableChar(q[0])] + Chars(q[1..]);
    }
  }

  lemma {:induction false} SextetsOfPadding(n: nat)
    ensures Sextets(Padding(n)) == []
  {
    assert "="[1..] == "" && "=="[1..] == "=";
  }

  lemma EncodedSextets(b: seq<byte>)
    ensures Sextets(Encode(b)) == Values(b)
  {
    SextetsOfChars(Values(b));
    SextetsOfPadding(|b|);
    SextetsConcat(Chars(Values(b)), Padding(|b|));
  }

  lemma {:induction false} BytesOfQuad(v0: Sextet, v1: Sextet, v2: Sextet, v3: Sextet, rest: seq<Sextet>)
    ensures Bytes([v0, v1, v2, v3] + rest) == [Upper(v0, v1), Middle(v1, v2), Lower(v2, v3)] + Bytes(rest)
  {
    assert ([v0, v1, v2, v3] + rest)[4..] == rest;
  }

  lemma {:induction false} BytesOfValues(b: seq<byte>)
    ensures Bytes(Values(b)) == b
  {
    if |b| < 3 {
      BytesOfShort(b);
    } else {
      BytesOfValues(b[3..]);
      var b0, b1, b2 := b[0], b[1], b[2];
      var rest := Values(b[3..]);
      calc {
        Bytes(Values(b));
        Bytes([First(b0), Second(b0, b1), Third(b1, b2), Fourth(b2)] + rest);
        { BytesOfQuad(First(b0), Second(b0, b1), Third(b1, b2), Fourth(b2), rest); }
        [Upper(First(b0), Second(b0, b1)), Middle(Second(b0, b1), Third(b1, b2)), Lower(Third(b1, b2), Fourth(b2))]
        + Bytes(rest);
        { GroupInverts(b0, b1, b2); }
        [b0, b1, b2] + b[3..];
        b;
      }
    }
  }

  lemma {:induction false} ValuesLength(b: seq<byte>)
    ensures |Values(b)| + |Padding(|b|)| == (|b| + 2) / 3 * 4
    ensures |Values(b)| % 4 != 1
  {
    if |b| >= 3 {
      ValuesLength(b[3..]);
      PaddingPeriod(|b| - 3);
      assert |Values(b)| == 4 + |Values(b[3..])|;
    }
  }

  lemma PaddingPeriod(n: nat)
    ensures Padding(n + 3) == Padding(n) && (n + 3 + 2) / 3 == (n + 2) / 3 + 1
  {}

  lemma BytesOfLast(v0: Sextet, v1: Sextet, v2: Sextet)
    ensures Bytes([v0, v1]) == [Upper(v0, v1)]
    ensures Bytes([v0, v1, v2]) == [Upper(v0, v1), Middle(v1, v2)]
  {
    var two, three := [v0, v1], [v0, v1, v2];
    assert |two| == 2 && |three| == 3;
  }

  lemma {:induction false} BytesOfShort(b: seq<byte>)
    requires |b| < 3
    ensures Bytes(Values(b)) == b
  {
    if |b| == 1 {
      BytesOfOne(b[0]);
      assert b == [b[0]];
    } else if |b| == 2 {
      BytesOfTwo(b[0], b[1]);
      assert b == [b[0], b[1]];
    }
  }

  lemma BytesOfOne(b0: byte)
    ensures Bytes(Values([b0])) == [b0]
  {
    calc {
      Bytes(Values([b0]));
      Bytes([First(b0), Second(b0, 0)]);
      { BytesOfLast(First(b0), Second(b0, 0), 0); }
      [Upper(First(b0), Second(b0, 0))];
      { GroupInverts(b0, 0, 0); }
      [b0];
    }
  }

  lemma BytesOfTwo(b0: byte, b1: byte)
    ensures Bytes(Values([b0, b1])) == [b0, b1]
  {
    calc {
      Bytes(Values([b0, b1]));
      Bytes([First(b0), Second(b0, b1), Third(b1, 0)]);
      { BytesOfLast(First(b0), Second(b0, b1), Third(b1, 0)); }
      [Upper(First(b0), Second(b0, b1)), Middle(Second(b0, b1), Third(b1, 0))];
      { GroupInverts(b0, b1, 0); }
      [b0, b1];
    }
  }

  /** Decoding undoes encoding, whatever the bytes and however many there are. */
  lemma DecodeInvertsEncode(b: seq<byte>)
    ensures Decode(Encode(b)) == Some(b)
  {
    EncodedSextets(b);
    BytesOfValues(b);
    ValuesLength(b);
  }

  predicate InAlphabet(c: char) { Reverse(c) >= 0 || c == '=' }

  lemma EncodeShape(b: seq<byte>)
    ensures |Encode(b)| == (|b| + 2) / 3 * 4
    ensures forall c <- Encode(b) :: InAlphabet(c)
  {
    ValuesLength(b);
    forall i | 0 <= i < |Values(b)|
      ensures InAlphabet(Chars(Values(b))[i])
    {
      ReverseOfTable(Values(b)[i]);
    }
  }

  /** The four characters for one, two or three bytes. */
  function Group(b0: byte, b1: byte, b2: byte, parts: nat): string {
    [TableChar(First(b0)), TableChar(Second(b0, b1)),
     if parts == 1 then '=' else TableChar(Third(b1, b2)), if parts <= 2 then '=' else TableChar(Fourth(b2))]
  }

  lemma CharsOfGroup(v0: Sextet, v1: Sextet, v2: Sextet, v3: Sextet, q: seq<Sextet>)
    ensures Chars([v0, v1, v2, v3] + q) == [TableChar(v0), TableChar(v1), TableChar(v2), TableChar(v3)] + Chars(q)
  {}

  lemma CharsOfLast(v0: Sextet, v1: Sextet, v2: Sextet)
    ensures Chars([v0, v1]) == [TableChar(v0), TableChar(v1)]
    ensures Chars([v0, v1, v2]) == [TableChar(v0), TableChar(v1), TableChar(v2)]
  {}

  lemma {:induction false} EncodeThree(b: seq<byte>)
    requires |b| >= 3
    ensures Encode(b) == Group(b[0], b[1], b[2], 3) + Encode(b[3..])
  {
    PaddingPeriod(|b| - 3);
    CharsOfGroup(First(b[0]), Second(b[0], b[1]), Third(b[1], b[2]), Fourth(b[2]), Values(b[3..]));
  }

  lemma EncodeShort(b: seq<byte>)
    requires 1 <= |b| <= 2
    ensures Encode(b) == Group(b[0], if |b| > 1 then b[1] else 0, 0, |b|)
  {
    if |b| == 1 {
      CharsOfLast(First(b[0]), Second(b[0], 0), 0);
    } else {
      CharsOfLast(First(b[0]), Second(b[0], b[1]), Third(b[1], 0));
    }
  }

  /** One turn of the encoder's loop: the output for the next three bytes, or for what is left of them. */
  lemma EncodeStep(inp: seq<byte>, i: nat, parts: nat, b1: byte, b2: byte, out: string)
    requires i < |inp| && parts == (if |inp| - i < 3 then |inp| - i else 3)
    requires b1 == (if parts > 1 then inp[i + 1] else 0) && b2 == (if parts > 2 then inp[i + 2] else 0)
    ensures (out + Group(inp[i], b1, b2, parts)) + Encode(inp[i + parts..]) == out + Encode(inp[i..])
  {
    var b, group := inp[i..], Group(inp[i], b1, b2, parts);
    assert inp[i + parts..] == b[parts..];
    if parts == 3 {
      EncodeThree(b);
      Assoc(out, group, Encode(b[3..]));
    } else {
      EncodeShort(b);
      Assoc(out, group, []);
      assert b[parts..] == [] && Encode(b[parts..]) == [];
    }
  }

  /** What the encoder takes: a length of zero makes it take the bytes before the first zero in memory instead. */
  function Measured(bytes: seq<byte>, behind: seq<byte>): seq<byte> {
    if bytes == [] then behind else bytes
  }

  /** The encoder's loop: up to three bytes at a time, padded with '=' at the end. behind is what a string that starts
      where the input does holds, when the length given is zero. */
  method EncodeBytes(bytes: seq<byte>, behind: seq<byte>) returns (out: string)
    ensures out == Encode(Measured(bytes, behind))
  {
    var inp := if |bytes| == 0 then behind else bytes;
    out := "";
    var i := 0;
    while i < |inp|
      invariant 0 <= i <= |inp|
      invariant out + Encode(inp[i..]) == Encode(inp)
    {
      var inputparts := if |inp| - i < 3 then |inp| - i else 3;
      var ibuf1: byte := if inputparts > 1 then inp[i + 1] else 0;
      var ibuf2: byte := if inputparts > 2 then inp[i + 2] else 0;
      EncodeStep(inp, i, inputparts, ibuf1, ibuf2, out);
      out := out + Group(inp[i], ibuf1, ibuf2, inputparts);
      i := i + inputparts;
    }
    assert inp[i..] == [];
  }

  /** The bits already received of the byte under construction after the values q. */
  function Partial(q: seq<Sextet>): byte {
    if |q| % 4 == 0 then 0 else Remaining(|q| % 4, q[|q| - 1])
  }

  /** What a value in that place of its group leaves for the next byte. */
  function Remaining(place: nat, v: Sextet): byte {
    var left: int :=
      if place == 1 then v * 4 else if place == 2 then v % 16 * 16 else if place == 3 then v % 4 * 64 else 0;
    left
  }

  /** The byte that one more value completes. */
  function Completed(phase: nat, current: byte, v: Sextet): seq<int> {
    if phase == 0 then [] else if phase == 1 then [current + v / 16]
    else if phase == 2 then [current + v / 4] else [current + v]
  }

  lemma {:induction false} BytesSnoc(q: seq<Sextet>, v: Sextet)
    ensures Bytes(q + [v]) == Bytes(q) + Completed(|q| % 4, Partial(q), v)
  {
    if |q| < 4 {
      assert |q| % 4 == |q|;
      BytesSnocShort(q, v);
    } else {
      BytesSnoc(q[4..], v);
      assert (q + [v])[4..] == q[4..] + [v];
      PartialOfRest(q);
    }
  }

  lemma PartialOfRest(q: seq<Sextet>)
    requires |q| >= 4
    ensures |q[4..]| % 4 == |q| % 4 && Partial(q[4..]) == Partial(q)
  {
    assert |q[4..]| % 4 == |q| % 4;
  }

  /** A short sequence written out, and with one more element. */
  lemma Spelled<T>(q: seq<T>, v: T)
    ensures |q| == 0 ==> q + [v] == [v]
    ensures |q| == 1 ==> q == [q[0]] && q + [v] == [q[0], v]
    ensures |q| == 2 ==> q == [q[0], q[1]] && q + [v] == [q[0], q[1], v]
    ensures |q| == 3 ==> q == [q[0], q[1], q[2]] && q + [v] == [q[0], q[1], q[2], v]
  {}

  lemma BytesSnocShort(q: seq<Sextet>, v: Sextet)
    requires |q| < 4
    ensures Bytes(q + [v]) == Bytes(q) + Completed(|q|, Partial(q), v)
  {
    Spelled(q, v);
    if |q| == 1 {
      SnocOntoOne(q[0], v);
    } else if |q| == 2 {
      SnocOntoTwo(q[0], q[1], v);
    } else if |q| == 3 {
      SnocOntoThree(q[0], q[1], q[2], v);
    }
  }

  lemma TooFew(v: Sextet)
    ensures Bytes([v]) == []
  {}

  lemma SnocOntoOne(v0: Sextet, v: Sextet)
    ensures Bytes([v0, v]) == Bytes([v0]) + Completed(1, Partial([v0]), v)
  {
    hide Bytes;
    BytesOfLast(v0, v, 0);
    TooFew(v0);
    Empty(Completed(1, Partial([v0]), v));
    assert Partial([v0]) == Remaining(1, v0);
  }

  lemma SnocOntoTwo(v0: Sextet, v1: Sextet, v: Sextet)
    ensures Bytes([v0, v1, v]) == Bytes([v0, v1]) + Completed(2, Partial([v0, v1]), v)
  {
    BytesOfLast(v0, v1, v);
    assert Partial([v0, v1]) == Remaining(2, v1);
  }

  lemma SnocOntoThree(v0: Sextet, v1: Sextet, v2: Sextet, v: Sextet)
    ensures Bytes([v0, v1, v2, v]) == Bytes([v0, v1, v2]) + Completed(3, Partial([v0, v1, v2]), v)
  {
    BytesOfLast(v0, v1, v2);
    BytesOfQuad(v0, v1, v2, v, []);
    assert [v0, v1, v2, v] + [] == [v0, v1, v2, v];
    assert Partial([v0, v1, v2]) == Remaining(3, v2);
  }

  lemma {:induction false} PartialSnoc(q: seq<Sextet>, v: Sextet)
    ensures Partial(q + [v]) == Remaining(|q| % 4 + 1, v)
  {
    assert |q + [v]| == |q| + 1;
  }

  lemma {:induction false} SextetsStep(q: seq<Sextet>, s: string)
    requires s != ""
    ensures Reverse(s[0]) < 0 ==> q + Sextets(s[1..]) == q + Sextets(s)
    ensures Reverse(s[0]) >= 0 ==> (q + [Reverse(s[0])]) + Sextets(s[1..]) == q + Sextets(s)
  {
    var v := Reverse(s[0]);
    if v >= 0 {
      assert q + ([v] + Sextets(s[1..])) == (q + [v]) + Sextets(s[1..]);
    }
  }

  /** The four phases: what the value completes, and what it leaves for the next byte. */
  method NextPhase(phase: nat, current: byte, v: Sextet) returns (completed: seq<int>, next: byte)
    requires phase < 4
    ensures completed == Completed(phase, current, v) && next == Remaining(phase + 1, v)
  {
    completed := [];
    match phase {
      case 0 =>
        next := v * 4;
      case 1 =>
        completed := [current + v / 16];
        next := v % 16 * 16;
      case 2 =>
        completed := [current + v / 4];
        next := v % 4 * 64;
      case _ =>
        completed := [current + v];
        next := 0;
    }
  }

  /** The decoder's loop. */
  method DecodeString(src: string) returns (r: Option<seq<byte>>)
    ensures r == Decode(src)
  {
    var out: seq<byte> := [];
    var current: byte := 0;
    var i := 0;
    ghost var q: seq<Sextet> := [];
    var s := 0;
    while s < |src|
      invariant 0 <= s <= |src|
      invariant q + Sextets(src[s..]) == Sextets(src)
      invariant i == |q| && out == Bytes(q) && current == Partial(q)
    {
      var v := Reverse(src[s]);
      SextetsStep(q, src[s..]);
      assert src[s..][1..] == src[s + 1..];
      if v >= 0 {
        BytesSnoc(q, v);
        PartialSnoc(q, v);
        var completed;
        completed, current := NextPhase(i % 4, current, v);
        out := out + completed;
        q := q + [v];
        i := i + 1;
      }
      s := s + 1;
    }
    assert q + [] == q;
    if i % 4 == 1 {
      return None;
    }
    return Some(out);
  }
}
