/** The arithmetic of the non-linear output of bcrypt_pbkdf, for any block size. Output byte d is row d / stride
    of column d % stride; each round of the outer loop fills one column. */
module StridedOutput {
  import opened Arithmetic
  import opened Words

  function CeilDiv(a: nat, b: nat): nat
    requires b > 0
  {
    (a + b - 1) / b
  }

  function Stride(keylen: nat, blockSize: nat): nat
    requires blockSize > 0
  {
    CeilDiv(keylen, blockSize)
  }

  /** How many rows column k has. */
  function Rows(keylen: nat, stride: nat, k: nat): nat
    requires stride > 0
  {
    keylen / stride + if k < keylen % stride then 1 else 0
  }

  /** How many bytes are still to be written when the first k columns are done. */
  function Remaining(keylen: nat, stride: nat, k: nat): nat
    requires k <= stride && stride > 0
  {
    MulNat(stride - k, keylen / stride);
    (stride - k) * (keylen / stride) + if k < keylen % stride then keylen % stride - k else 0
  }

  lemma CeilBounds(a: nat, b: nat)
    requires b > 0
    ensures a <= CeilDiv(a, b) * b < a + b
  {
    var q, r := (a + b - 1) / b, (a + b - 1) % b;
    assert q * b + r == a + b - 1;
  }

  /** The stride never exceeds the key length, so every column has a row. */
  lemma StrideBounds(keylen: nat, blockSize: nat)
    requires keylen > 0 && blockSize > 0
    ensures 0 < Stride(keylen, blockSize) <= keylen
    ensures keylen <= Stride(keylen, blockSize) * blockSize
  {
    CeilBounds(keylen, blockSize);
    MulNat(keylen - 1, blockSize - 1);
    assert keylen * blockSize == (keylen - 1) * (blockSize - 1) + keylen + blockSize - 1;
    MulCancels(Stride(keylen, blockSize), keylen, blockSize);
  }

  /** Row i of column k lies inside the key exactly when i is less than the number of rows. */
  lemma InsideKey(keylen: nat, stride: nat, k: nat, i: nat)
    requires k < stride
    ensures i * stride + k < keylen <==> i < Rows(keylen, stride, k)
  {
    var q, r := keylen / stride, keylen % stride;
    assert keylen == q * stride + r;
    if i < q {
      Distributes(q - i, i, stride);
      MulAtLeast(q - i, stride);
    } else if i > q {
      Distributes(i - q, q, stride);
      MulAtLeast(i - q, stride);
    }
  }

  lemma InColumn(keylen: nat, stride: nat, k: nat, d: nat)
    requires k < stride && d % stride == k
    ensures 0 <= d / stride && (d < keylen <==> d / stride < Rows(keylen, stride, k))
  {
    ModBound(d, stride);
    var i := d / stride;
    assert d == i * stride + k;
    InsideKey(keylen, stride, k, i);
  }

  lemma RemainingStarts(keylen: nat, stride: nat)
    requires stride > 0
    ensures Remaining(keylen, stride, 0) == keylen
  {}

  lemma RemainingStep(keylen: nat, stride: nat, k: nat)
    requires k < stride <= keylen
    ensures Remaining(keylen, stride, k + 1) == Remaining(keylen, stride, k) - Rows(keylen, stride, k)
    ensures Remaining(keylen, stride, k) >= Rows(keylen, stride, k) > 0
    ensures Rows(keylen, stride, k + 1) <= Rows(keylen, stride, k)
  {
    var q := keylen / stride;
    Distributes(stride - k - 1, 1, q);
    MulAtLeast(stride - k, q);
    assert q > 0 by { QuotientPositive(keylen, stride); }
  }

  lemma QuotientPositive(a: nat, b: nat)
    requires 0 < b <= a
    ensures a / b > 0
  {
    assert a == a / b * b + a % b;
  }

  lemma RemainingEnds(keylen: nat, stride: nat)
    requires stride > 0
    ensures Remaining(keylen, stride, stride) == 0
  {}

  /** The loop's first limit is the height of the tallest column, and fits in a block. */
  lemma FirstColumn(keylen: nat, blockSize: nat)
    requires keylen > 0 && blockSize > 0
    ensures var s := Stride(keylen, blockSize); s > 0 && CeilDiv(keylen, s) == Rows(keylen, s, 0) <= blockSize
  {
    var s := Stride(keylen, blockSize);
    StrideBounds(keylen, blockSize);
    var q, r := keylen / s, keylen % s;
    assert keylen == q * s + r;
    if r == 0 {
      DivModUnique(keylen + s - 1, s, q, s - 1);
    } else {
      Distributes(q, 1, s);
      DivModUnique(keylen + s - 1, s, q + 1, r - 1);
    }
    if Rows(keylen, s, 0) > blockSize {
      InsideKey(keylen, s, 0, blockSize);
    }
  }

  lemma RowAndColumn(stride: nat, k: nat, i: nat)
    requires k < stride
    ensures i * stride + k >= 0
    ensures (i * stride + k) / stride == i && (i * stride + k) % stride == k
  {
    DivModUnique(i * stride + k, stride, i, k);
  }

  /** The indices written for the first n rows of column k, in the order of the writes. */
  function ColumnWrites(stride: nat, k: nat, n: nat): (r: seq<nat>)
    ensures |r| == n
  {
    if n == 0 then [] else
      MulNat(n - 1, stride);
      ColumnWrites(stride, k, n - 1) + [(n - 1) * stride + k]
  }

  /** The indices written while filling the first k columns. */
  function Writes(keylen: nat, stride: nat, k: nat): seq<nat>
    requires stride > 0
  {
    if k == 0 then [] else
      Writes(keylen, stride, k - 1) + ColumnWrites(stride, k - 1, Rows(keylen, stride, k - 1))
  }

  function Occurs(s: seq<nat>, d: nat): nat {
    if s == [] then 0 else Occurs(s[..|s| - 1], d) + if s[|s| - 1] == d then 1 else 0
  }

  lemma {:induction false} OccursConcat(a: seq<nat>, b: seq<nat>, d: nat)
    ensures Occurs(a + b, d) == Occurs(a, d) + Occurs(b, d)
  {
    if b == [] {
      assert a + b == a;
    } else {
      var b' := b[..|b| - 1];
      assert (a + b)[..|a + b| - 1] == a + b';
      OccursConcat(a, b', d);
    }
  }

  /** Whether index d is in one of the first n rows of column k, as a count. */
  function Hits(stride: nat, k: nat, n: nat, d: nat): nat
    requires k < stride
  {
    if d % stride == k && d / stride < n then 1 else 0
  }

  lemma {:induction false} ColumnOccurs(stride: nat, k: nat, n: nat, d: nat)
    requires k < stride
    ensures Occurs(ColumnWrites(stride, k, n), d) == Hits(stride, k, n, d)
  {
    hide Occurs, Hits;
    if n == 0 {
      OccursNone(d);
      HitsStart(stride, k, d);
    } else {
      MulNat(n - 1, stride);
      var cell: nat := (n - 1) * stride + k;
      ColumnOccurs(stride, k, n - 1, d);
      OccursConcat(ColumnWrites(stride, k, n - 1), [cell], d);
      OccursOne(cell, d);
      HitsNext(stride, k, n - 1, d);
    }
  }

  lemma OccursNone(d: nat)
    ensures Occurs([], d) == 0
  {}

  lemma OccursOne(x: nat, d: nat)
    ensures Occurs([x], d) == if x == d then 1 else 0
  {}

  lemma HitsStart(stride: nat, k: nat, d: nat)
    requires k < stride
    ensures Hits(stride, k, 0, d) == 0
  {
    QuotientIsNat(d, stride);
  }

  lemma QuotientIsNat(d: nat, stride: nat)
    requires stride > 0
    ensures d / stride >= 0
  {}

  /** The next row adds its one index. */
  lemma HitsNext(stride: nat, k: nat, i: nat, d: nat)
    requires k < stride
    ensures Hits(stride, k, i + 1, d) == Hits(stride, k, i, d) + if i * stride + k == d then 1 else 0
  {
    RowAndColumn(stride, k, i);
    if d % stride == k && d / stride == i {
      assert d == d / stride * stride + d % stride;
    }
  }

  lemma {:induction false} WritesOccur(keylen: nat, stride: nat, k: nat, d: nat)
    requires 0 < stride && k <= stride
    ensures Occurs(Writes(keylen, stride, k), d) == if d < keylen && d % stride < k then 1 else 0
  {
    if k > 0 {
      var c, n := k - 1, Rows(keylen, stride, k - 1);
      WritesOccur(keylen, stride, c, d);
      ColumnOccurs(stride, c, n, d);
      OccursConcat(Writes(keylen, stride, c), ColumnWrites(stride, c, n), d);
      if d % stride == c {
        InColumn(keylen, stride, c, d);
      }
    }
  }

  /** Every byte of the key is written exactly once, and nothing else is, for any block size. */
  lemma EveryByteOnce(keylen: nat, blockSize: nat, d: nat)
    requires keylen > 0 && blockSize > 0
    ensures var s := Stride(keylen, blockSize);
            s > 0 && Occurs(Writes(keylen, s, s), d) == if d < keylen then 1 else 0
  {
    var s := Stride(keylen, blockSize);
    StrideBounds(keylen, blockSize);
    WritesOccur(keylen, s, s, d);
    ModBound(d, s);
  }

  /** The state of the outer loop: k blocks are done, left bytes are missing, amt limits the rows of the next. */
  ghost predicate LoopState(keylen: nat, blockSize: nat, k: nat, left: nat, amt: nat) {
    && keylen > 0 && blockSize > 0
    && var s := Stride(keylen, blockSize);
    && 0 < s <= keylen
    && k <= s
    && left == Remaining(keylen, s, k)
    && (k < s ==> Rows(keylen, s, k) <= amt)
    && amt <= blockSize
  }

  lemma LoopStarts(keylen: nat, blockSize: nat)
    requires keylen > 0 && blockSize > 0
    ensures var s := Stride(keylen, blockSize); s > 0 && LoopState(keylen, blockSize, 0, keylen, CeilDiv(keylen, s))
  {
    StrideBounds(keylen, blockSize);
    FirstColumn(keylen, blockSize);
    RemainingStarts(keylen, Stride(keylen, blockSize));
  }

  /** While bytes are missing there is another column, it fits under the limit, and filling it keeps the state. */
  lemma LoopSteps(keylen: nat, blockSize: nat, k: nat, left: nat, amt: nat)
    requires LoopState(keylen, blockSize, k, left, amt)
    ensures k <= Stride(keylen, blockSize) && (left > 0 <==> k < Stride(keylen, blockSize))
    ensures left > 0 ==>
      var amt' := if amt < left then amt else left;
      var rows := Rows(keylen, Stride(keylen, blockSize), k);
      rows <= amt' <= blockSize && rows <= left && LoopState(keylen, blockSize, k + 1, left - rows, amt')
  {
    var s := Stride(keylen, blockSize);
    RemainingEnds(keylen, s);
    if k < s { RemainingStep(keylen, s, k); }
  }

  /** key with column k of its first keylen bytes taken from out. */
  function Scattered(key: seq<byte>, keylen: nat, stride: nat, k: nat, out: seq<byte>): (r: seq<byte>)
    requires stride > 0
    ensures |r| == |key|
  {
    seq(|key|, d requires 0 <= d < |key| =>
      if d < keylen && d % stride == k && 0 <= d / stride < |out| then out[d / stride] else key[d])
  }

  /** Block number count, counting from 1. */
  type BlockSource = nat -> seq<byte>

  /** The first k columns of the key hold their bytes: byte d is byte d / stride of block d % stride + 1. */
  ghost predicate Filled(block: BlockSource, keylen: nat, stride: nat, k: nat, key: seq<byte>)
    requires 0 < stride && keylen <= |key|
  {
    forall d :: 0 <= d < keylen && d % stride < k ==>
      && 0 <= d % stride
      && 0 <= d / stride < |block(d % stride + 1)|
      && key[d] == block(d % stride + 1)[d / stride]
  }

  lemma NothingFilled(block: BlockSource, keylen: nat, stride: nat, key: seq<byte>)
    requires 0 < stride && keylen <= |key|
    ensures Filled(block, keylen, stride, 0, key) && Writes(keylen, stride, 0) == []
  {
    forall d: nat | d < keylen ensures d % stride >= 0 {
      ModBound(d, stride);
    }
  }

  lemma FilledNext(block: BlockSource, keylen: nat, stride: nat, k: nat, key: seq<byte>)
    requires k < stride && keylen <= |key|
    requires Rows(keylen, stride, k) <= |block(k + 1)|
    requires Filled(block, keylen, stride, k, key)
    ensures var key' := Scattered(key, keylen, stride, k, block(k + 1));
            Filled(block, keylen, stride, k + 1, key') && key'[keylen..] == key[keylen..]
  {
    var key' := Scattered(key, keylen, stride, k, block(k + 1));
    forall d | 0 <= d < keylen && d % stride < k + 1
      ensures && 0 <= d % stride
              && 0 <= d / stride < |block(d % stride + 1)|
              && key'[d] == block(d % stride + 1)[d / stride]
    {
      ModBound(d, stride);
      if d % stride == k { InColumn(keylen, stride, k, d); }
    }
  }
}
