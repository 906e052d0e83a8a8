/** The two-hash Bloom filter (crates/vrift-cas/src/lib.rs, `BloomFilter` and `bloom_hashes`). */
module Bloom {
  import opened Bytes

  const WORD := 0x1_0000_0000_0000_0000  // usize arithmetic wraps at 2^64

  // ---------------------------------------------------------------- hashes

  function HashesFrom(s: Bytes, h1: nat, h2: nat): (r: (nat, nat))
    requires h1 < WORD && h2 < WORD
    ensures r.0 < WORD && r.1 < WORD
    decreases |s|
  {
    if s == [] then (h1, h2)
    else
      var h1' := ShiftAdd(h1, 32, s[0]);
      HashesFrom(s[1..], h1', WrappingSub(ShiftAdd(h2, 64, s[0]), h1'))
  }

  function Hashes(s: Bytes): (nat, nat) {
    HashesFrom(s, 5381, 0)
  }

  /** `h.wrapping_shl(n).wrapping_add(h).wrapping_add(b)`, where the shift multiplies by `m`. */
  function ShiftAdd(h: nat, m: nat, b: byte): (r: nat)
    ensures r < WORD
  {
    ((h * m % WORD + h) % WORD + b as nat) % WORD
  }

  function WrappingSub(a: nat, b: nat): (r: nat)
    requires a < WORD && b < WORD
    ensures r < WORD
  {
    if a >= b then a - b else a + WORD - b
  }

  method BloomHashes(s: Bytes) returns (h1: nat, h2: nat)
    ensures (h1, h2) == Hashes(s)
  {
    h1, h2 := 5381, 0;
    assert s[0..] == s;
    for i := 0 to |s|
      invariant h1 < WORD && h2 < WORD && HashesFrom(s[i..], h1, h2) == Hashes(s)
    {
      assert s[i..][1..] == s[i + 1..];
      h1 := ShiftAdd(h1, 32, s[i]);
      h2 := WrappingSub(ShiftAdd(h2, 64, s[i]), h1);
    }
  }

  function Power(b: nat, n: nat): (r: nat)
    ensures b > 0 ==> r > 0
  {
    if n == 0 then 1 else b * Power(b, n - 1)
  }

  /** `xs` as the digits of a number in base `b`, the most significant first. */
  function Number(b: nat, xs: seq<int>): int {
    if xs == [] then 0 else xs[0] * Power(b, |xs| - 1) + Number(b, xs[1..])
  }

  function Ints(s: Bytes): seq<int> {
    seq(|s|, i requires 0 <= i < |s| => s[i] as int)
  }

  /** The bytes less the first hash of the string up to each. */
  function Differences(s: Bytes, h1: nat, h2: nat): seq<int>
    requires h1 < WORD && h2 < WORD
  {
    seq(|s|, i requires 0 <= i < |s| => s[i] as int - HashesFrom(s[..i + 1], h1, h2).0)
  }

  /** The first hash is the string in base 33 behind the digit 5381, modulo 2^64. */
  lemma {:induction false} FirstHashIsNumber(s: Bytes)
    ensures Hashes(s).0 == (5381 * Power(33, |s|) + Number(33, Ints(s))) % 0x1_0000_0000_0000_0000
  {
    FirstIsNumber(s, 5381, 0);
  }

  /** The second hash is the differences of bytes and first hashes in base 65, modulo 2^64. */
  lemma {:induction false} SecondHashIsNumber(s: Bytes, ds: seq<int>)
    requires |ds| == |s| && forall i :: 0 <= i < |s| ==> ds[i] == s[i] as int - Hashes(s[..i + 1]).0
    ensures Hashes(s).1 == Number(65, ds) % 0x1_0000_0000_0000_0000
  {
    SecondIsNumber(s, 5381, 0);
    assert Differences(s, 5381, 0) == ds;
  }

  lemma {:induction false} FirstIsNumber(s: Bytes, h1: nat, h2: nat)
    requires h1 < WORD && h2 < WORD
    ensures HashesFrom(s, h1, h2).0 == (h1 * Power(33, |s|) + Number(33, Ints(s))) % WORD
    decreases |s|
  {
    if s != [] {
      var h1', h2' := Advance(s, h1, h2);
      FirstIsNumber(s[1..], h1', h2');
      NumberTail(33, h1, s[0] as int, h1', Ints(s[1..]), Ints(s));
    }
  }

  lemma {:induction false} SecondIsNumber(s: Bytes, h1: nat, h2: nat)
    requires h1 < WORD && h2 < WORD
    ensures HashesFrom(s, h1, h2).1 == (h2 * Power(65, |s|) + Number(65, Differences(s, h1, h2))) % WORD
    decreases |s|
  {
    if s != [] {
      var h1', h2' := Advance(s, h1, h2);
      SecondIsNumber(s[1..], h1', h2');
      NumberTail(65, h2, s[0] as int - h1', h2', Differences(s[1..], h1', h2'), Differences(s, h1, h2));
    }
  }

  /** One round of the loop, without its intermediate reductions. */
  lemma {:induction false} Advance(s: Bytes, h1: nat, h2: nat) returns (h1': nat, h2': nat)
    requires h1 < WORD && h2 < WORD && s != []
    ensures h1' == (h1 * 33 + s[0] as int) % WORD && h2' == (h2 * 65 + (s[0] as int - h1')) % WORD
    ensures h1' < WORD && h2' < WORD && HashesFrom(s, h1, h2) == HashesFrom(s[1..], h1', h2')
    ensures Differences(s, h1, h2) == [s[0] as int - h1'] + Differences(s[1..], h1', h2')
  {
    h1' := ShiftAdd(h1, 32, s[0]);
    h2' := WrappingSub(ShiftAdd(h2, 64, s[0]), h1');
    FirstShift(h1, s[0]);
    SecondShift(h2, s[0], h1');
    DifferencesTail(s, h1, h2, h1', h2');
  }

  lemma {:induction false} NumberTail(b: nat, h: int, x: int, h': int, tail: seq<int>, xs: seq<int>)
    requires xs == [x] + tail && h' == (h * b + x) % WORD
    ensures (h' * Power(b, |tail|) + Number(b, tail)) % WORD == (h * Power(b, |xs|) + Number(b, xs)) % WORD
  {
    assert xs[1..] == tail;
    Carry(h, b, x, h', Power(b, |tail|), Number(b, tail));
  }

  lemma {:induction false} DifferencesTail(s: Bytes, h1: nat, h2: nat, h1': nat, h2': nat)
    requires h1 < WORD && h2 < WORD && s != []
    requires h1' == ShiftAdd(h1, 32, s[0]) && h2' == WrappingSub(ShiftAdd(h2, 64, s[0]), h1')
    ensures Differences(s, h1, h2) == [s[0] as int - h1'] + Differences(s[1..], h1', h2')
  {
    var d, tail := Differences(s, h1, h2), Differences(s[1..], h1', h2');
    forall i | 0 <= i < |s|
      ensures d[i] == if i == 0 then s[0] as int - h1' else tail[i - 1]
    {
      HashesNext(s, h1, h2, h1', h2', i);
    }
  }

  lemma {:induction false} HashesNext(s: Bytes, h1: nat, h2: nat, h1': nat, h2': nat, i: nat)
    requires h1 < WORD && h2 < WORD && i < |s|
    requires h1' == ShiftAdd(h1, 32, s[0]) && h2' == WrappingSub(ShiftAdd(h2, 64, s[0]), h1')
    ensures HashesFrom(s[..i + 1], h1, h2).0 == if i == 0 then h1' else HashesFrom(s[1..][..i], h1', h2').0
  {
    assert s[..i + 1][1..] == s[1..][..i] && s[..i + 1][0] == s[0];
  }

  lemma {:induction false} FirstShift(h: nat, b: byte)
    ensures ShiftAdd(h, 32, b) == (h * 33 + b as int) % WORD
  {
    AddReduced(h * 32, h);
    AddReduced(h * 33, b as int);
  }

  lemma {:induction false} SecondShift(h: nat, b: byte, c: nat)
    requires c < WORD
    ensures WrappingSub(ShiftAdd(h, 64, b), c) == (h * 65 + (b as int - c)) % WORD
  {
    AddReduced(h * 64, h);
    AddReduced(h * 65, b as int);
    Subtracted((h * 65 + b as int) % WORD, c);
    AddReduced(h * 65 + b as int, 0 - c);
  }

  lemma {:induction false} Subtracted(a: nat, c: nat)
    requires a < WORD && c < WORD
    ensures WrappingSub(a, c) == (a - c) % WORD
  {
  }

  lemma {:induction false} AddReduced(x: int, y: int)
    ensures (x % WORD + y) % WORD == (x + y) % WORD
  {
    Multiple(x % WORD + y, x / WORD);
  }

  /** Reducing a partial result modulo 2^64 changes nothing modulo 2^64. */
  lemma {:induction false} Carry(h: int, b: int, x: int, h': int, p: int, rest: int)
    requires h' == (h * b + x) % WORD
    ensures (h' * p + rest) % WORD == (h * (b * p) + (x * p + rest)) % WORD
  {
    var q := (h * b + x) / WORD;
    assert h * b + x == q * WORD + h';
    var a := h' * p + rest;
    assert h * (b * p) + (x * p + rest) == (h * b + x) * p + rest == (q * p) * WORD + a;
    Multiple(a, q * p);
  }

  lemma {:induction false} Multiple(a: int, k: int)
    ensures (k * WORD + a) % WORD == a % WORD
  {
  }

  // ---------------------------------------------------------------- bits

  function Pow2(k: nat): nat {
    if k == 0 then 1 else 2 * Pow2(k - 1)
  }

  /** Bit `j` of `x`, least significant first. */
  predicate HasBit(x: nat, j: nat) {
    if j == 0 then x % 2 == 1 else HasBit(x / 2, j - 1)
  }

  lemma {:induction false} HasBitIsQuotient(x: nat, j: nat)
    ensures HasBit(x, j) <==> x / Power(2, j) % 2 == 1
    decreases j
  {
    if j > 0 {
      HasBitIsQuotient(x / 2, j - 1);
      Quotients(x, 2, Power(2, j - 1));
    }
  }

  /** `x | 1 << j` */
  function SetBit(x: nat, j: nat): nat {
    if j == 0 then x - x % 2 + 1 else 2 * SetBit(x / 2, j - 1) + x % 2
  }

  lemma {:induction false} SetBitAt(x: nat, j: nat, i: nat)
    ensures HasBit(SetBit(x, j), i) <==> i == j || HasBit(x, i)
  {
    if i > 0 && j > 0 {
      SetBitAt(x / 2, j - 1, i - 1);
      assert SetBit(x, j) / 2 == SetBit(x / 2, j - 1);
    } else if i > 0 {
      assert SetBit(x, j) / 2 == x / 2;
    }
  }

  lemma {:induction false} SetBitFits(x: nat, j: nat, k: nat)
    requires x < Pow2(k) && j < k
    ensures SetBit(x, j) < Pow2(k)
  {
    assert Pow2(k) == 2 * Pow2(k - 1);
    if j > 0 {
      SetBitFits(x / 2, j - 1, k - 1);
    }
  }

  predicate Bit(bits: Bytes, p: nat)
    requires p < 8 * |bits|
  {
    HasBit(bits[p / 8] as nat, p % 8)
  }

  function WithBit(bits: Bytes, p: nat): (bits': Bytes)
    requires p < 8 * |bits|
    ensures |bits'| == |bits|
  {
    SetBitFits(bits[p / 8] as nat, p % 8, 8);
    bits[p / 8 := SetBit(bits[p / 8] as nat, p % 8) as byte]
  }

  lemma {:induction false} WithBitAt(bits: Bytes, p: nat, q: nat)
    requires p < 8 * |bits| && q < 8 * |bits|
    ensures Bit(WithBit(bits, p), q) <==> q == p || Bit(bits, q)
  {
    if p / 8 == q / 8 {
      SetBitAt(bits[p / 8] as nat, p % 8, q % 8);
    }
  }

  // ---------------------------------------------------------------- the filter on values

  /** The two bits of a key, in a filter of `n` bytes. */
  function Positions(s: Bytes, n: nat): (ps: (nat, nat))
    requires n > 0
    ensures ps.0 < 8 * n && ps.1 < 8 * n
  {
    (Hashes(s).0 % (8 * n), Hashes(s).1 % (8 * n))
  }

  function AddKey(bits: Bytes, s: Bytes): (bits': Bytes)
    requires |bits| > 0
    ensures |bits'| == |bits|
  {
    var (p1, p2) := Positions(s, |bits|);
    WithBit(WithBit(bits, p1), p2)
  }

  predicate Accepts(bits: Bytes, s: Bytes)
    requires |bits| > 0
  {
    var (p1, p2) := Positions(s, |bits|);
    Bit(bits, p1) && Bit(bits, p2)
  }

  function AddKeys(bits: Bytes, keys: seq<Bytes>): (bits': Bytes)
    requires |bits| > 0
    ensures |bits'| == |bits|
  {
    if keys == [] then bits else AddKey(AddKeys(bits, keys[..|keys| - 1]), keys[|keys| - 1])
  }

  /** Bit `p` of a filter of `n` bytes belongs to one of the keys. */
  ghost predicate Marks(keys: seq<Bytes>, n: nat, p: nat)
    requires n > 0
  {
    exists i :: 0 <= i < |keys| && MarksOne(keys[i], n, p)
  }

  ghost predicate MarksOne(key: Bytes, n: nat, p: nat)
    requires n > 0
  {
    p == Hashes(key).0 % (8 * n) || p == Hashes(key).1 % (8 * n)
  }

  lemma {:induction false} BitsOfKeys(n: nat, keys: seq<Bytes>, p: nat)
    requires n > 0 && p < 8 * n
    ensures Bit(AddKeys(Zeros(n), keys), p) <==> Marks(keys, n, p)
    decreases |keys|
  {
    if keys == [] {
      ZeroHasNoBit(p % 8);
    } else {
      var front, last := keys[..|keys| - 1], keys[|keys| - 1];
      var bits := AddKeys(Zeros(n), front);
      var (p1, p2) := Positions(last, n);
      BitsOfKeys(n, front, p);
      WithBitAt(bits, p1, p);
      WithBitAt(WithBit(bits, p1), p2, p);
      if MarksOne(last, n, p) {
        assert MarksOne(keys[|keys| - 1], n, p);
      } else if Marks(front, n, p) {
        var i :| 0 <= i < |front| && MarksOne(front[i], n, p);
        assert MarksOne(keys[i], n, p);
      }
    }
  }

  lemma {:induction false} ZeroHasNoBit(j: nat)
    ensures !HasBit(0, j)
  {
    if j > 0 {
      ZeroHasNoBit(j - 1);
    }
  }

  /** The filter of a list of keys accepts exactly the strings both of whose bits belong to keys:
      in particular every key. */
  lemma {:induction false} AcceptsExactly(n: nat, keys: seq<Bytes>, s: Bytes)
    requires n > 0
    ensures Accepts(AddKeys(Zeros(n), keys), s)
            <==> Marks(keys, n, Positions(s, n).0) && Marks(keys, n, Positions(s, n).1)
    ensures s in keys ==> Accepts(AddKeys(Zeros(n), keys), s)
  {
    var (p1, p2) := Positions(s, n);
    BitsOfKeys(n, keys, p1);
    BitsOfKeys(n, keys, p2);
    if s in keys {
      var i :| 0 <= i < |keys| && keys[i] == s;
      assert MarksOne(keys[i], n, p1) && MarksOne(keys[i], n, p2);
    }
  }

  // ---------------------------------------------------------------- the filter in place

  class BloomFilter {
    const bits: array<byte>

    constructor (size: nat)
      ensures fresh(bits) && bits[..] == Zeros(size)
    {
      bits := new byte[size](i => 0);
    }

    method SetPosition(p: nat)
      requires p < 8 * bits.Length
      modifies bits
      ensures bits[..] == WithBit(old(bits[..]), p)
    {
      SetBitFits(bits[p / 8] as nat, p % 8, 8);
      bits[p / 8] := SetBit(bits[p / 8] as nat, p % 8) as byte;
    }

    method Add(s: Bytes)
      requires bits.Length > 0
      modifies bits
      ensures bits[..] == AddKey(old(bits[..]), s)
    {
      var h1, h2 := BloomHashes(s);
      SetPosition(h1 % (bits.Length * 8));
      SetPosition(h2 % (bits.Length * 8));
    }

    method Contains(s: Bytes) returns (r: bool)
      requires bits.Length > 0
      ensures r == Accepts(bits[..], s)
    {
      var h1, h2 := BloomHashes(s);
      var b1, b2 := h1 % (bits.Length * 8), h2 % (bits.Length * 8);
      r := HasBit(bits[b1 / 8] as nat, b1 % 8) && HasBit(bits[b2 / 8] as nat, b2 % 8);
    }
  }
}
