/** Bytes, optional values, the little-endian integer codec and splicing into a buffer. */
module Bytes {
  newtype byte = b: int | 0 <= b < 0x100

  type Bytes = seq<byte>

  datatype Option<+T> = None | Some(value: T)

  // ---------------------------------------------------------------- little-endian integers

  function Pow256(k: nat): (p: nat)
    ensures p > 0
  {
    if k == 0 then 1 else 256 * Pow256(k - 1)
  }

  function ToLE(n: nat, k: nat): (b: Bytes)
    ensures |b| == k
  {
    if k == 0 then [] else [(n % 256) as byte] + ToLE(n / 256, k - 1)
  }

  function FromLE(b: Bytes): nat {
    if b == [] then 0 else b[0] as nat + 256 * FromLE(b[1..])
  }

  lemma {:induction false} LERoundTrip(n: nat, k: nat)
    requires n < Pow256(k)
    ensures FromLE(ToLE(n, k)) == n
  {
    if k > 0 {
      LERoundTrip(n / 256, k - 1);
      assert ToLE(n, k)[1..] == ToLE(n / 256, k - 1);
    }
  }

  function Zeros(n: nat): Bytes {
    seq(n, i => 0)
  }

  lemma {:induction false} ZerosAreZero(n: nat)
    ensures FromLE(Zeros(n)) == 0
  {
    if n > 0 {
      assert Zeros(n)[1..] == Zeros(n - 1);
      ZerosAreZero(n - 1);
    }
  }

  // ---------------------------------------------------------------- records inside a buffer

  function Splice(b: Bytes, at: nat, r: Bytes): (b': Bytes)
    requires at + |r| <= |b|
    ensures |b'| == |b|
  {
    b[..at] + r + b[at + |r|..]
  }

  /** Overwrites part of a buffer. */
  method Blit(buf: array<byte>, at: nat, r: Bytes)
    requires at + |r| <= buf.Length
    modifies buf
    ensures buf[..] == Splice(old(buf[..]), at, r)
  {
    forall k | 0 <= k < |r| {
      buf[at + k] := r[k];
    }
  }

  lemma {:induction false} SlotBound(i: nat, n: nat, size: nat)
    requires i < n
    ensures 0 <= i * size && i * size + size <= n * size
  {
    assert (i + 1) * size <= n * size;
  }

  function RecordAt(b: Bytes, off: nat, n: nat, size: nat, i: nat): (r: Bytes)
    requires i < n && off + n * size <= |b|
    ensures |r| == size
  {
    SlotBound(i, n, size);
    b[off + i * size..off + i * size + size]
  }

  /** The `n` records of `size` bytes that start at `off`. */
  function Records(b: Bytes, off: nat, n: nat, size: nat): (t: seq<Bytes>)
    requires off + n * size <= |b|
    ensures |t| == n && forall i :: 0 <= i < n ==> |t[i]| == size && t[i] == RecordAt(b, off, n, size, i)
  {
    seq(n, i requires 0 <= i < n => RecordAt(b, off, n, size, i))
  }

  /** Writing a record changes that record of its table and no other. */
  lemma {:induction false} SpliceRecord(b: Bytes, off: nat, n: nat, size: nat, i: nat, r: Bytes)
    requires i < n && off + n * size <= |b| && |r| == size
    ensures off + i * size + size <= off + n * size
    ensures Records(Splice(b, off + i * size, r), off, n, size) == Records(b, off, n, size)[i := r]
  {
    SlotBound(i, n, size);
    var b' := Splice(b, off + i * size, r);
    forall j | 0 <= j < n
      ensures RecordAt(b', off, n, size, j) == if j == i then r else RecordAt(b, off, n, size, j)
    {
      SlotBound(j, n, size);
      if j < i {
        SlotBound(j, i, size);
      } else if j > i {
        SlotBound(i, j, size);
      }
    }
  }

  /** Tables read the same from two buffers that agree where the table lies. */
  lemma {:induction false} RecordsAgree(b: Bytes, b': Bytes, off: nat, n: nat, size: nat)
    requires off + n * size <= |b| && off + n * size <= |b'|
    requires forall x :: off <= x < off + n * size ==> b[x] == b'[x]
    ensures Records(b, off, n, size) == Records(b', off, n, size)
  {
    forall j | 0 <= j < n
      ensures RecordAt(b, off, n, size, j) == RecordAt(b', off, n, size, j)
    {
      RecordAgrees(b, b', off, n, size, j);
    }
  }

  lemma {:induction false} RecordAgrees(b: Bytes, b': Bytes, off: nat, n: nat, size: nat, j: nat)
    requires j < n && off + n * size <= |b| && off + n * size <= |b'|
    requires forall x :: off <= x < off + n * size ==> b[x] == b'[x]
    ensures RecordAt(b, off, n, size, j) == RecordAt(b', off, n, size, j)
  {
    SlotBound(j, n, size);
    SlicesAgree(b, b', off + j * size, off + j * size + size);
  }

  lemma {:induction false} SlicesAgree(b: Bytes, b': Bytes, lo: nat, hi: nat)
    requires lo <= hi <= |b| && hi <= |b'| && forall x :: lo <= x < hi ==> b[x] == b'[x]
    ensures b[lo..hi] == b'[lo..hi]
  {
  }

  // ---------------------------------------------------------------- division

  /** Dividing twice is dividing by the product. */
  lemma {:induction false} Quotients(x: nat, a: nat, p: nat)
    requires a > 0 && p > 0
    ensures a * p > 0 && x / (a * p) == x / a / p
  {
    Positive(a, p);
    Nested(x, a, p, x / a, x / a / p);
    Between(x, a * p, x / a / p);
  }

  lemma {:induction false} Positive(a: nat, p: nat)
    requires a > 0 && p > 0
    ensures a * p > 0
  {
  }

  lemma {:induction false} Nested(x: nat, a: nat, p: nat, y: nat, q: nat)
    requires p * q <= y < p * q + p && a * y <= x < a * y + a
    ensures (a * p) * q <= x < (a * p) * q + a * p
  {
    Scaled(a, p * q, y);
    Scaled(a, y + 1, p * q + p);
    Products(a, p, q, y);
  }

  lemma {:induction false} Products(a: nat, p: nat, q: nat, y: nat)
    ensures a * (p * q) == (a * p) * q && a * (p * q + p) == (a * p) * q + a * p && a * (y + 1) == a * y + a
  {
  }

  lemma {:induction false} Scaled(a: nat, x: nat, y: nat)
    requires x <= y
    ensures a * x <= a * y
  {
    assert a * y == a * x + a * (y - x);
  }

  lemma {:induction false} Between(x: nat, d: nat, q: nat)
    requires d > 0 && d * q <= x < d * q + d
    ensures x / d == q
  {
    Ordered(d, x / d, q);
    Ordered(d, q, x / d);
  }

  lemma {:induction false} Ordered(d: nat, a: nat, b: nat)
    ensures a < b ==> d * a + d <= d * b
  {
    if a < b {
      Scaled(d, a + 1, b);
      assert d * (a + 1) == d * a + d;
    }
  }
}
