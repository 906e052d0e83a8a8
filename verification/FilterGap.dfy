/** Hashes that the sweep's Bloom filter tells apart. */
module FilterGap {
  import opened Bytes
  import opened BlobNames
  import opened Bloom
  import MmapImage

  const SIZE := MmapImage.BLOOM_SIZE

  /** The filter of one hash does not accept the other. */
  ghost predicate Apart(kept: Bytes, lost: Bytes) {
    !Accepts(AddKeys(Zeros(SIZE), [ToHex(kept)]), ToHex(lost))
  }

  /** A key whose first bit is not the other key's is rejected. */
  lemma {:induction false} ApartByFirstBit(kept: Bytes, lost: Bytes)
    requires var p, q := Positions(ToHex(kept), SIZE), Positions(ToHex(lost), SIZE); q.0 != p.0 && q.0 != p.1
    ensures Apart(kept, lost)
  {
    var keys := [ToHex(kept)];
    AcceptsExactly(SIZE, keys, ToHex(lost));
  }

  // ---------------------------------------------------------------- the last character of a key

  lemma {:induction false} WrapAdd(a: nat, b: nat)
    ensures (a % WORD + b) % WORD == (a + b) % WORD
  {
  }

  lemma {:induction false} OneShift(h: nat, x: byte)
    ensures ShiftAdd(h, 32, x) == (33 * h + x as nat) % WORD
  {
    WrapAdd(h * 32, h);
    WrapAdd(h * 32 + h, x as nat);
  }

  /** The last character is added to the first hash. */
  lemma {:induction false} FirstHashAppend(s: Bytes, x: byte, h1: nat, h2: nat)
    requires h1 < WORD && h2 < WORD
    ensures HashesFrom(s + [x], h1, h2).0 == (33 * HashesFrom(s, h1, h2).0 + x as nat) % WORD
    decreases |s|
  {
    if s == [] {
      assert (s + [x])[1..] == [] && HashesFrom([], h1, h2) == (h1, h2);
      OneShift(h1, x);
    } else {
      var h1' := ShiftAdd(h1, 32, s[0]);
      assert (s + [x])[1..] == s[1..] + [x];
      FirstHashAppend(s[1..], x, h1', WrappingSub(ShiftAdd(h2, 64, s[0]), h1'));
    }
  }

  /** The filter's size divides the word. */
  lemma {:induction false} WrapsTwice(a: nat)
    ensures a % WORD % (8 * SIZE) == a % (8 * SIZE)
  {
    var m := 8 * SIZE;
    assert WORD == m * 0x1000_0000_0000;
    assert a == m * (0x1000_0000_0000 * (a / WORD)) + a % WORD;
  }

  lemma {:induction false} FirstPosition(s: Bytes, x: byte)
    ensures Positions(s + [x], SIZE).0 == (33 * Hashes(s).0 + x as nat) % (8 * SIZE)
  {
    FirstHashAppend(s, x, 5381, 0);
    WrapsTwice(33 * Hashes(s).0 + x as nat);
  }

  // ---------------------------------------------------------------- three digests

  lemma {:induction false} HexAppend(h: Bytes, b: byte)
    ensures ToHex(h + [b]) == ToHex(h) + [HexDigit(b as nat / 16), HexDigit(b as nat % 16)]
    decreases |h|
  {
    if h == [] {
      assert h + [b] == [b] && [b][1..] == [];
    } else {
      assert (h + [b])[1..] == h[1..] + [b];
      HexAppend(h[1..], b);
    }
  }

  lemma {:induction false} DigestPosition(h: Bytes, d: byte)
    requires d as nat < 10
    ensures Positions(ToHex(h + [d]), SIZE).0 == (33 * Hashes(ToHex(h) + [48]).0 + 48 + d as nat) % (8 * SIZE)
  {
    var s := ToHex(h) + [48];
    HexAppend(h, d);
    assert ToHex(h + [d]) == s + [HexDigit(d as nat)];
    FirstPosition(s, HexDigit(d as nat));
  }

  lemma {:induction false} ThreeRemainders(x: nat)
    ensures var m := 8 * SIZE; x % m != (x + 1) % m && x % m != (x + 2) % m && (x + 1) % m != (x + 2) % m
  {
  }

  /** Of three digests that differ in their last byte only, one of two is apart from the third: their first
      bits differ, and only one of them can be its second. */
  lemma {:induction false} SomeAreApart(h: Bytes)
    ensures Apart(h + [0], h + [1]) || Apart(h + [0], h + [2])
  {
    DigestPosition(h, 0);
    DigestPosition(h, 1);
    DigestPosition(h, 2);
    ThreeRemainders(33 * Hashes(ToHex(h) + [48]).0 + 48);
    if Positions(ToHex(h + [1]), SIZE).0 != Positions(ToHex(h + [0]), SIZE).1 {
      ApartByFirstBit(h + [0], h + [1]);
    } else {
      ApartByFirstBit(h + [0], h + [2]);
    }
  }
}
