/** Names of blob files (crates/vrift-cas/src/lib.rs, `hash_to_hex`, `hex_to_hash`,
    `blob_path_with_metadata`, the match in `find_blob_path` and the parse in `CasIterator::next`). */
module BlobNames {
  import opened Bytes

  const UNDERSCORE: byte := 95
  const POINT: byte := 46
  const PLUS: byte := 43
  const HASH_LEN := 32
  const DOT_TMP: Bytes := [46, 116, 109, 112]

  // ---------------------------------------------------------------- hexadecimal

  function HexDigit(n: nat): byte
    requires n < 16
  {
    if n < 10 then (48 + n) as byte else (87 + n) as byte
  }

  function DigitValue(c: byte): Option<nat> {
    var x := c as nat;
    if 48 <= x <= 57 then Some(x - 48)
    else if 97 <= x <= 102 then Some(x - 87)
    else if 65 <= x <= 70 then Some(x - 55)
    else None
  }

  function ToHex(h: Bytes): (s: Bytes)
    ensures |s| == 2 * |h|
  {
    if h == [] then [] else [HexDigit(h[0] as nat / 16), HexDigit(h[0] as nat % 16)] + ToHex(h[1..])
  }

  /** `u8::from_str_radix` on two characters: upper case and a leading plus are accepted. */
  function ParsePair(a: byte, b: byte): Option<byte> {
    if a == PLUS then
      match DigitValue(b) case None => None case Some(y) => Some(y as byte)
    else
      match (DigitValue(a), DigitValue(b))
      case (Some(x), Some(y)) => Some((16 * x + y) as byte)
      case _ => None
  }

  function FromHexPairs(s: Bytes): Option<Bytes>
    requires |s| % 2 == 0
  {
    if s == [] then Some([])
    else match ParsePair(s[0], s[1])
      case None => None
      case Some(b) => match FromHexPairs(s[2..]) case None => None case Some(t) => Some([b] + t)
  }

  function FromHex(s: Bytes): Option<Bytes> {
    if |s| != 2 * HASH_LEN then None else FromHexPairs(s)
  }

  lemma {:induction false} PairRoundTrip(b: byte)
    ensures ParsePair(HexDigit(b as nat / 16), HexDigit(b as nat % 16)) == Some(b)
  {
    var hi, lo := b as nat / 16, b as nat % 16;
    assert DigitValue(HexDigit(hi)) == Some(hi) && DigitValue(HexDigit(lo)) == Some(lo);
    assert 16 * hi + lo == b as nat;
  }

  lemma {:induction false} FromHexStep(x: byte, y: byte, b: byte, s: Bytes, t: Bytes)
    requires |s| % 2 == 0 && ParsePair(x, y) == Some(b) && FromHexPairs(s) == Some(t)
    ensures FromHexPairs([x, y] + s) == Some([b] + t)
  {
    var all := [x, y] + s;
    assert all[0] == x && all[1] == y && all[2..] == s;
  }

  lemma {:induction false} HexPairsRoundTrip(h: Bytes)
    ensures FromHexPairs(ToHex(h)) == Some(h)
    decreases |h|
  {
    if h != [] {
      HexPairsRoundTrip(h[1..]);
      PairRoundTrip(h[0]);
      FromHexStep(HexDigit(h[0] as nat / 16), HexDigit(h[0] as nat % 16), h[0], ToHex(h[1..]), h[1..]);
      assert [h[0]] + h[1..] == h;
    }
  }

  /** The printed form of a hash parses back to it. */
  lemma {:induction false} HexRoundTrip(h: Bytes)
    requires |h| == HASH_LEN
    ensures FromHex(ToHex(h)) == Some(h)
  {
    HexPairsRoundTrip(h);
  }

  /** So two hashes print alike only when they are equal. */
  lemma {:induction false} ToHexInjective(h: Bytes, g: Bytes)
    requires ToHex(h) == ToHex(g)
    ensures h == g
  {
    HexPairsRoundTrip(h);
    HexPairsRoundTrip(g);
  }

  function Lower(c: byte): byte {
    if 65 <= c as nat <= 90 then (c as nat + 32) as byte else c
  }

  /** In lower case, and with a zero for a plus sign that begins a pair. */
  function Canonical(s: Bytes): (t: Bytes)
    ensures |t| == |s|
  {
    seq(|s|, i requires 0 <= i < |s| => if i % 2 == 0 && s[i] == PLUS then 48 else Lower(s[i]))
  }

  /** Exactly the strings parse whose canonical form is a printed form, and to that hash. */
  lemma {:induction false} ParsesExactly(s: Bytes, h: Bytes)
    requires |h| == HASH_LEN
    ensures FromHex(s) == Some(h) <==> Canonical(s) == ToHex(h)
  {
    if |s| == 2 * HASH_LEN {
      PairsParseExactly(s, h);
    }
  }

  lemma {:induction false} PairsParseExactly(s: Bytes, h: Bytes)
    requires |s| == 2 * |h|
    ensures FromHexPairs(s) == Some(h) <==> Canonical(s) == ToHex(h)
    decreases |s|
  {
    if s != [] {
      PairsParseExactly(s[2..], h[1..]);
      PairParsesExactly(s[0], s[1], h[0]);
      HeadAndTail(s, h);
      assert h == [h[0]] + h[1..];
      if FromHexPairs(s) == Some(h) {
        assert FromHexPairs(s[2..]).value == h[1..];
      }
    }
  }

  lemma {:induction false} PairParsesExactly(a: byte, b: byte, x: byte)
    ensures ParsePair(a, b) == Some(x) <==> && (if a == PLUS then 48 else Lower(a)) == HexDigit(x as nat / 16)
                                            && Lower(b) == HexDigit(x as nat % 16)
  {
    DigitParsesExactly(a, x as nat / 16);
    DigitParsesExactly(b, x as nat % 16);
  }

  lemma {:induction false} DigitParsesExactly(c: byte, n: nat)
    requires n < 16
    ensures DigitValue(c) == Some(n) <==> Lower(c) == HexDigit(n)
    ensures DigitValue(c).Some? ==> DigitValue(c).value < 16
  {
  }

  lemma {:induction false} HeadAndTail(s: Bytes, h: Bytes)
    requires |s| == 2 * |h| && s != []
    ensures var c, x := Canonical(s), ToHex(h);
            c == x <==> c[0] == x[0] && c[1] == x[1] && Canonical(s[2..]) == ToHex(h[1..])
  {
    var c, x := Canonical(s), ToHex(h);
    assert c == [c[0], c[1]] + Canonical(s[2..]);
    assert x == [x[0], x[1]] + ToHex(h[1..]);
    if c == x {
      assert c[2..] == x[2..];
    }
  }

  method HexToHash(s: Bytes) returns (r: Option<Bytes>)
    ensures r == FromHex(s)
  {
    if |s| != 2 * HASH_LEN {
      return None;
    }
    var hash: Bytes := [];
    assert s[0..] == s && forall t: Bytes :: hash + t == t;
    for i := 0 to HASH_LEN
      invariant |hash| == i
      invariant FromHex(s) == match FromHexPairs(s[2 * i..]) case None => None case Some(t) => Some(hash + t)
    {
      assert s[2 * i..][2..] == s[2 * (i + 1)..];
      match ParsePair(s[2 * i], s[2 * i + 1]) {
        case None => return None;
        case Some(b) =>
          assert forall t: Bytes :: hash + ([b] + t) == hash + [b] + t;
          hash := hash + [b];
      }
    }
    assert hash + [] == hash;
    return Some(hash);
  }

  // ---------------------------------------------------------------- decimal

  function Decimal(n: nat): (s: Bytes)
    ensures s != [] && forall i :: 0 <= i < |s| ==> 48 <= s[i] as nat <= 57
  {
    if n < 10 then [(48 + n) as byte] else Decimal(n / 10) + [(48 + n % 10) as byte]
  }

  /** The number a string of digits denotes. */
  function ValueOf(s: Bytes): int {
    if s == [] then 0 else 10 * ValueOf(s[..|s| - 1]) + (s[|s| - 1] as int - 48)
  }

  /** A printed size reads back as the size and has no leading zero. */
  lemma {:induction false} DecimalRoundTrip(n: nat)
    ensures ValueOf(Decimal(n)) == n && (n > 0 ==> Decimal(n)[0] != 48)
    decreases n
  {
    var s := Decimal(n);
    if n < 10 {
      assert s[..0] == [];
    } else {
      DecimalRoundTrip(n / 10);
      assert s[..|s| - 1] == Decimal(n / 10);
    }
  }

  // ---------------------------------------------------------------- file names

  /** `HEX_SIZE` or `HEX_SIZE.EXT` */
  function FileName(h: Bytes, size: nat, ext: Bytes): Bytes {
    ToHex(h) + [UNDERSCORE] + Decimal(size) + (if ext == [] then [] else [POINT] + ext)
  }

  /** How `find_blob_path` recognises a file of a hash. */
  predicate Matches(name: Bytes, h: Bytes) {
    ToHex(h) + [UNDERSCORE] <= name
  }

  predicate IsTmp(name: Bytes) {
    |name| > 4 && name[|name| - 4..] == DOT_TMP
  }

  /** Anything may follow the underscore, and a temporary name has something before ".tmp". */
  lemma {:induction false} NamesExactly(h: Bytes, rest: Bytes, stem: Bytes)
    ensures Matches(ToHex(h) + [95] + rest, h)
    ensures IsTmp(stem + [46, 116, 109, 112]) <==> stem != []
  {
    var name := stem + [46, 116, 109, 112];
    assert name[|name| - 4..] == [46, 116, 109, 112];
  }

  function BeforeUnderscore(s: Bytes): Bytes {
    if s == [] || s[0] == UNDERSCORE then [] else [s[0]] + BeforeUnderscore(s[1..])
  }

  /** How the iterator reads a hash off a file name. */
  function ParseName(name: Bytes): Option<Bytes> {
    if IsTmp(name) then None else FromHex(BeforeUnderscore(name))
  }

  lemma {:induction false} BeforeUnderscoreOf(a: Bytes, b: Bytes)
    requires UNDERSCORE !in a
    ensures BeforeUnderscore(a + [UNDERSCORE] + b) == a
    decreases |a|
  {
    var s := a + [UNDERSCORE] + b;
    if a != [] {
      assert s[1..] == a[1..] + [UNDERSCORE] + b;
      BeforeUnderscoreOf(a[1..], b);
    }
  }

  lemma {:induction false} HexHasNoUnderscore(h: Bytes)
    ensures UNDERSCORE !in ToHex(h) && POINT !in ToHex(h)
    decreases |h|
  {
    if h != [] {
      HexHasNoUnderscore(h[1..]);
    }
  }

  /** A file recognised as a blob of a hash, and not a temporary one, parses to that hash. */
  lemma {:induction false} MatchParses(name: Bytes, h: Bytes)
    requires |h| == HASH_LEN && Matches(name, h) && !IsTmp(name)
    ensures ParseName(name) == Some(h)
  {
    var head := ToHex(h) + [UNDERSCORE];
    assert name == ToHex(h) + [UNDERSCORE] + name[|head|..];
    HexHasNoUnderscore(h);
    BeforeUnderscoreOf(ToHex(h), name[|head|..]);
    HexRoundTrip(h);
  }

  /** So it is recognised for one hash only. */
  lemma {:induction false} MatchesOneHash(name: Bytes, h: Bytes, g: Bytes)
    requires |h| == HASH_LEN && |g| == HASH_LEN && Matches(name, h) && Matches(name, g)
    ensures h == g
  {
    var n := 2 * HASH_LEN;
    assert name[..n] == ToHex(h) && name[..n] == ToHex(g);
    ToHexInjective(h, g);
  }

  /** The name printed for a blob is recognised and parsed back, unless its extension is "tmp". */
  lemma {:induction false} FileNameRoundTrip(h: Bytes, size: nat, ext: Bytes)
    requires |h| == HASH_LEN
    ensures Matches(FileName(h, size, ext), h)
    ensures ext == [] ==> !IsTmp(FileName(h, size, ext))
    ensures !IsTmp(FileName(h, size, ext)) ==> ParseName(FileName(h, size, ext)) == Some(h)
  {
    var name := FileName(h, size, ext);
    assert name == (ToHex(h) + [UNDERSCORE]) + (Decimal(size) + if ext == [] then [] else [POINT] + ext);
    if ext == [] {
      NoPointNoTmp(h, size);
    }
    if !IsTmp(name) {
      MatchParses(name, h);
    }
  }

  lemma {:induction false} NoPointNoTmp(h: Bytes, size: nat)
    ensures !IsTmp(FileName(h, size, []))
  {
    var name := FileName(h, size, []);
    HexHasNoUnderscore(h);
    assert name == ToHex(h) + [UNDERSCORE] + Decimal(size);
    assert POINT !in name;
    if |name| > 4 {
      assert name[|name| - 4..][0] == name[|name| - 4];
    }
  }
}
