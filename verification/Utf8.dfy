/** Well-formed UTF-8 (section 4 of RFC 3629), as `std::str::from_utf8` tests it. */
module Utf8 {
  import opened Bytes

  predicate IsContinuation(x: byte) {
    0x80 <= x < 0xC0
  }

  /** The second byte that may follow a given first byte of a longer character. */
  predicate Second(x: byte, y: byte) {
    if x == 0xE0 then 0xA0 <= y < 0xC0
    else if x == 0xED then 0x80 <= y < 0xA0
    else if x == 0xF0 then 0x90 <= y < 0xC0
    else if x == 0xF4 then 0x80 <= y < 0x90
    else IsContinuation(y)
  }

  /** How many bytes the character starting with this byte has; 0 when none starts with it. */
  function Length(x: byte): nat {
    if x < 0x80 then 1
    else if x < 0xC2 then 0
    else if x < 0xE0 then 2
    else if x < 0xF0 then 3
    else if x < 0xF5 then 4
    else 0
  }

  /** A well-formed character stands at the front. */
  predicate StartsWithChar(s: Bytes) {
    && s != [] && 0 < Length(s[0]) <= |s|
    && (Length(s[0]) > 1 ==> Second(s[0], s[1]))
    && forall i | 2 <= i < Length(s[0]) :: IsContinuation(s[i])
  }

  predicate IsText(s: Bytes)
    decreases |s|
  {
    s == [] || (StartsWithChar(s) && IsText(s[Length(s[0])..]))
  }

  /** `from_utf8(s).unwrap_or("")` */
  function AsStr(s: Bytes): Bytes {
    if IsText(s) then s else []
  }

  /** No character straddles position `k`. */
  predicate Boundary(s: Bytes, k: nat)
    requires k <= |s|
  {
    k == |s| || !IsContinuation(s[k])
  }

  /** Behind a text, exactly a text makes a text. */
  lemma {:induction false} TextConcat(a: Bytes, b: Bytes)
    requires IsText(a)
    ensures IsText(a + b) <==> IsText(b)
    decreases |a|
  {
    if a == [] {
      assert a + b == b;
    } else {
      var n := Length(a[0]);
      assert (a + b)[n..] == a[n..] + b;
      TextConcat(a[n..], b);
    }
  }

  lemma {:induction false} CharContinues(s: Bytes, k: nat)
    requires StartsWithChar(s) && 0 < k < Length(s[0])
    ensures IsContinuation(s[k]) && !IsText(s[..k])
  {
    assert s[..k][0] == s[0];
  }

  /** A text cut at `k` is a text exactly when no character straddles `k`. */
  lemma {:induction false} CutIsText(s: Bytes, k: nat)
    requires IsText(s) && k <= |s|
    ensures IsText(s[..k]) <==> Boundary(s, k)
    decreases |s|
  {
    if 0 < k < |s| {
      var n := Length(s[0]);
      if k < n {
        CharContinues(s, k);
      } else {
        CutIsText(s[n..], k - n);
        assert s[..k] == s[..n] + s[n..][..k - n];
        OneChar(s[..n]);
        TextConcat(s[..n], s[n..][..k - n]);
      }
    } else if k == |s| {
      assert s[..k] == s;
    }
  }

  lemma {:induction false} OneChar(s: Bytes)
    requires StartsWithChar(s) && |s| == Length(s[0])
    ensures IsText(s)
  {
    assert s[Length(s[0])..] == [];
  }

  /** So a text splits into two at a boundary. */
  lemma {:induction false} SplitText(a: Bytes, b: Bytes)
    requires IsText(a + b) && Boundary(a + b, |a|)
    ensures IsText(a) && IsText(b)
  {
    CutIsText(a + b, |a|);
    assert (a + b)[..|a|] == a;
    TextConcat(a, b);
  }

  // ---------------------------------------------------------------- characters

  /** The scalar values of Unicode: every code point but the surrogates. */
  predicate IsScalar(c: nat) {
    c < 0xD800 || 0xE000 <= c < 0x11_0000
  }

  function Tail(c: nat): byte {
    (0x80 + c % 64) as byte
  }

  function Encode(c: nat): (s: Bytes)
    requires IsScalar(c)
    ensures s != []
  {
    if c < 0x80 then [c as byte]
    else if c < 0x800 then [(0xC0 + c / 64) as byte, Tail(c)]
    else if c < 0x1_0000 then [(0xE0 + c / 0x1000) as byte, Tail(c / 64), Tail(c)]
    else [(0xF0 + c / 0x4_0000) as byte, Tail(c / 0x1000), Tail(c / 64), Tail(c)]
  }

  function EncodeAll(cs: seq<nat>): Bytes
    requires forall i :: 0 <= i < |cs| ==> IsScalar(cs[i])
  {
    if cs == [] then [] else Encode(cs[0]) + EncodeAll(cs[1..])
  }

  /** The bytes encode a sequence of scalar values. */
  ghost predicate Encodes(s: Bytes, cs: seq<nat>) {
    (forall i :: 0 <= i < |cs| ==> IsScalar(cs[i])) && s == EncodeAll(cs)
  }

  lemma {:induction false} EncodedIsChar(c: nat)
    requires IsScalar(c)
    ensures StartsWithChar(Encode(c)) && Length(Encode(c)[0]) == |Encode(c)|
  {
  }

  lemma {:induction false} CharIsEncoded(s: Bytes) returns (c: nat)
    requires StartsWithChar(s)
    ensures IsScalar(c) && Encode(c) == s[..Length(s[0])]
  {
    var n := Length(s[0]);
    if n == 1 {
      c := s[0] as nat;
    } else if n == 2 {
      c := 64 * (s[0] as nat - 0xC0) + (s[1] as nat - 0x80);
    } else if n == 3 {
      c := ThreeBytes(s);
    } else {
      c := FourBytes(s);
    }
  }

  lemma {:induction false} ThreeBytes(s: Bytes) returns (c: nat)
    requires StartsWithChar(s) && Length(s[0]) == 3
    ensures IsScalar(c) && Encode(c) == s[..3]
  {
    assert IsContinuation(s[2]);
    var x, y, z := s[0] as nat - 0xE0, s[1] as nat - 0x80, s[2] as nat - 0x80;
    c := 0x1000 * x + 64 * y + z;
    assert c / 64 == 64 * x + y && c / 0x1000 == x && c % 64 == z && c / 64 % 64 == y;
  }

  lemma {:induction false} FourBytes(s: Bytes) returns (c: nat)
    requires StartsWithChar(s) && Length(s[0]) == 4
    ensures IsScalar(c) && Encode(c) == s[..4]
  {
    assert IsContinuation(s[2]) && IsContinuation(s[3]);
    var w, x, y, z := s[0] as nat - 0xF0, s[1] as nat - 0x80, s[2] as nat - 0x80, s[3] as nat - 0x80;
    c := 0x4_0000 * w + 0x1000 * x + 64 * y + z;
    assert c / 64 == 0x1000 * w + 64 * x + y && c / 0x1000 == 64 * w + x && c / 0x4_0000 == w;
    assert c % 64 == z && c / 64 % 64 == y && c / 0x1000 % 64 == x;
  }

  /** The test accepts exactly the encodings of sequences of scalar values. */
  lemma {:induction false} TextExactly(s: Bytes)
    ensures IsText(s) <==> exists cs :: Encodes(s, cs)
  {
    if IsText(s) {
      var cs := Characters(s);
    }
    if cs :| Encodes(s, cs) {
      EncodedIsText(cs);
    }
  }

  lemma {:induction false} Characters(s: Bytes) returns (cs: seq<nat>)
    requires IsText(s)
    ensures Encodes(s, cs)
    decreases |s|
  {
    cs := [];
    if s != [] {
      var n := Length(s[0]);
      var c := CharIsEncoded(s);
      var rest := Characters(s[n..]);
      cs := [c] + rest;
      assert cs[1..] == rest && s == s[..n] + s[n..];
    }
  }

  lemma {:induction false} EncodedIsText(cs: seq<nat>)
    requires forall i :: 0 <= i < |cs| ==> IsScalar(cs[i])
    ensures IsText(EncodeAll(cs))
    decreases |cs|
  {
    if cs != [] {
      EncodedIsText(cs[1..]);
      EncodedIsChar(cs[0]);
      OneChar(Encode(cs[0]));
      TextConcat(Encode(cs[0]), EncodeAll(cs[1..]));
    }
  }
}
