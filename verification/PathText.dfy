/** Normalising a UTF-8 text leaves a UTF-8 text. */
module PathText {
  import opened Bytes
  import opened PathNormalize
  import opened PathMeaning
  import opened Utf8

  predicate AreTexts(cs: seq<Bytes>) {
    forall i | 0 <= i < |cs| :: IsText(cs[i])
  }

  lemma {:induction false} SlashIsText()
    ensures IsText([SLASH])
  {
    OneChar([SLASH]);
  }

  /** Around a slash, texts make a text, and a text splits into texts. */
  lemma {:induction false} TextAroundSlash(a: Bytes, b: Bytes)
    ensures IsText(a + [SLASH] + b) <==> IsText(a) && IsText(b)
  {
    SlashIsText();
    assert a + [SLASH] + b == a + ([SLASH] + b);
    TextConcat([SLASH], b);
    if IsText(a) {
      TextConcat(a, [SLASH] + b);
    }
    if IsText(a + [SLASH] + b) {
      assert (a + ([SLASH] + b))[|a|] == SLASH;
      Utf8.SplitText(a, [SLASH] + b);
    }
  }

  lemma {:induction false} ComponentsAreTexts(p: Bytes)
    requires IsText(p)
    ensures AreTexts(Components(p))
    decreases |p|
  {
    if p != [] {
      if p[0] == SLASH {
        assert p == [] + [SLASH] + p[1..];
        TextAroundSlash([], p[1..]);
        ComponentsAreTexts(p[1..]);
      } else {
        var n := NameLen(p);
        if n < |p| {
          assert p == p[..n] + [SLASH] + p[n + 1..];
          TextAroundSlash(p[..n], p[n + 1..]);
          ComponentsAreTexts(p[n + 1..]);
          assert p[n..][1..] == p[n + 1..];
        } else {
          assert p[..n] == p && p[n..] == [];
        }
      }
    }
  }

  lemma {:induction false} StackIsTexts(stack: seq<Bytes>, cs: seq<Bytes>)
    requires AreTexts(stack) && AreTexts(cs)
    ensures AreTexts(StackFrom(stack, cs))
    decreases |cs|
  {
    if cs != [] {
      StackIsTexts(StackStep(stack, cs[0]), cs[1..]);
    }
  }

  lemma {:induction false} JoinIsText(stack: seq<Bytes>)
    requires AreTexts(stack)
    ensures IsText(Join(stack))
    decreases |stack|
  {
    var n := |stack|;
    if n > 1 {
      JoinIsText(stack[..n - 1]);
      TextAroundSlash(Join(stack[..n - 1]), stack[n - 1]);
    }
  }

  lemma {:induction false} RenderIsText(st: Out)
    requires AreTexts(st.stack)
    ensures IsText(Render(true, st))
  {
    JoinIsText(st.stack);
    TextAroundSlash([], Join(st.stack));
    assert [] + [SLASH] + Join(st.stack) == [SLASH] + Join(st.stack);
    if st.trailing {
      TextAroundSlash([SLASH] + Join(st.stack), []);
      assert Render(true, st) == [SLASH] + Join(st.stack) + [SLASH] + [];
    } else {
      assert Render(true, st) == [SLASH] + Join(st.stack);
    }
  }

  /** The names a text denotes make a text again. */
  lemma {:induction false} DenotedIsText(p: Bytes, trailing: bool)
    requires IsText(p)
    ensures IsText(Render(true, Out(StackEval(Components(p)), trailing)))
  {
    ComponentsAreTexts(p);
    StackIsTexts([], Components(p));
    RenderIsText(Out(StackEval(Components(p)), trailing));
  }
}
