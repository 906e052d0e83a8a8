/** What the normaliser's text means: theorems about `PathNormalize.Normalized`. */
module PathMeaning {
  import opened Bytes
  import opened PathNormalize

  // ---------------------------------------------------------------- components of a text

  lemma {:induction false} ComponentsConcat(a: Bytes, b: Bytes)
    ensures Components(a + [SLASH] + b) == Components(a) + Components(b)
    decreases |a|
  {
    var p := a + [SLASH] + b;
    if a == [] {
      assert p[1..] == b;
    } else if a[0] == SLASH {
      assert p[1..] == a[1..] + [SLASH] + b;
      ComponentsConcat(a[1..], b);
    } else {
      ComponentsConcat(a[NameLen(a)..], b);
      NameThenConcat(a, b);
    }
  }

  /** The step over a leading name. */
  lemma {:induction false} NameThenConcat(a: Bytes, b: Bytes)
    requires a != [] && a[0] != SLASH
    requires Components(a[NameLen(a)..] + [SLASH] + b) == Components(a[NameLen(a)..]) + Components(b)
    ensures Components(a + [SLASH] + b) == Components(a) + Components(b)
  {
    var n, p := NameLen(a), a + [SLASH] + b;
    NameLenInFront(a, b);
    Shorten(a, b, n);
    LeadingName(p, n, a[..n], a[n..] + [SLASH] + b);
    LeadingName(a, n, a[..n], a[n..]);
    assert [a[..n]] + (Components(a[n..]) + Components(b)) == ([a[..n]] + Components(a[n..])) + Components(b);
  }

  lemma {:induction false} Shorten(a: Bytes, b: Bytes, n: nat)
    requires n <= |a|
    ensures (a + [SLASH] + b)[..n] == a[..n] && (a + [SLASH] + b)[n..] == a[n..] + [SLASH] + b
  {
  }

  lemma {:induction false} LeadingName(p: Bytes, n: nat, name: Bytes, rest: Bytes)
    requires p != [] && p[0] != SLASH && n == NameLen(p) && p[..n] == name && p[n..] == rest
    ensures Components(p) == [name] + Components(rest)
  {
  }

  /** A slash after a text does not change its leading name. */
  lemma {:induction false} NameLenInFront(a: Bytes, b: Bytes)
    ensures NameLen(a + [SLASH] + b) == NameLen(a)
    decreases |a|
  {
    var p := a + [SLASH] + b;
    if a != [] && a[0] != SLASH {
      assert p[1..] == a[1..] + [SLASH] + b;
      NameLenInFront(a[1..], b);
    }
  }

  lemma {:induction false} ComponentsOfName(c: Bytes)
    requires IsName(c)
    ensures Components(c) == [c]
  {
    assert c[0..] == c && c[0..|c|] == c && c[|c|..] == [];
    ComponentsAtName(c, 0, |c|);
  }

  lemma {:induction false} ComponentsOfJoin(stack: seq<Bytes>)
    requires AreNames(stack)
    ensures Components(Join(stack)) == stack
  {
    var n := |stack|;
    if n == 1 {
      ComponentsOfName(stack[0]);
    } else if n > 1 {
      ComponentsOfJoin(stack[..n - 1]);
      ComponentsConcat(Join(stack[..n - 1]), stack[n - 1]);
      ComponentsOfName(stack[n - 1]);
      assert stack == stack[..n - 1] + [stack[n - 1]];
    }
  }

  lemma {:induction false} ComponentsOfRender(abs: bool, st: Out)
    requires ValidOut(st)
    ensures Components(Render(abs, st)) == st.stack
  {
    var body := Join(st.stack) + (if st.trailing then [SLASH] else []);
    ComponentsOfJoin(st.stack);
    ComponentsConcat(Join(st.stack), []);
    assert Join(st.stack) + [SLASH] + [] == Join(st.stack) + [SLASH];
    assert Join(st.stack) + [] == Join(st.stack);
    assert Components(body) == st.stack;
    assert ([SLASH] + body)[1..] == body;
    assert Render(abs, st) == (if abs then [SLASH] + body else body);
  }

  predicate NoDoubleSlash(p: Bytes) {
    forall k :: 0 <= k < |p| - 1 ==> !(p[k] == SLASH && p[k + 1] == SLASH)
  }

  lemma {:induction false} RenderHasNoDoubleSlash(abs: bool, stack: seq<Bytes>)
    requires AreNames(stack)
    ensures NoDoubleSlash(Render(abs, Out(stack, false)))
    ensures stack != [] ==> var text := Render(abs, Out(stack, false)); text != [] && text[|text| - 1] != SLASH
    decreases |stack|
  {
    var n := |stack|;
    if n > 0 {
      var top := stack[n - 1];
      var rest := Out(stack[..n - 1], false);
      RenderHasNoDoubleSlash(abs, rest.stack);
      RenderPush(abs, rest, top);
      assert rest.stack + [top] == stack;
      assert forall k :: 0 <= k < |top| ==> top[k] in top;
    }
  }

  lemma {:induction false} RenderIsTidy(abs: bool, st: Out)
    requires ValidOut(st)
    ensures NoDoubleSlash(Render(abs, st))
  {
    RenderHasNoDoubleSlash(abs, st.stack);
    assert Render(abs, st) == Render(abs, Out(st.stack, false)) + (if st.trailing then [SLASH] else []);
  }

  // ---------------------------------------------------------------- the buffer suffices

  /** Bytes needed to write the components with a slash before each. */
  function Width(cs: seq<Bytes>): nat {
    if cs == [] then 0 else |cs[0]| + 1 + Width(cs[1..])
  }

  lemma {:induction false} WidthOfComponents(p: Bytes)
    ensures Width(Components(p)) <= |p| + (if IsAbsolute(p) then 0 else 1)
    ensures p == [] ==> Components(p) == []
    decreases |p|
  {
    if p == [] {
    } else if p[0] == SLASH {
      WidthOfComponents(p[1..]);
    } else {
      var n := NameLen(p);
      WidthOfComponents(p[n..]);
      assert Components(p) == [p[..n]] + Components(p[n..]);
    }
  }

  /** Where the next name's slash would go: the text's length without a final slash. */
  function Reach(abs: bool, stack: seq<Bytes>): int {
    |Join(stack)| + (if abs then 1 else 0) - (if stack == [] then 1 else 0)
  }

  lemma {:induction false} ReachAfterPush(abs: bool, st: Out, c: Bytes)
    requires ValidOut(st) && IsName(c)
    ensures Reach(abs, st.stack + [c]) == |Render(abs, Out(st.stack + [c], false))|
         == Reach(abs, st.stack) + 1 + |c|
  {
    assert (st.stack + [c])[..|st.stack|] == st.stack;
  }

  lemma {:induction false} RunFits(abs: bool, cap: nat, st: Out, cs: seq<Bytes>)
    requires ValidOut(st) && AreNames(cs)
    requires Reach(abs, st.stack) + Width(cs) <= cap
    ensures Run(abs, cap, st, cs).Some?
    decreases |cs|
  {
    if cs != [] {
      ReachAfterPush(abs, st, cs[0]);
      RunFits(abs, cap, Step(abs, cap, st, cs[0]).value, cs[1..]);
    }
  }

  // ---------------------------------------------------------------- absolute paths

  /** Whether the last component other than "." is "..", starting from `t`. */
  function EndsByPop(t: bool, cs: seq<Bytes>): bool
    decreases |cs|
  {
    if cs == [] then t else EndsByPop(if cs[0] == THIS then t else cs[0] == PARENT, cs[1..])
  }

  lemma {:induction false} AbsoluteRun(cap: nat, st: Out, t: bool, cs: seq<Bytes>)
    requires ValidOut(st) && AreNames(cs) && st.trailing == (t && st.stack != [])
    ensures var r := Run(true, cap, st, cs);
            var stack := StackFrom(st.stack, cs);
            r.Some? ==> r.value == Out(stack, EndsByPop(t, cs) && stack != [])
    decreases |cs|
  {
    if cs != [] {
      var next := Step(true, cap, st, cs[0]);
      if next.Some? {
        AbsoluteRun(cap, next.value, if cs[0] == THIS then t else cs[0] == PARENT, cs[1..]);
      }
    }
  }

  function AbsoluteText(stack: seq<Bytes>): Bytes {
    [SLASH] + Join(stack)
  }

  predicate IsClean(stack: seq<Bytes>) {
    AreNames(stack) && forall k :: 0 <= k < |stack| ==> stack[k] != THIS && stack[k] != PARENT
  }

  lemma {:induction false} StackFromIsClean(stack: seq<Bytes>, cs: seq<Bytes>)
    requires IsClean(stack) && AreNames(cs)
    ensures IsClean(StackFrom(stack, cs))
    decreases |cs|
  {
    if cs != [] {
      StackFromIsClean(StackStep(stack, cs[0]), cs[1..]);
    }
  }

  lemma {:induction false} CleanIsFixed(below: seq<Bytes>, cs: seq<Bytes>)
    requires IsClean(cs)
    ensures StackFrom(below, cs) == below + cs
    decreases |cs|
  {
    if cs != [] {
      CleanIsFixed(below + [cs[0]], cs[1..]);
      assert below + [cs[0]] + cs[1..] == below + cs;
    } else {
      assert below + cs == below;
    }
  }

  /** For every absolute path and every buffer at least as long, the normaliser succeeds; its text
      is the canonical text of the stack evaluation, plus one slash exactly when the path ends by
      popping to a name. */
  lemma {:induction false} AbsoluteNormalizes(path: Bytes, cap: nat)
    requires IsAbsolute(path) && |path| <= cap
    ensures var r := Normalized(path, cap);
            var stack := StackEval(Components(path));
            && r.Some?
            && r.value == AbsoluteText(stack)
                        + (if stack != [] && EndsByPop(false, Components(path)) then [SLASH] else [])
  {
    var cs := Components(path);
    WidthOfComponents(path);
    RunFits(true, cap, Out([], false), cs);
    AbsoluteRun(cap, Out([], false), false, cs);
  }

  /** Hence the text has exactly the components of the stack evaluation and no double slash, and
      normalising it again changes nothing. */
  lemma {:induction false} AbsoluteMeaning(path: Bytes, cap: nat)
    requires IsAbsolute(path) && |path| <= cap
    ensures var r := Normalized(path, cap);
            && r.Some? && IsAbsolute(r.value) && |r.value| <= |path|
            && Components(r.value) == StackEval(Components(path))
            && IsClean(Components(r.value))
            && NoDoubleSlash(r.value)
            && StackEval(Components(r.value)) == Components(r.value)
  {
    var cs := Components(path);
    var stack := StackEval(cs);
    var st := Out(stack, stack != [] && EndsByPop(false, cs));
    AbsoluteNormalizes(path, cap);
    StackFromIsClean([], cs);
    assert Render(true, st) == Normalized(path, cap).value;
    ComponentsOfRender(true, st);
    RenderIsTidy(true, st);
    CleanIsFixed([], stack);
    assert [] + stack == stack;
    AbsoluteFits(path);
  }

  lemma {:induction false} AbsoluteFits(path: Bytes)
    requires IsAbsolute(path)
    ensures var stack := StackEval(Components(path));
            |Render(true, Out(stack, stack != [] && EndsByPop(false, Components(path))))| <= |path|
  {
    var cs := Components(path);
    WidthOfComponents(path);
    RunFits(true, |path|, Out([], false), cs);
    AbsoluteRun(|path|, Out([], false), false, cs);
    RunStaysWithin(true, |path|, Out([], false), cs);
  }

  lemma {:induction false} RunStaysWithin(abs: bool, cap: nat, st: Out, cs: seq<Bytes>)
    requires ValidOut(st) && AreNames(cs) && |Render(abs, st)| <= cap
    ensures var r := Run(abs, cap, st, cs); r.Some? ==> |Render(abs, r.value)| <= cap
    decreases |cs|
  {
    if cs != [] {
      var next := Step(abs, cap, st, cs[0]);
      if next.Some? {
        StepStaysWithin(abs, cap, st, cs[0]);
        RunStaysWithin(abs, cap, next.value, cs[1..]);
      }
    }
  }

  lemma {:induction false} StepStaysWithin(abs: bool, cap: nat, st: Out, c: Bytes)
    requires ValidOut(st) && IsName(c) && |Render(abs, st)| <= cap && Step(abs, cap, st, c).Some?
    ensures ValidOut(Step(abs, cap, st, c).value) && |Render(abs, Step(abs, cap, st, c).value)| <= cap
  {
  }

  /** The first `k` components denote a directory whose canonical text exceeds `cap`. */
  ghost predicate Overflows(stack: seq<Bytes>, cs: seq<Bytes>, k: nat, cap: nat) {
    k <= |cs| && |AbsoluteText(StackFrom(stack, cs[..k]))| > cap
  }

  /** With a shorter buffer the normaliser fails exactly when some prefix of the path denotes a
      directory whose canonical text is too long. */
  lemma {:induction false} AbsoluteFailsExactly(path: Bytes, cap: nat)
    requires IsAbsolute(path) && cap > 0
    ensures var cs := Components(path);
            Normalized(path, cap) == None
            <==> exists k: nat :: Overflows([], cs, k, cap)
  {
    FailsExactlyFrom(path, cap, [], Components(path));
  }

  lemma {:induction false} FailsExactlyFrom(path: Bytes, cap: nat, stack: seq<Bytes>, cs: seq<Bytes>)
    requires IsAbsolute(path) && cap > 0 && stack == [] && cs == Components(path)
    ensures Normalized(path, cap) == None <==> exists k: nat :: Overflows(stack, cs, k, cap)
  {
    var st := Out(stack, false);
    RunFailsExactly(cap, st, cs);
    assert Normalized(path, cap) == None <==> Run(true, cap, st, cs) == None;
  }

  lemma {:induction false} RunFailsExactly(cap: nat, st: Out, cs: seq<Bytes>)
    requires ValidOut(st) && AreNames(cs) && |AbsoluteText(st.stack)| <= cap
    ensures Run(true, cap, st, cs) == None
            <==> exists k: nat :: Overflows(st.stack, cs, k, cap)
    decreases |cs|
  {
    if cs == [] {
      forall k: nat
        ensures !Overflows(st.stack, cs, k, cap)
      {
        assert k == 0 ==> cs[..k] == [];
      }
    } else {
      var stack' := StackStep(st.stack, cs[0]);
      forall k: nat
        ensures Overflows(st.stack, cs, k, cap) <==> k > 0 && Overflows(stack', cs[1..], k - 1, cap)
      {
        OverflowShift(st.stack, cs, k, cap);
      }
      match Step(true, cap, st, cs[0])
      case None =>
        assert Overflows(stack', cs[1..], 0, cap) by {
          assert cs[1..][..0] == [];
        }
        assert Overflows(st.stack, cs, 0 + 1, cap);
      case Some(st') =>
        assert st'.stack == stack';
        StepStaysShort(cap, st, cs[0]);
        RunFailsExactly(cap, st', cs[1..]);
        if k: nat :| Overflows(stack', cs[1..], k, cap) {
          assert Overflows(st.stack, cs, k + 1, cap);
        }
    }
  }

  lemma {:induction false} StepStaysShort(cap: nat, st: Out, c: Bytes)
    requires ValidOut(st) && |AbsoluteText(st.stack)| <= cap && Step(true, cap, st, c).Some?
    ensures |AbsoluteText(Step(true, cap, st, c).value.stack)| <= cap
  {
  }

  lemma {:induction false} OverflowShift(stack: seq<Bytes>, cs: seq<Bytes>, k: nat, cap: nat)
    requires cs != [] && |AbsoluteText(stack)| <= cap
    ensures Overflows(stack, cs, k, cap) <==> k > 0 && Overflows(StackStep(stack, cs[0]), cs[1..], k - 1, cap)
  {
    if k == 0 {
      assert cs[..0] == [];
    } else if k <= |cs| {
      assert cs[..k][0] == cs[0] && cs[..k][1..] == cs[1..][..k - 1];
    }
  }

  // ---------------------------------------------------------------- relative paths

  /** The byte a relative scan leaves behind: the first byte of the bottom name when a ".." first
      meets a stack of one name. */
  function Leftover(stack: seq<Bytes>, cs: seq<Bytes>): Option<byte>
    requires AreNames(stack) && AreNames(cs)
    decreases |cs|
  {
    if cs == [] then None
    else if cs[0] == PARENT && |stack| == 1 then Some(stack[0][0])
    else Leftover(StackStep(stack, cs[0]), cs[1..])
  }

  lemma {:induction false} RelativeRun(cap: nat, st: Out, cs: seq<Bytes>)
    requires ValidOut(st) && AreNames(cs)
    ensures var r := Run(false, cap, st, cs);
            r.Some? ==> r.value.stack == match Leftover(st.stack, cs)
                                         case None => StackFrom(st.stack, cs)
                                         case Some(b) => [[b]] + StackFrom(st.stack, cs)
    decreases |cs|
  {
    if cs != [] {
      var next := Step(false, cap, st, cs[0]);
      if next.Some? {
        if cs[0] == PARENT && |st.stack| == 1 {
          var b := st.stack[0][0];
          assert st.stack[0][..1] == [b];
          RelativeRunAbove(cap, next.value, b, [], cs[1..]);
        } else {
          RelativeRun(cap, next.value, cs[1..]);
        }
      }
    }
  }

  lemma {:induction false} RelativeRunAbove(cap: nat, st: Out, b: byte, above: seq<Bytes>, cs: seq<Bytes>)
    requires ValidOut(st) && AreNames(cs) && st.stack == [[b]] + above
    ensures var r := Run(false, cap, st, cs);
            r.Some? ==> r.value.stack == [[b]] + StackFrom(above, cs)
    decreases |cs|
  {
    if cs != [] {
      var next := Step(false, cap, st, cs[0]);
      if next.Some? {
        var above' := StackStep(above, cs[0]);
        assert st.stack[0][..1] == [b];
        assert above != [] ==> st.stack[..|above|] == [[b]] + above[..|above| - 1];
        assert next.value.stack == [[b]] + above';
        RelativeRunAbove(cap, next.value, b, above', cs[1..]);
      }
    }
  }

  /** A relative path never overflows a buffer as long as itself. Its text keeps the path's meaning
      exactly when no ".." meets a stack of one name, or the byte left behind is a dot. */
  lemma {:induction false} RelativeMeaning(path: Bytes, cap: nat)
    requires path != [] && !IsAbsolute(path) && |path| <= cap
    ensures var r := Normalized(path, cap);
            var left := Leftover([], Components(path));
            && r.Some?
            && (StackEval(Components(r.value)) == StackEval(Components(path))
                <==> left.None? || left.value == DOT)
  {
    var cs := Components(path);
    var start := Out([], false);
    WidthOfComponents(path);
    RunFits(false, cap, start, cs);
    RelativeRun(cap, start, cs);
    var st := Run(false, cap, start, cs).value;
    ComponentsOfRender(false, st);
    ComponentsOfName([DOT]);
    StackFromIsClean([], cs);
    LeftoverIsNotSlash([], cs);
    EvalAboveLeftover(Leftover([], cs), StackEval(cs));
  }

  lemma {:induction false} EvalAboveLeftover(left: Option<byte>, stack: seq<Bytes>)
    requires IsClean(stack) && (left.Some? ==> left.value != SLASH)
    ensures StackEval(match left case None => stack case Some(b) => [[b]] + stack) == stack
            <==> left.None? || left.value == DOT
    ensures StackEval([THIS]) == []
  {
    CleanIsFixed([], stack);
    assert [] + stack == stack;
    var dot := [THIS];
    assert dot[1..] == [] && StackFrom([], dot) == StackFrom(StackStep([], dot[0]), dot[1..]);
    if left.Some? {
      var code := [[left.value]] + stack;
      assert code[1..] == stack;
      CleanIsFixed(StackStep([], [left.value]), stack);
      assert left.value != DOT ==> |StackEval(code)| == 1 + |stack|;
    }
  }

  lemma {:induction false} LeftoverIsNotSlash(stack: seq<Bytes>, cs: seq<Bytes>)
    requires AreNames(stack) && AreNames(cs)
    ensures var left := Leftover(stack, cs); left.Some? ==> left.value != SLASH
    decreases |cs|
  {
    if cs != [] && !(cs[0] == PARENT && |stack| == 1) {
      LeftoverIsNotSlash(StackStep(stack, cs[0]), cs[1..]);
    }
  }

  /** "ab/.." comes out as "a". */
  lemma {:induction false} RelativeParentLeavesByte()
    ensures Normalized([97, 98, SLASH, DOT, DOT], 1024) == Some([97])
  {
    var path: Bytes := [97, 98] + [SLASH] + [DOT, DOT];
    ComponentsConcat([97, 98], [DOT, DOT]);
    ComponentsOfName([97, 98]);
    ComponentsOfName([DOT, DOT]);
    assert path == [97, 98, SLASH, DOT, DOT];
    var cs := Components(path);
    assert cs == [[97, 98], PARENT] && cs[1..] == [PARENT];
    var st := Out([[97, 98]], false);
    assert [] + [cs[0]] == [cs[0]] && [97, 98][..1] == [97];
    assert Render(false, st) == [97, 98];
    assert Step(false, 1024, Out([], false), cs[0]) == Some(st);
    RunStep(false, 1024, st, PARENT, []);
    assert [PARENT] + [] == [PARENT];
    assert Run(false, 1024, st, cs[1..]) == Some(Out([[97]], false));
    assert Run(false, 1024, Out([], false), cs) == Run(false, 1024, st, cs[1..]);
    assert Render(false, Out([[97]], false)) == [97];
  }
}
