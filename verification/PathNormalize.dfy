/** Path normalisation over a caller-supplied byte buffer
    (crates/vrift-inception-layer/src/path.rs, `raw_path_normalize`).

    Three levels: `StackEval` is the textbook meaning of a path, a stack of names; `Run` is the
    stack of names the code keeps implicitly, with the capacity of the buffer and the trailing
    slash a ".." leaves behind; `Normalize` is the in-place byte algorithm. */
module PathNormalize {
  import opened Bytes

  const SLASH: byte := 47
  const DOT: byte := 46
  const THIS: Bytes := [DOT]
  const PARENT: Bytes := [DOT, DOT]

  // ---------------------------------------------------------------- components

  predicate IsName(c: Bytes) {
    c != [] && SLASH !in c
  }

  predicate AreNames(cs: seq<Bytes>) {
    forall k :: 0 <= k < |cs| ==> IsName(cs[k])
  }

  /** Length of the longest slash-free prefix. */
  function NameLen(p: Bytes): (n: nat)
    ensures n <= |p| && SLASH !in p[..n] && (n < |p| ==> p[n] == SLASH)
  {
    if p == [] || p[0] == SLASH then 0
    else
      var n := NameLen(p[1..]);
      assert p[..n + 1] == [p[0]] + p[1..][..n];
      n + 1
  }

  /** The non-empty, slash-free runs of a path, in order. */
  function Components(p: Bytes): (cs: seq<Bytes>)
    ensures AreNames(cs)
    decreases |p|
  {
    if p == [] then []
    else if p[0] == SLASH then Components(p[1..])
    else [p[..NameLen(p)]] + Components(p[NameLen(p)..])
  }

  // ---------------------------------------------------------------- reference meaning

  function StackStep(stack: seq<Bytes>, c: Bytes): seq<Bytes> {
    if c == THIS then stack
    else if c == PARENT then if stack == [] then [] else stack[..|stack| - 1]
    else stack + [c]
  }

  /** The names a path denotes, starting from `stack`: "." is dropped, ".." pops and stays at
      the bottom of an empty stack. */
  function StackFrom(stack: seq<Bytes>, cs: seq<Bytes>): seq<Bytes>
    decreases |cs|
  {
    if cs == [] then stack else StackFrom(StackStep(stack, cs[0]), cs[1..])
  }

  function StackEval(cs: seq<Bytes>): seq<Bytes> {
    StackFrom([], cs)
  }

  // ---------------------------------------------------------------- the code's stack

  /** What the output buffer holds: the names, and whether a ".." left a slash behind them. */
  datatype Out = Out(stack: seq<Bytes>, trailing: bool)

  ghost predicate ValidOut(st: Out) {
    AreNames(st.stack) && (st.trailing ==> st.stack != [])
  }

  function Join(stack: seq<Bytes>): Bytes {
    if |stack| == 0 then []
    else if |stack| == 1 then stack[0]
    else Join(stack[..|stack| - 1]) + [SLASH] + stack[|stack| - 1]
  }

  function Render(abs: bool, st: Out): Bytes {
    (if abs then [SLASH] else []) + Join(st.stack) + (if st.trailing then [SLASH] else [])
  }

  /** One component of the scan; None when the buffer is too short. */
  function Step(abs: bool, cap: nat, st: Out, c: Bytes): Option<Out>
    requires ValidOut(st)
  {
    if c == THIS then Some(st)
    else if c == PARENT then Some(Pop(abs, st))
    else
      var st' := Out(st.stack + [c], false);
      if |Render(abs, st')| <= cap then Some(st') else None
  }

  /** A relative path has no slash to stop at below its first name, so the scan stops one byte
      short of emptying the buffer. */
  function Pop(abs: bool, st: Out): (st': Out)
    requires ValidOut(st)
    ensures ValidOut(st')
  {
    var n := |st.stack|;
    if n == 0 then st
    else if n == 1 then if abs then Out([], false) else Out([st.stack[0][..1]], false)
    else Out(st.stack[..n - 1], true)
  }

  function Run(abs: bool, cap: nat, st: Out, cs: seq<Bytes>): (r: Option<Out>)
    requires ValidOut(st) && AreNames(cs)
    ensures r.Some? ==> ValidOut(r.value)
    decreases |cs|
  {
    if cs == [] then Some(st)
    else match Step(abs, cap, st, cs[0])
      case None => None
      case Some(st') => Run(abs, cap, st', cs[1..])
  }

  predicate IsAbsolute(path: Bytes) {
    path != [] && path[0] == SLASH
  }

  /** The normaliser on values: the text it leaves in a buffer of `cap` bytes. */
  function Normalized(path: Bytes, cap: nat): Option<Bytes> {
    if path == [] || cap == 0 then None
    else match Run(IsAbsolute(path), cap, Out([], false), Components(path))
      case None => None
      case Some(st) =>
        var text := Render(IsAbsolute(path), st);
        Some(if text == [] then [DOT] else text)
  }

  // ---------------------------------------------------------------- the in-place algorithm

  lemma {:induction false} ComponentsAtSlash(p: Bytes, i: nat)
    requires i < |p| && p[i] == SLASH
    ensures Components(p[i..]) == Components(p[i + 1..])
  {
    assert p[i..][1..] == p[i + 1..];
  }

  lemma {:induction false} ComponentsAtName(p: Bytes, start: nat, i: nat)
    requires start < i <= |p| && SLASH !in p[start..i] && (i < |p| ==> p[i] == SLASH)
    ensures Components(p[start..]) == [p[start..i]] + Components(p[i..])
  {
    var q := p[start..];
    var n := NameLen(q);
    assert p[start] in p[start..i];
    assert forall k :: 0 <= k < i - start ==> q[k] == p[start..i][k];
    assert forall k :: 0 <= k < n ==> q[k] == q[..n][k];
    assert q[..n] == p[start..i] && q[n..] == p[i..];
  }

  /** Dropping the last name leaves everything up to and including the slash before it. */
  lemma {:induction false} RenderSplit(abs: bool, st: Out) returns (base: Bytes)
    requires ValidOut(st) && st.stack != []
    ensures var top := st.stack[|st.stack| - 1];
            Render(abs, st) == base + top + (if st.trailing then [SLASH] else [])
    ensures base == if |st.stack| == 1 then (if abs then [SLASH] else [])
                    else Render(abs, Pop(abs, st))
    ensures base != [] ==> base[|base| - 1] == SLASH
  {
    if |st.stack| == 1 {
      base := if abs then [SLASH] else [];
    } else {
      base := Render(abs, Pop(abs, st));
    }
  }

  lemma {:induction false} RenderPush(abs: bool, st: Out, c: Bytes)
    requires ValidOut(st) && IsName(c)
    ensures var text := Render(abs, st);
            var sep := if text != [] && text[|text| - 1] != SLASH then [SLASH] else [];
            Render(abs, Out(st.stack + [c], false)) == text + sep + c
  {
    var n := |st.stack|;
    if n > 0 {
      assert (st.stack + [c])[..n] == st.stack;
      var base := RenderSplit(abs, st);
      var top := st.stack[n - 1];
      assert top[|top| - 1] in top;
    }
  }

  /** Backtracks from the end of `base + top + tail` to the end of `base`, but never below one
      byte. */
  method Backtrack(out: array<byte>, from: nat, ghost base: Bytes, ghost top: Bytes, ghost tail: Bytes)
    returns (idx: nat)
    requires 1 < from <= out.Length && out[..from] == base + top + tail
    requires IsName(top) && (tail == [] || tail == [SLASH])
    requires base != [] ==> base[|base| - 1] == SLASH
    ensures idx <= from && out[..idx] == if base == [] then top[..1] else base
  {
    ghost var text := out[..from];
    assert forall k :: 0 <= k < |base| ==> text[k] == base[k];
    assert forall k :: 0 <= k < |top| ==> text[|base| + k] == top[k] && top[k] in top;
    idx := from - 1;
    while idx > 1 && out[idx - 1] != SLASH
      invariant 1 <= idx < from
      invariant |base| <= idx <= |base| + |top|
    {
      idx := idx - 1;
    }
    assert idx > |base| ==> out[idx - 1] == text[|base| + (idx - 1 - |base|)];
    assert out[..idx] == text[..idx];
  }

  /** Appends one name behind a separating slash when one is needed. */
  method Append(out: array<byte>, from: nat, name: Bytes, abs: bool, ghost st: Out)
    returns (ok: bool, idx: nat)
    requires ValidOut(st) && IsName(name) && from <= out.Length && out[..from] == Render(abs, st)
    modifies out
    ensures ok <==> |Render(abs, Out(st.stack + [name], false))| <= out.Length
    ensures ok ==> idx <= out.Length && out[..idx] == Render(abs, Out(st.stack + [name], false))
  {
    RenderPush(abs, st, name);
    idx := from;
    if idx > 0 && out[idx - 1] != SLASH {
      if idx < out.Length {
        out[idx] := SLASH;
        idx := idx + 1;
      } else {
        return false, idx;
      }
    }
    ghost var kept := out[..idx];
    if idx + |name| <= out.Length {
      forall k | 0 <= k < |name| {
        out[idx + k] := name[k];
      }
      assert out[..idx + |name|] == kept + name;
      idx := idx + |name|;
      return true, idx;
    }
    return false, idx;
  }

  /** One component: dropped, popped or appended. */
  method Consume(out: array<byte>, from: nat, component: Bytes, abs: bool, ghost st: Out)
    returns (ok: bool, idx: nat)
    requires ValidOut(st) && IsName(component) && from <= out.Length && out[..from] == Render(abs, st)
    modifies out
    ensures match Step(abs, out.Length, st, component)
            case None => !ok
            case Some(st') => ok && idx <= out.Length && out[..idx] == Render(abs, st')
  {
    if component == THIS {
      return true, from;
    } else if component == PARENT {
      if from > 1 {
        ghost var base := RenderSplit(abs, st);
        idx := Backtrack(out, from, base, st.stack[|st.stack| - 1], if st.trailing then [SLASH] else []);
        return true, idx;
      }
      PopAtStart(abs, st);
      return true, from;
    } else {
      ok, idx := Append(out, from, component, abs, st);
    }
  }

  /** Skips slashes from `from`, then finds the end of the component there. */
  method NextName(path: Bytes, from: nat) returns (start: nat, end: nat)
    requires from <= |path|
    ensures from <= start <= end <= |path|
    ensures start == |path| ==> Components(path[from..]) == []
    ensures start < |path| ==> start < end && IsName(path[start..end])
    ensures start < |path| ==> Components(path[from..]) == [path[start..end]] + Components(path[end..])
  {
    start := from;
    while start < |path| && path[start] == SLASH
      invariant from <= start <= |path| && Components(path[start..]) == Components(path[from..])
    {
      ComponentsAtSlash(path, start);
      start := start + 1;
    }
    end := start;
    while end < |path| && path[end] != SLASH
      invariant start <= end <= |path| && SLASH !in path[start..end]
    {
      end := end + 1;
    }
    if start < |path| {
      ComponentsAtName(path, start, end);
    }
  }

  method Scan(path: Bytes, out: array<byte>, from: nat, abs: bool) returns (ok: bool, outIdx: nat)
    requires from <= out.Length && out[..from] == Render(abs, Out([], false))
    modifies out
    ensures match Run(abs, out.Length, Out([], false), Components(path))
            case None => !ok
            case Some(st) => ok && outIdx <= out.Length && out[..outIdx] == Render(abs, st)
  {
    outIdx := from;
    ghost var st := Out([], false);
    var i := 0;
    assert path[i..] == path;
    while i < |path|
      invariant i <= |path| && outIdx <= out.Length
      invariant ValidOut(st) && out[..outIdx] == Render(abs, st)
      invariant Run(abs, out.Length, st, Components(path[i..]))
             == Run(abs, out.Length, Out([], false), Components(path))
    {
      var start, end := NextName(path, i);
      if start == |path| {
        return true, outIdx;
      }
      ok, outIdx := Consume(out, outIdx, path[start..end], abs, st);
      RunStep(abs, out.Length, st, path[start..end], Components(path[end..]));
      if !ok {
        return false, outIdx;
      }
      st := Step(abs, out.Length, st, path[start..end]).value;
      i := end;
    }
    return true, outIdx;
  }

  lemma {:induction false} RunStep(abs: bool, cap: nat, st: Out, c: Bytes, cs: seq<Bytes>)
    requires ValidOut(st) && IsName(c) && AreNames(cs)
    ensures AreNames([c] + cs)
    ensures Run(abs, cap, st, [c] + cs)
         == match Step(abs, cap, st, c) case None => None case Some(st') => Run(abs, cap, st', cs)
  {
    assert ([c] + cs)[1..] == cs;
  }

  method Normalize(path: Bytes, out: array<byte>) returns (r: Option<nat>)
    modifies out
    ensures match r
            case None => Normalized(path, out.Length) == None
            case Some(n) => n <= out.Length && Normalized(path, out.Length) == Some(out[..n])
  {
    if path == [] || out.Length == 0 {
      return None;
    }
    var outIdx: nat := 0;
    var abs := path[0] == SLASH;
    if abs {
      out[0] := SLASH;
      outIdx := 1;
    }
    var ok;
    ok, outIdx := Scan(path, out, outIdx, abs);
    if !ok {
      return None;
    }
    if outIdx == 0 {
      out[0] := if abs then SLASH else DOT;
      assert out[..1] == [DOT];
      outIdx := 1;
    }
    return Some(outIdx);
  }

  /** With at most one byte written there is nothing to backtrack over. */
  lemma {:induction false} PopAtStart(abs: bool, st: Out)
    requires ValidOut(st) && |Render(abs, st)| <= 1
    ensures Pop(abs, st) == st
  {
    if st.stack != [] {
      var base := RenderSplit(abs, st);
      var top := st.stack[|st.stack| - 1];
      assert base == [] && |top| == 1 && !st.trailing;
      assert |st.stack| == 1 && top[..1] == top;
    }
  }
}
