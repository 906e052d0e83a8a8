/** Resolution of a path into the virtual file system
    (crates/vrift-inception-layer/src/path.rs, `PathResolver::resolve`; the bounded writer is
    `StackWriter` in macros.rs). Linux branch, on bytes, with the UTF-8 tests the code makes. */
module PathResolver {
  import opened Bytes
  import opened PathNormalize
  import opened PathMeaning
  import opened PathText
  import opened Utf8

  const BUFFER := 1024

  datatype VfsPath = VfsPath(absolute: Bytes, manifestKey: Bytes)

  function Clip(s: Bytes, n: nat): Bytes {
    if |s| <= n then s else s[..n]
  }

  /** A writer that silently drops what does not fit. */
  class StackWriter {
    const buf: array<byte>
    var pos: nat

    ghost predicate Valid()
      reads this
    {
      pos <= buf.Length
    }

    ghost function Text(): Bytes
      reads this, buf
      requires Valid()
    {
      buf[..pos]
    }

    constructor (capacity: nat)
      ensures Valid() && fresh(buf) && buf.Length == capacity && Text() == []
    {
      buf := new byte[capacity];
      pos := 0;
    }

    method WriteStr(s: Bytes)
      requires Valid()
      modifies this`pos, buf
      ensures Valid() && Text() == Clip(old(Text()) + s, buf.Length)
    {
      var remaining := buf.Length - pos;
      var n := if |s| <= remaining then |s| else remaining;
      forall k | 0 <= k < n {
        buf[pos + k] := s[k];
      }
      pos := pos + n;
    }

    /** The text written, or the empty text when it was cut inside a character. */
    method AsText() returns (s: Bytes)
      requires Valid()
      ensures s == AsStr(Text())
    {
      s := AsStr(buf[..pos]);
    }
  }

  // ---------------------------------------------------------------- resolution on values

  predicate EndsWithSlash(s: Bytes) {
    s != [] && s[|s| - 1] == SLASH
  }

  function Anchored(root: Bytes, path: Bytes): Option<Bytes> {
    if IsAbsolute(path) then Some(path)
    else if root == [] then None
    else Some(root + [SLASH] + path)
  }

  predicate Inside(prefix: Bytes, text: Bytes) {
    prefix <= text && (|text| > |prefix| && !EndsWithSlash(prefix) ==> text[|prefix|] == SLASH)
  }

  predicate BelowRoot(root: Bytes, text: Bytes) {
    && text != [] && root != [] && root <= text
    && (|text| == |root| || EndsWithSlash(root) || text[|root|] == SLASH)
  }

  function Lead(key: Bytes): Bytes {
    if IsAbsolute(key) then key else AsStr(Clip([SLASH] + key, BUFFER))
  }

  function Key(prefix: Bytes, root: Bytes, text: Bytes): Bytes
    requires prefix <= text
  {
    if BelowRoot(root, text) then Lead(text[|root|..])
    else if IsAbsolute(prefix) && (root == [] || !(root <= prefix)) then text
    else Lead(text[|prefix|..])
  }

  function Resolved(prefix: Bytes, root: Bytes, path: Bytes): Option<VfsPath> {
    if prefix == [] then None
    else match Anchored(root, path)
      case None => None
      case Some(anchored) =>
        match Normalized(AsStr(Clip(anchored, BUFFER)), BUFFER)
        case None => None
        case Some(text) =>
          if IsText(text) && Inside(prefix, text) then Some(VfsPath(text, Key(prefix, root, text))) else None
  }

  // ---------------------------------------------------------------- the resolver

  method WriteLead(key: Bytes) returns (r: Bytes)
    ensures r == Lead(key)
  {
    if key == [] || key[0] != SLASH {
      var w := new StackWriter(BUFFER);
      w.WriteStr([SLASH]);
      w.WriteStr(key);
      assert w.Text() == Clip([SLASH] + key, BUFFER);
      r := w.AsText();
    } else {
      r := key;
    }
  }

  /** Step 1: the absolute path, as far as the buffer takes it. */
  method WriteAnchored(root: Bytes, path: Bytes) returns (r: Option<Bytes>)
    ensures r == match Anchored(root, path) case None => None case Some(a) => Some(AsStr(Clip(a, BUFFER)))
  {
    var absWriter := new StackWriter(BUFFER);
    if path == [] || path[0] != SLASH {
      if root == [] {
        return None;
      }
      absWriter.WriteStr(root);
      absWriter.WriteStr([SLASH]);
      absWriter.WriteStr(path);
      ClipTwice(root, [SLASH], path);
    } else {
      absWriter.WriteStr(path);
      assert [] + path == path;
    }
    var absPath := absWriter.AsText();
    return Some(absPath);
  }

  /** Step 4: the manifest key. */
  method WriteKey(prefix: Bytes, root: Bytes, text: Bytes) returns (key: Bytes)
    requires prefix != [] && prefix <= text
    ensures key == Key(prefix, root, text)
  {
    if BelowRoot(root, text) {
      key := WriteLead(text[|root|..]);
    } else if prefix[0] == SLASH && (root == [] || !(root <= prefix)) {
      key := text;
    } else {
      key := WriteLead(text[|prefix|..]);
    }
  }

  method Resolve(prefix: Bytes, root: Bytes, path: Bytes) returns (r: Option<VfsPath>)
    ensures r == Resolved(prefix, root, path)
  {
    if prefix == [] {
      return None;
    }
    var absPath := WriteAnchored(root, path);
    if absPath == None {
      return None;
    }
    var normBuf := new byte[BUFFER];
    var len := Normalize(absPath.value, normBuf);
    if len == None {
      return None;
    }
    var text := normBuf[..len.value];
    if !IsText(text) || !(prefix <= text) {
      return None;
    }
    if |text| > |prefix| && prefix[|prefix| - 1] != SLASH && text[|prefix|] != SLASH {
      return None;
    }
    var key := WriteKey(prefix, root, text);
    return Some(VfsPath(text, key));
  }

  lemma {:induction false} ClipTwice(a: Bytes, b: Bytes, c: Bytes)
    ensures Clip(Clip(Clip([] + a, BUFFER) + b, BUFFER) + c, BUFFER) == Clip(a + b + c, BUFFER)
  {
    assert [] + a == a;
  }

  // ---------------------------------------------------------------- containment

  lemma {:induction false} JoinAppend(a: seq<Bytes>, b: seq<Bytes>)
    requires a != [] && b != []
    ensures Join(a + b) == Join(a) + [SLASH] + Join(b)
    decreases |b|
  {
    var n := |b|;
    assert (a + b)[..|a + b| - 1] == a + b[..n - 1];
    if n > 1 {
      JoinAppend(a, b[..n - 1]);
    } else {
      assert a + b[..n - 1] == a;
    }
  }

  lemma {:induction false} InsideGivesNames(prefix: Bytes, text: Bytes)
    requires Inside(prefix, text) && !EndsWithSlash(prefix)
    ensures Components(prefix) <= Components(text)
  {
    var rest := text[|prefix|..];
    if rest == [] {
      assert text == prefix;
    } else {
      assert text == prefix + [SLASH] + rest[1..];
      ComponentsConcat(prefix, rest[1..]);
    }
  }

  lemma {:induction false} NamesGiveInside(pc: seq<Bytes>, st: Out)
    requires pc != [] && pc <= st.stack
    ensures Inside(AbsoluteText(pc), Render(true, st))
  {
    var prefix, text := AbsoluteText(pc), Render(true, st);
    var tail := if st.trailing then [SLASH] else [];
    var rest := st.stack[|pc|..];
    assert st.stack == pc + rest;
    if rest != [] {
      JoinAppend(pc, rest);
      assert text == prefix + ([SLASH] + Join(rest) + tail);
    } else {
      assert st.stack == pc && text == prefix + tail;
    }
  }

  lemma {:induction false} CanonicalText(pc: seq<Bytes>)
    requires pc != [] && AreNames(pc)
    ensures Components(AbsoluteText(pc)) == pc && !EndsWithSlash(AbsoluteText(pc))
  {
    assert AbsoluteText(pc) == Render(true, Out(pc, false));
    ComponentsOfRender(true, Out(pc, false));
    RenderHasNoDoubleSlash(true, pc);
  }

  /** A canonical prefix text matches on component boundaries exactly when its names are the
      first names of the text. */
  lemma {:induction false} InsideIsContainment(pc: seq<Bytes>, st: Out)
    requires pc != [] && AreNames(pc) && ValidOut(st)
    ensures Inside(AbsoluteText(pc), Render(true, st)) <==> pc <= st.stack
  {
    CanonicalText(pc);
    ComponentsOfRender(true, st);
    if pc <= st.stack {
      NamesGiveInside(pc, st);
    }
    if Inside(AbsoluteText(pc), Render(true, st)) {
      InsideGivesNames(AbsoluteText(pc), Render(true, st));
    }
  }

  lemma {:induction false} ComponentsOfAnchored(root: Bytes, path: Bytes)
    requires IsAbsolute(path) || IsAbsolute(root)
    ensures var a := Anchored(root, path);
            && a.Some? && IsAbsolute(a.value)
            && Components(a.value) == (if IsAbsolute(path) then [] else Components(root)) + Components(path)
  {
    if !IsAbsolute(path) {
      ComponentsConcat(root, path);
    }
  }

  /** The names a path denotes once anchored at the project root. */
  function Denotes(root: Bytes, path: Bytes): seq<Bytes> {
    StackEval((if IsAbsolute(path) then [] else Components(root)) + Components(path))
  }

  /** The part of the anchored path that the buffer keeps. */
  function Kept(root: Bytes, path: Bytes): Bytes
    requires IsAbsolute(path) || IsAbsolute(root)
  {
    Clip(Anchored(root, path).value, BUFFER)
  }

  predicate Fits(root: Bytes, path: Bytes)
    requires IsAbsolute(path) || IsAbsolute(root)
  {
    |Anchored(root, path).value| <= BUFFER
  }

  /** The buffer ends between two characters of the path, or behind it. */
  predicate CutsBetween(root: Bytes, path: Bytes)
    requires IsAbsolute(path) || IsAbsolute(root)
  {
    Fits(root, path) || !IsContinuation(Anchored(root, path).value[BUFFER])
  }

  /** The names that the kept part denotes. */
  function KeptNames(root: Bytes, path: Bytes): seq<Bytes>
    requires IsAbsolute(path) || IsAbsolute(root)
  {
    StackEval(Components(Kept(root, path)))
  }

  /** The arguments are Rust strings. */
  predicate AreStrings(prefix: Bytes, root: Bytes, path: Bytes) {
    IsText(prefix) && IsText(root) && IsText(path)
  }

  lemma {:induction false} KeptIsText(root: Bytes, path: Bytes)
    requires (IsAbsolute(path) || IsAbsolute(root)) && IsText(root) && IsText(path)
    ensures IsText(Kept(root, path)) <==> CutsBetween(root, path)
    ensures IsAbsolute(Kept(root, path))
  {
    var a := Anchored(root, path).value;
    TextAroundSlash(root, path);
    if !Fits(root, path) {
      CutIsText(a, BUFFER);
    }
  }

  lemma {:induction false} KeptWhenItFits(root: Bytes, path: Bytes)
    requires (IsAbsolute(path) || IsAbsolute(root)) && Fits(root, path)
    ensures KeptNames(root, path) == Denotes(root, path)
  {
    ComponentsOfAnchored(root, path);
  }

  /** What the normaliser makes of the kept part. */
  lemma {:induction false} NormalForm(root: Bytes, path: Bytes) returns (st: Out)
    requires (IsAbsolute(path) || IsAbsolute(root)) && IsText(root) && IsText(path) && CutsBetween(root, path)
    ensures ValidOut(st) && st.stack == KeptNames(root, path)
    ensures Normalized(AsStr(Kept(root, path)), BUFFER) == Some(Render(true, st))
    ensures Components(Render(true, st)) == st.stack && IsText(Render(true, st)) && |Render(true, st)| <= BUFFER
  {
    var a := Kept(root, path);
    KeptIsText(root, path);
    AbsoluteNormalizes(a, BUFFER);
    AbsoluteFits(a);
    StackFromIsClean([], Components(a));
    st := Out(StackEval(Components(a)), StackEval(Components(a)) != [] && EndsByPop(false, Components(a)));
    ComponentsOfRender(true, st);
    DenotedIsText(a, st.trailing);
  }

  /** For a canonical, non-root prefix and every path, of any length, resolution succeeds exactly when
      the buffer does not cut the path inside a character and the names that the kept part denotes
      begin with the prefix's names; the resolved path has exactly those names. */
  lemma {:induction false} ResolvesExactly(pc: seq<Bytes>, root: Bytes, path: Bytes)
    requires pc != [] && IsClean(pc) && (IsAbsolute(path) || IsAbsolute(root)) && IsText(root) && IsText(path)
    ensures var r := Resolved(AbsoluteText(pc), root, path);
            && (r.Some? <==> CutsBetween(root, path) && pc <= KeptNames(root, path))
            && (r.Some? ==> Components(r.value.absolute) == KeptNames(root, path))
  {
    KeptIsText(root, path);
    if CutsBetween(root, path) {
      var st := NormalForm(root, path);
      InsideIsContainment(pc, st);
    }
  }

  /** So for every path that fits, it succeeds exactly when the names the path denotes begin with the
      prefix's names. */
  lemma {:induction false} ResolvesExactlyInside(pc: seq<Bytes>, root: Bytes, path: Bytes)
    requires pc != [] && IsClean(pc) && (IsAbsolute(path) || IsAbsolute(root)) && IsText(root) && IsText(path)
    requires Fits(root, path)
    ensures var r := Resolved(AbsoluteText(pc), root, path);
            && (r.Some? <==> pc <= Denotes(root, path))
            && (r.Some? ==> Components(r.value.absolute) == Denotes(root, path))
  {
    ResolvesExactly(pc, root, path);
    KeptWhenItFits(root, path);
  }

  /** Without a prefix nothing resolves, and without a project root no relative path does. */
  lemma {:induction false} NothingResolves(prefix: Bytes, root: Bytes, path: Bytes)
    requires prefix == [] || (root == [] && !IsAbsolute(path))
    ensures Resolved(prefix, root, path) == None
  {
  }

  // ---------------------------------------------------------------- manifest keys

  /** A resolved text is absolute, a UTF-8 text, and no longer than the buffer. */
  lemma {:induction false} ResolvedText(prefix: Bytes, root: Bytes, path: Bytes)
    requires (IsAbsolute(path) || IsAbsolute(root)) && AreStrings(prefix, root, path)
    ensures var r := Resolved(prefix, root, path);
            r.Some? ==> var text := r.value.absolute;
                        IsAbsolute(text) && IsText(text) && |text| <= BUFFER && prefix != [] && prefix <= text
  {
    KeptIsText(root, path);
    if CutsBetween(root, path) {
      var st := NormalForm(root, path);
    }
  }

  /** What is left of a text behind a non-empty prefix of it gets its leading slash uncut. */
  lemma {:induction false} LeadIsWhole(head: Bytes, text: Bytes)
    requires head != [] && head <= text && |text| <= BUFFER && IsText(head) && IsText(text)
    ensures var rest := text[|head|..];
            Lead(rest) == if IsAbsolute(rest) then rest else [SLASH] + rest
  {
    var rest := text[|head|..];
    assert text == head + rest;
    TextConcat(head, rest);
    SlashIsText();
    TextConcat([SLASH], rest);
  }

  /** Every key of every resolved path is absolute, whatever the prefix. */
  lemma {:induction false} KeyIsAbsolute(prefix: Bytes, root: Bytes, path: Bytes)
    requires (IsAbsolute(path) || IsAbsolute(root)) && AreStrings(prefix, root, path)
    ensures var r := Resolved(prefix, root, path); r.Some? ==> IsAbsolute(r.value.manifestKey)
  {
    var r := Resolved(prefix, root, path);
    if r.Some? {
      var text := r.value.absolute;
      ResolvedText(prefix, root, path);
      LeadIsWhole(prefix, text);
      if BelowRoot(root, text) {
        LeadIsWhole(root, text);
      }
    }
  }

  /** Below the project root, root followed by key has the components of the resolved path; it is
      the very same text exactly when a slash follows the root in it. */
  lemma {:induction false} RootFollowedByKey(prefix: Bytes, root: Bytes, path: Bytes)
    requires (IsAbsolute(path) || IsAbsolute(root)) && AreStrings(prefix, root, path)
    ensures var r := Resolved(prefix, root, path);
            r.Some? && BelowRoot(root, r.value.absolute) ==>
              var text, key := r.value.absolute, r.value.manifestKey;
              && Components(root + key) == Components(text)
              && (root + key == text <==> |text| > |root| && text[|root|] == SLASH)
  {
    var r := Resolved(prefix, root, path);
    if r.Some? && BelowRoot(root, r.value.absolute) {
      var text, key := r.value.absolute, r.value.manifestKey;
      ResolvedText(prefix, root, path);
      LeadIsWhole(root, text);
      RootAndRest(root, text, key);
    }
  }

  lemma {:induction false} RootAndRest(root: Bytes, text: Bytes, key: Bytes)
    requires BelowRoot(root, text)
    requires var rest := text[|root|..]; key == if IsAbsolute(rest) then rest else [SLASH] + rest
    ensures Components(root + key) == Components(text)
    ensures root + key == text <==> |text| > |root| && text[|root|] == SLASH
  {
    var rest := text[|root|..];
    assert text == root + rest;
    if !IsAbsolute(rest) {
      assert root + key == root + [SLASH] + rest;
      assert |root + key| == |text| + 1;
      ComponentsConcat(root, rest);
      RootJoinsRest(root, rest);
    }
  }

  lemma {:induction false} RootJoinsRest(root: Bytes, rest: Bytes)
    requires rest == [] || EndsWithSlash(root)
    ensures Components(root + rest) == Components(root) + Components(rest)
  {
    if rest == [] {
      assert root + rest == root;
    } else {
      var trunk := root[..|root| - 1];
      assert root + rest == trunk + [SLASH] + rest && root == trunk + [SLASH] + [];
      ComponentsConcat(trunk, rest);
      ComponentsConcat(trunk, []);
    }
  }

  /** Below a canonical project root, the key names the kept part of the path relative to the root. */
  lemma {:induction false} KeyIsRelativePath(pc: seq<Bytes>, rc: seq<Bytes>, path: Bytes)
    requires pc != [] && IsClean(pc) && rc != [] && IsClean(rc)
    requires AreStrings(AbsoluteText(pc), AbsoluteText(rc), path)
    ensures var r := Resolved(AbsoluteText(pc), AbsoluteText(rc), path);
            var names := KeptNames(AbsoluteText(rc), path);
            r.Some? && rc <= names ==> Components(r.value.manifestKey) == names[|rc|..]
  {
    var root, prefix := AbsoluteText(rc), AbsoluteText(pc);
    var r := Resolved(prefix, root, path);
    if r.Some? && rc <= KeptNames(root, path) {
      ResolvesExactly(pc, root, path);
      var st := NormalForm(root, path);
      InsideIsContainment(rc, st);
      RootFollowedByKey(prefix, root, path);
      KeyIsAbsolute(prefix, root, path);
      CanonicalText(rc);
      SplitOffRoot(root, r.value.manifestKey);
    }
  }

  lemma {:induction false} SplitOffRoot(root: Bytes, key: Bytes)
    requires IsAbsolute(key)
    ensures Components(root + key) == Components(root) + Components(key)
  {
    assert root + key == root + [SLASH] + key[1..];
    ComponentsConcat(root, key[1..]);
  }

  /** Away from the project root the key of a path in a virtual namespace, one whose prefix text does not
      start with the root's, is the whole resolved path; otherwise the prefix is a mount point and the key
      names what lies behind it. */
  lemma {:induction false} KeyAwayFromRoot(pc: seq<Bytes>, root: Bytes, path: Bytes)
    requires pc != [] && IsClean(pc) && (IsAbsolute(path) || IsAbsolute(root))
    requires AreStrings(AbsoluteText(pc), root, path)
    ensures var prefix := AbsoluteText(pc);
            var r := Resolved(prefix, root, path);
            var names := KeptNames(root, path);
            r.Some? && !BelowRoot(root, r.value.absolute) ==>
              if root == [] || !(root <= prefix)
              then r.value.manifestKey == r.value.absolute && Components(r.value.manifestKey) == names
              else pc <= names && Components(r.value.manifestKey) == names[|pc|..]
  {
    var prefix := AbsoluteText(pc);
    var r := Resolved(prefix, root, path);
    if r.Some? && !BelowRoot(root, r.value.absolute) {
      ResolvesExactly(pc, root, path);
      if root != [] && root <= prefix {
        ResolvedText(prefix, root, path);
        LeadIsWhole(prefix, r.value.absolute);
        BehindPrefix(pc, r.value.absolute);
      }
    }
  }

  /** What follows a canonical prefix in a text names the components behind the prefix's. */
  lemma {:induction false} BehindPrefix(pc: seq<Bytes>, text: Bytes)
    requires pc != [] && AreNames(pc) && Inside(AbsoluteText(pc), text)
    ensures var rest := text[|AbsoluteText(pc)|..];
            var key := if IsAbsolute(rest) then rest else [SLASH] + rest;
            pc <= Components(text) && Components(key) == Components(text)[|pc|..]
  {
    var prefix := AbsoluteText(pc);
    var rest := text[|prefix|..];
    CanonicalText(pc);
    assert text == prefix + rest;
    if IsAbsolute(rest) {
      SplitOffRoot(prefix, rest);
    } else {
      assert rest == [] && text == prefix;
      assert [SLASH] + rest == [] + [SLASH] + [];
      ComponentsConcat([], []);
    }
  }

  /** All three cases, for a canonical project root: below the root the key is the path relative to it. */
  lemma {:induction false} KeyExactly(pc: seq<Bytes>, rc: seq<Bytes>, path: Bytes)
    requires pc != [] && IsClean(pc) && rc != [] && IsClean(rc)
    requires AreStrings(AbsoluteText(pc), AbsoluteText(rc), path)
    ensures var r := Resolved(AbsoluteText(pc), AbsoluteText(rc), path);
            var names := KeptNames(AbsoluteText(rc), path);
            r.Some? ==> pc <= names && Components(r.value.manifestKey)
                                       == if rc <= names then names[|rc|..]
                                          else if AbsoluteText(rc) <= AbsoluteText(pc) then names[|pc|..]
                                          else names
  {
    var root, prefix := AbsoluteText(rc), AbsoluteText(pc);
    var r := Resolved(prefix, root, path);
    if r.Some? {
      ResolvesExactly(pc, root, path);
      if rc <= KeptNames(root, path) {
        KeyIsRelativePath(pc, rc, path);
      } else {
        NotBelowRoot(pc, rc, path);
        KeyAwayFromRoot(pc, root, path);
      }
    }
  }

  lemma {:induction false} NotBelowRoot(pc: seq<Bytes>, rc: seq<Bytes>, path: Bytes)
    requires pc != [] && IsClean(pc) && rc != [] && IsClean(rc)
    requires AreStrings(AbsoluteText(pc), AbsoluteText(rc), path)
    requires var r := Resolved(AbsoluteText(pc), AbsoluteText(rc), path);
             r.Some? && !(rc <= KeptNames(AbsoluteText(rc), path))
    ensures !BelowRoot(AbsoluteText(rc), Resolved(AbsoluteText(pc), AbsoluteText(rc), path).value.absolute)
  {
    var root := AbsoluteText(rc);
    ResolvesExactly(pc, root, path);
    var st := NormalForm(root, path);
    InsideIsContainment(rc, st);
    CanonicalText(rc);
  }

  // ---------------------------------------------------------------- paths that do not fit

  /** A path longer than the buffer can leave the virtual prefix and still resolve inside it: with a
      name of 1021 bytes, "/v/NAME/../../x" denotes "/x" but resolves as "/v/NAME". */
  lemma {:induction false} LongPathEscapes(name: Bytes, root: Bytes)
    requires IsName(name) && |name| == 1021 && IsText(name) && IsText(root)
    ensures var path := [SLASH, 118, SLASH] + name + [SLASH] + PARENT + [SLASH] + PARENT + [SLASH] + [120];
            && IsText(path) && Denotes(root, path) == [[120]]
            && !([[118]] <= Denotes(root, path))
            && Resolved([SLASH, 118], root, path).Some?
  {
    var head := [SLASH, 118, SLASH] + name;
    var path := head + [SLASH] + PARENT + [SLASH] + PARENT + [SLASH] + [120];
    EscapingText(name);
    EscapingNames(name);
    EvalEscaping(name);
    assert [] + Components(path) == Components(path);
    assert path[..BUFFER] == head && path[BUFFER] == SLASH;
    assert AbsoluteText([[118]]) == [SLASH, 118];
    CleanIsFixed([], [[118], name]);
    ResolvesExactly([[118]], root, path);
  }

  lemma {:induction false} EscapingText(name: Bytes)
    requires IsText(name)
    ensures var head := [SLASH, 118, SLASH] + name;
            IsText(head + [SLASH] + PARENT + [SLASH] + PARENT + [SLASH] + [120])
  {
    var head := [SLASH, 118, SLASH] + name;
    OneChar([118]);
    OneChar([120]);
    OneChar([DOT]);
    assert PARENT == [DOT] + [DOT];
    TextConcat([DOT], [DOT]);
    TextAroundSlash([118], name);
    assert head == [] + [SLASH] + ([118] + [SLASH] + name);
    TextAroundSlash([], [118] + [SLASH] + name);
    TextAroundSlash(head, PARENT);
    TextAroundSlash(head + [SLASH] + PARENT, PARENT);
    TextAroundSlash(head + [SLASH] + PARENT + [SLASH] + PARENT, [120]);
  }

  lemma {:induction false} EscapingNames(name: Bytes)
    requires IsName(name)
    ensures var head := [SLASH, 118, SLASH] + name;
            && Components(head) == [[118], name]
            && Components(head + [SLASH] + PARENT + [SLASH] + PARENT + [SLASH] + [120])
               == [[118], name, PARENT, PARENT, [120]]
  {
    var head := [SLASH, 118, SLASH] + name;
    ComponentsOfName([118]);
    ComponentsOfName(name);
    assert head[1..] == [118] + [SLASH] + name;
    ComponentsConcat([118], name);
    var p1 := head + [SLASH] + PARENT;
    var p2 := p1 + [SLASH] + PARENT;
    AppendName(head, PARENT);
    AppendName(p1, PARENT);
    AppendName(p2, [120]);
  }

  lemma {:induction false} AppendName(p: Bytes, name: Bytes)
    requires IsName(name)
    ensures Components(p + [SLASH] + name) == Components(p) + [name]
  {
    ComponentsConcat(p, name);
    ComponentsOfName(name);
  }

  lemma {:induction false} EvalEscaping(name: Bytes)
    requires name != THIS && name != PARENT
    ensures StackEval([[118], name, PARENT, PARENT, [120]]) == [[120]]
  {
    var s1, s2 := [[118]], [[118], name];
    var up2, up1, x := [PARENT, PARENT, [120]], [PARENT, [120]], [[120]];
    var c2 := [name] + up2;
    var c1 := [[118]] + c2;
    assert c1 == [[118], name, PARENT, PARENT, [120]] && c1[1..] == c2 && c2[1..] == up2;
    assert up2[1..] == up1 && up1[1..] == x && x[1..] == [];
    assert [] + [c1[0]] == s1 && s1 + [name] == s2 && s2[..1] == s1 && s1[..0] == [];
    assert StackFrom([], c1) == StackFrom(s1, c2);
    assert StackFrom(s1, c2) == StackFrom(s2, up2);
    assert StackFrom(s2, up2) == StackFrom(s1, up1);
    assert StackFrom(s1, up1) == StackFrom([], x);
  }
}
