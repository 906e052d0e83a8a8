/** The content-addressed store (crates/vrift-cas/src/lib.rs, `CasStore`).

    The store is the set of files below its root, by file name: each is in the directory its own
    name determines, so the directory is left out. A write can fail after part of the data is on
    disk, and such a failure is an input of the operation. */
module Cas {
  import opened Bytes
  import opened BlobNames

  type Hasher = Bytes -> Bytes
  type Files = map<Bytes, Bytes>

  const BIN: Bytes := [98, 105, 110]

  ghost predicate Digests(hash: Hasher) {
    forall x :: |hash(x)| == HASH_LEN
  }

  /** No other content has the hash of this one. */
  ghost predicate Unique(hash: Hasher, data: Bytes) {
    forall x :: hash(x) == hash(data) ==> x == data
  }

  // ---------------------------------------------------------------- the operations on values

  /** How far `store` gets: all the way, or to one of its early returns. After a failed rename the
      temporary file is removed, which may fail too. */
  datatype Fate = Fine | CreateFails | WriteFails(written: nat) | SyncFails | RenameFails(removes: bool)

  /** How far `store_by_move` gets. */
  datatype MoveFate = Renamed | Copied | CopyFails(copied: nat) | OtherError

  datatype Op =
    | Store(data: Bytes, tag: Bytes, fate: Fate)
    | StoreByMove(data: Bytes, moveFate: MoveFate)
    | LinkBlob(data: Bytes)
    | Remove(name: Bytes)

  function NameOf(hash: Hasher, data: Bytes): Bytes {
    FileName(hash(data), |data|, [])
  }

  function BinNameOf(hash: Hasher, data: Bytes): Bytes {
    FileName(hash(data), |data|, BIN)
  }

  /** `HEX_SIZE.PID.THREAD.tmp`; the process and thread are the tag. */
  function TempNameOf(hash: Hasher, data: Bytes, tag: Bytes): Bytes {
    NameOf(hash, data) + [POINT] + tag + DOT_TMP
  }

  predicate Exists(files: Files, h: Bytes) {
    exists n :: n in files && Matches(n, h)
  }

  function Prefix(data: Bytes, k: nat): Bytes {
    if k < |data| then data[..k] else data
  }

  function AfterStore(hash: Hasher, files: Files, data: Bytes, tag: Bytes, fate: Fate): Files {
    if Exists(files, hash(data)) then files
    else match fate
      case Fine => files[NameOf(hash, data) := data]
      case WriteFails(k) => files[TempNameOf(hash, data, tag) := Prefix(data, k)]
      case SyncFails => files[TempNameOf(hash, data, tag) := data]
      case RenameFails(removes) => if removes then files else files[TempNameOf(hash, data, tag) := data]
      case CreateFails => files
  }

  function AfterMove(hash: Hasher, files: Files, data: Bytes, fate: MoveFate): Files {
    if Exists(files, hash(data)) || fate.OtherError? then files
    else if fate.CopyFails? then files[NameOf(hash, data) := Prefix(data, fate.copied)]
    else files[NameOf(hash, data) := data]
  }

  function Apply(hash: Hasher, files: Files, op: Op): Files {
    match op
    case Store(data, tag, fate) => AfterStore(hash, files, data, tag, fate)
    case StoreByMove(data, fate) => AfterMove(hash, files, data, fate)
    case LinkBlob(data) => if BinNameOf(hash, data) in files then files else files[BinNameOf(hash, data) := data]
    case Remove(name) => files - {name}
  }

  function ApplyAll(hash: Hasher, files: Files, ops: seq<Op>): Files {
    if ops == [] then files else Apply(hash, ApplyAll(hash, files, ops[..|ops| - 1]), ops[|ops| - 1])
  }

  // ---------------------------------------------------------------- names carry their content's hash

  /** Every file that is not a temporary one is named after its content. */
  ghost predicate Addressed(hash: Hasher, files: Files) {
    forall n :: n in files && !IsTmp(n) ==> Named(hash, n, files[n])
  }

  ghost predicate Named(hash: Hasher, name: Bytes, data: Bytes) {
    name == NameOf(hash, data) || name == BinNameOf(hash, data)
  }

  lemma {:induction false} NamesMatch(hash: Hasher, data: Bytes, tag: Bytes)
    requires Digests(hash)
    ensures Matches(NameOf(hash, data), hash(data)) && !IsTmp(NameOf(hash, data))
    ensures Matches(BinNameOf(hash, data), hash(data)) && !IsTmp(BinNameOf(hash, data))
    ensures Matches(TempNameOf(hash, data, tag), hash(data)) && IsTmp(TempNameOf(hash, data, tag))
  {
    FileNameRoundTrip(hash(data), |data|, []);
    FileNameRoundTrip(hash(data), |data|, BIN);
    BinIsNotTmp(hash, data);
    TempIsTmp(hash, data, tag);
  }

  lemma {:induction false} BinIsNotTmp(hash: Hasher, data: Bytes)
    ensures !IsTmp(BinNameOf(hash, data))
  {
    var bin := BinNameOf(hash, data);
    assert bin[|bin| - 4..] == [POINT] + BIN;
    assert ([POINT] + BIN)[1] == 98 && DOT_TMP[1] == 116;
  }

  lemma {:induction false} TempIsTmp(hash: Hasher, data: Bytes, tag: Bytes)
    ensures Matches(TempNameOf(hash, data, tag), hash(data)) && IsTmp(TempNameOf(hash, data, tag))
  {
    var temp := TempNameOf(hash, data, tag);
    assert temp[|temp| - 4..] == DOT_TMP;
    assert temp == (ToHex(hash(data)) + [UNDERSCORE]) + (Decimal(|data|) + [POINT] + tag + DOT_TMP);
  }

  /** The operation leaves part of the data under the blob's final name. */
  ghost predicate Truncates(hash: Hasher, files: Files, op: Op) {
    && op.StoreByMove? && op.moveFate.CopyFails? && op.moveFate.copied < |op.data|
    && !Exists(files, hash(op.data))
  }

  /** An operation keeps the store addressed exactly when it is not a cross-device move of new
      content that fails half way through its copy. */
  lemma {:induction false} StaysAddressedExactly(hash: Hasher, files: Files, op: Op)
    requires Digests(hash) && (op.StoreByMove? ==> Unique(hash, op.data)) && Addressed(hash, files)
    ensures Addressed(hash, Apply(hash, files, op)) <==> !Truncates(hash, files, op)
  {
    if Truncates(hash, files, op) {
      NamesMatch(hash, op.data, []);
      TruncatedIsMisnamed(hash, op.data, op.moveFate.copied);
      assert NameOf(hash, op.data) in Apply(hash, files, op);
    } else {
      StaysAddressed(hash, files, op);
    }
  }

  lemma {:induction false} StaysAddressed(hash: Hasher, files: Files, op: Op)
    requires Digests(hash) && Addressed(hash, files) && !Truncates(hash, files, op)
    ensures Addressed(hash, Apply(hash, files, op))
  {
    match op
    case Store(data, tag, fate) => NamesMatch(hash, data, tag);
    case StoreByMove(data, fate) => NamesMatch(hash, data, []);
    case LinkBlob(data) =>
    case Remove(name) =>
  }

  lemma {:induction false} TruncatedIsMisnamed(hash: Hasher, data: Bytes, k: nat)
    requires Digests(hash) && Unique(hash, data) && k < |data|
    ensures !Named(hash, NameOf(hash, data), data[..k])
  {
    var part := data[..k];
    NamesMatch(hash, data, []);
    NamesMatch(hash, part, []);
    if Named(hash, NameOf(hash, data), part) {
      MatchesOneHash(NameOf(hash, data), hash(data), hash(part));
    }
  }

  ghost predicate NoTruncation(hash: Hasher, files: Files, ops: seq<Op>) {
    forall i | 0 <= i < |ops| :: !Truncates(hash, ApplyAll(hash, files, ops[..i]), ops[i])
  }

  /** Over any run without such a failure, every name keeps telling its content. */
  lemma {:induction false} RunStaysAddressed(hash: Hasher, files: Files, ops: seq<Op>)
    requires Digests(hash) && Addressed(hash, files) && NoTruncation(hash, files, ops)
    ensures Addressed(hash, ApplyAll(hash, files, ops))
    decreases |ops|
  {
    if ops != [] {
      var front := ops[..|ops| - 1];
      assert forall i | 0 <= i < |front| :: front[..i] == ops[..i] && front[i] == ops[i];
      RunStaysAddressed(hash, files, front);
      StaysAddressed(hash, ApplyAll(hash, files, front), ops[|ops| - 1]);
    }
  }

  // ---------------------------------------------------------------- what is stored can be read

  /** Whichever file of the hash a directory lists first, it holds the data. */
  ghost predicate Readable(files: Files, h: Bytes, data: Bytes) {
    Exists(files, h) && forall n :: n in files && Matches(n, h) ==> files[n] == data
  }

  /** A temporary file of the hash that an earlier failure left unfinished. */
  ghost predicate Leftover(hash: Hasher, files: Files, h: Bytes) {
    exists n :: n in files && IsTmp(n) && Matches(n, h) && hash(files[n]) != h
  }

  /** A temporary file that stays behind after a failed rename is taken for the blob. */
  predicate StoreSucceeds(hash: Hasher, files: Files, data: Bytes, fate: Fate) {
    Exists(files, hash(data)) || fate.Fine? || fate == RenameFails(false)
  }

  predicate MoveSucceeds(hash: Hasher, files: Files, data: Bytes, fate: MoveFate) {
    Exists(files, hash(data)) || fate.Renamed? || fate.Copied?
  }

  lemma {:induction false} AddressedContent(hash: Hasher, files: Files, n: Bytes, data: Bytes)
    requires Digests(hash) && Unique(hash, data) && Addressed(hash, files)
    requires n in files && !IsTmp(n) && Matches(n, hash(data))
    ensures files[n] == data
  {
    NamesMatch(hash, files[n], []);
    MatchesOneHash(n, hash(files[n]), hash(data));
  }

  /** Once stored successfully, data can be read back exactly when no unfinished temporary file of
      the same hash was lying in the store: that one satisfies the test for an existing blob, and
      the data is then not written. */
  lemma {:induction false} StoredIsReadableExactly(hash: Hasher, files: Files, data: Bytes, tag: Bytes, fate: Fate)
    requires Digests(hash) && Unique(hash, data) && Addressed(hash, files)
    requires StoreSucceeds(hash, files, data, fate)
    ensures Readable(AfterStore(hash, files, data, tag, fate), hash(data), data)
            <==> !Leftover(hash, files, hash(data))
  {
    PresentIsReadableExactly(hash, files, data);
    if !Exists(files, hash(data)) {
      NamesMatch(hash, data, tag);
      var name := if fate.Fine? then NameOf(hash, data) else TempNameOf(hash, data, tag);
      assert name in AfterStore(hash, files, data, tag, fate);
    }
  }

  /** The same for a file moved into the store. */
  lemma {:induction false} MovedIsReadableExactly(hash: Hasher, files: Files, data: Bytes, fate: MoveFate)
    requires Digests(hash) && Unique(hash, data) && Addressed(hash, files)
    requires MoveSucceeds(hash, files, data, fate)
    ensures Readable(AfterMove(hash, files, data, fate), hash(data), data)
            <==> !Leftover(hash, files, hash(data))
  {
    PresentIsReadableExactly(hash, files, data);
    if !Exists(files, hash(data)) {
      NamesMatch(hash, data, []);
      assert NameOf(hash, data) in AfterMove(hash, files, data, fate);
    }
  }

  lemma {:induction false} PresentIsReadableExactly(hash: Hasher, files: Files, data: Bytes)
    requires Digests(hash) && Unique(hash, data) && Addressed(hash, files)
    ensures Exists(files, hash(data)) ==> (Readable(files, hash(data), data) <==> !Leftover(hash, files, hash(data)))
    ensures !Exists(files, hash(data)) ==> !Leftover(hash, files, hash(data))
  {
    forall n | n in files && Matches(n, hash(data)) && !IsTmp(n)
      ensures files[n] == data
    {
      AddressedContent(hash, files, n, data);
    }
  }

  /** What can be read stays readable through every operation that removes no file of its hash. */
  lemma {:induction false} StaysReadable(hash: Hasher, files: Files, op: Op, data: Bytes)
    requires Digests(hash) && Unique(hash, data) && Readable(files, hash(data), data)
    requires op.Remove? ==> !Matches(op.name, hash(data))
    ensures Readable(Apply(hash, files, op), hash(data), data)
  {
    match op
    case Store(other, tag, fate) => OtherNames(hash, data, other, tag);
    case StoreByMove(other, fate) => OtherNames(hash, data, other, []);
    case LinkBlob(other) => OtherNames(hash, data, other, []);
    case Remove(name) =>
    var w :| w in files && Matches(w, hash(data));
    assert w in Apply(hash, files, op);
  }

  /** No name of other content is recognised for the data's hash. */
  lemma {:induction false} OtherNames(hash: Hasher, data: Bytes, other: Bytes, tag: Bytes)
    requires Digests(hash) && Unique(hash, data)
    ensures other != data ==> !Matches(NameOf(hash, other), hash(data))
    ensures other != data ==> !Matches(BinNameOf(hash, other), hash(data))
    ensures other != data ==> !Matches(TempNameOf(hash, other, tag), hash(data))
  {
    if other != data {
      NamesMatch(hash, other, tag);
      NotOfHash(NameOf(hash, other), hash(other), hash(data));
      NotOfHash(BinNameOf(hash, other), hash(other), hash(data));
      NotOfHash(TempNameOf(hash, other, tag), hash(other), hash(data));
    }
  }

  lemma {:induction false} NotOfHash(name: Bytes, g: Bytes, h: Bytes)
    requires |g| == HASH_LEN && |h| == HASH_LEN && Matches(name, g) && g != h
    ensures !Matches(name, h)
  {
    if Matches(name, h) {
      MatchesOneHash(name, g, h);
    }
  }

  /** A first write of a blob fails before its first byte; the second reports success, and nothing
      can be read. */
  lemma {:induction false} FailedWriteBlocksTheBlob(hash: Hasher, data: Bytes, tag: Bytes) returns (files: Files)
    requires Digests(hash) && Unique(hash, data) && data != []
    ensures files == ApplyAll(hash, map[], [Store(data, tag, WriteFails(0)), Store(data, tag, Fine)])
    ensures StoreSucceeds(hash, ApplyAll(hash, map[], [Store(data, tag, WriteFails(0))]), data, Fine)
    ensures forall n | n in files :: hash(files[n]) != hash(data)
  {
    var first, second := Store(data, tag, WriteFails(0)), Store(data, tag, Fine);
    NamesMatch(hash, data, tag);
    var one := Apply(hash, map[], first);
    assert TempNameOf(hash, data, tag) in one && one[TempNameOf(hash, data, tag)] == [];
    files := Apply(hash, one, second);
    assert [first][..0] == [] && [first, second][..1] == [first];
    assert ApplyAll(hash, map[], [first]) == Apply(hash, ApplyAll(hash, map[], []), first);
  }

  /** After the same failed write, a file moved into the store is taken away for a duplicate: the move
      reports success, and its content is nowhere. */
  lemma {:induction false} FailedWriteLosesMovedFile(hash: Hasher, data: Bytes, tag: Bytes, fate: MoveFate)
    returns (files: Files)
    requires Digests(hash) && Unique(hash, data) && data != []
    ensures files == Apply(hash, map[], Store(data, tag, WriteFails(0)))
    ensures MoveSucceeds(hash, files, data, fate) && AfterMove(hash, files, data, fate) == files
    ensures forall n | n in files :: files[n] != data
  {
    NamesMatch(hash, data, tag);
    files := Apply(hash, map[], Store(data, tag, WriteFails(0)));
    assert TempNameOf(hash, data, tag) in files && files[TempNameOf(hash, data, tag)] == [];
  }

  // ---------------------------------------------------------------- the store in place

  datatype GetResult = Data(bytes: Bytes) | NotFound | HashMismatch

  class CasStore {
    const hash: Hasher
    var files: Files

    constructor (hash: Hasher)
      ensures this.hash == hash && files == map[]
    {
      this.hash := hash;
      files := map[];
    }

    /** Any file of the hash may come first in a directory listing. */
    method FindBlobPath(h: Bytes) returns (r: Option<Bytes>)
      ensures r.Some? <==> Exists(files, h)
      ensures r.Some? ==> r.value in files && Matches(r.value, h)
    {
      var entries := files.Keys;
      while entries != {}
        invariant entries <= files.Keys
        invariant forall n :: n in files && n !in entries ==> !Matches(n, h)
        decreases entries
      {
        var n :| n in entries;
        if Matches(n, h) {
          return Some(n);
        }
        entries := entries - {n};
      }
      return None;
    }

    method Put(data: Bytes, tag: Bytes, fate: Fate) returns (r: Option<Bytes>)
      modifies this
      ensures files == AfterStore(hash, old(files), data, tag, fate)
      ensures r == if StoreSucceeds(hash, old(files), data, fate) then Some(hash(data)) else None
    {
      var h := hash(data);
      var found := FindBlobPath(h);
      if found.Some? {
        return Some(h);
      }
      var path, temp := NameOf(hash, data), TempNameOf(hash, data, tag);
      if fate.CreateFails? {
        return None;
      }
      if fate.WriteFails? {
        files := files[temp := Prefix(data, fate.written)];
        return None;
      }
      files := files[temp := data];
      if fate.SyncFails? {
        return None;
      }
      TempIsNew(hash, old(files), data, tag);
      if fate.RenameFails? {
        if fate.removes {
          files := files - {temp};
        }
        found := FindBlobPath(h);
        return if found.Some? then Some(h) else None;
      }
      files := files - {temp};
      files := files[path := data];
      return Some(h);
    }

    /** `left` tells whether the source file, which holds the data, is still there; removing it after a
        copy or for a duplicate is a best effort that may fail. */
    method PutByMove(data: Bytes, fate: MoveFate, removes: bool) returns (r: Option<Bytes>, left: bool)
      modifies this
      ensures files == AfterMove(hash, old(files), data, fate)
      ensures r == if MoveSucceeds(hash, old(files), data, fate) then Some(hash(data)) else None
      ensures left <==> r.None? || (!removes && (Exists(old(files), hash(data)) || fate.Copied?))
    {
      var h := hash(data);
      left := true;
      var found := FindBlobPath(h);
      if found.Some? {
        left := !removes;
        return Some(h), left;
      }
      var path := NameOf(hash, data);
      match fate {
        case Renamed =>
          files := files[path := data];
          left := false;
        case Copied =>
          files := files[path := data];
          left := !removes;
        case CopyFails(k) =>
          files := files[path := Prefix(data, k)];
          return None, left;
        case OtherError => return None, left;
      }
      return Some(h), left;
    }

    method Get(h: Bytes) returns (r: GetResult)
      ensures r.NotFound? <==> !Exists(files, h)
      ensures r.Data? ==> hash(r.bytes) == h && exists n :: n in files && Matches(n, h) && files[n] == r.bytes
      ensures forall data :: Readable(files, h, data) && hash(data) == h ==> r == Data(data)
    {
      var found := FindBlobPath(h);
      match found {
        case None => return NotFound;
        case Some(path) =>
          var data := files[path];
          if hash(data) != h {
            return HashMismatch;
          }
          return Data(data);
      }
    }

    /** Removes one file of the hash, whichever is listed first. */
    method Delete(h: Bytes) returns (gone: Option<Bytes>)
      modifies this
      ensures gone.Some? <==> Exists(old(files), h)
      ensures gone.Some? ==> gone.value in old(files) && Matches(gone.value, h)
      ensures files == if gone.Some? then old(files) - {gone.value} else old(files)
    {
      gone := FindBlobPath(h);
      if gone.Some? {
        files := files - {gone.value};
      }
    }
  }

  lemma {:induction false} TempIsNew(hash: Hasher, files: Files, data: Bytes, tag: Bytes)
    requires !Exists(files, hash(data))
    ensures TempNameOf(hash, data, tag) !in files && Matches(TempNameOf(hash, data, tag), hash(data))
    ensures files[TempNameOf(hash, data, tag) := data] - {TempNameOf(hash, data, tag)} == files
  {
    TempIsTmp(hash, data, tag);
  }
}
