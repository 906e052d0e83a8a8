/** The daemon's lock manager (crates/vrift-daemon/src/main.rs, `LockManager` and the flock
    requests), against a reference that only knows who holds what. */
module LockManager {
  import opened Bytes

  type Path = Bytes
  type Pid = nat

  datatype Mode = Ex | Sh

  datatype LockState = LockState(exclusive: Option<Pid>, shared: set<Pid>)

  type Locks = map<Path, LockState>

  /** The operation bits: LOCK_SH is 1, LOCK_EX is 2; a request with both is exclusive. */
  function ModeOf(op: int): Option<Mode> {
    if op / 2 % 2 == 1 then Some(Ex) else if op % 2 == 1 then Some(Sh) else None
  }

  const FREE := LockState(None, {})

  function StateOf(locks: Locks, path: Path): LockState {
    if path in locks then locks[path] else FREE
  }

  /** How a process holds a path. */
  function HeldBy(s: LockState, pid: Pid): Option<Mode> {
    if s.exclusive == Some(pid) then Some(Ex) else if pid in s.shared then Some(Sh) else None
  }

  /** An exclusive owner is the only holder. */
  predicate Sound(s: LockState) {
    s.exclusive.Some? ==> s.shared == {}
  }

  ghost predicate AllSound(locks: Locks) {
    forall p :: p in locks ==> Sound(locks[p])
  }

  // ---------------------------------------------------------------- the reference

  /** Nobody else holds the path in a conflicting way. */
  ghost predicate Compatible(s: LockState, pid: Pid, m: Mode) {
    forall q :: q != pid ==> HeldBy(s, q) != Some(Ex) && (m == Ex ==> HeldBy(s, q) == None)
  }

  /** Only this process's hold changes, to the given one. */
  ghost predicate Becomes(s: LockState, s': LockState, pid: Pid, hold: Option<Mode>) {
    HeldBy(s', pid) == hold && forall q :: q != pid ==> HeldBy(s', q) == HeldBy(s, q)
  }

  /** What a request may do to a path's holders. */
  ghost predicate Acquires(s: LockState, s': LockState, pid: Pid, m: Mode, granted: bool) {
    && (granted <==> Compatible(s, pid, m))
    && (granted ==> Becomes(s, s', pid, Some(m)))
    && (!granted ==> s' == s)
  }

  // ---------------------------------------------------------------- one path

  function TryEx(s: LockState, pid: Pid): Option<LockState> {
    if s.exclusive.Some? && s.exclusive != Some(pid) then None
    else if s.shared != {} && (|s.shared| > 1 || pid !in s.shared) then None
    else Some(LockState(Some(pid), s.shared - {pid}))
  }

  function TrySh(s: LockState, pid: Pid): Option<LockState> {
    if s.exclusive.Some? && s.exclusive != Some(pid) then None
    else Some(LockState(None, s.shared + {pid}))
  }

  function Try(s: LockState, pid: Pid, m: Mode): Option<LockState> {
    if m == Ex then TryEx(s, pid) else TrySh(s, pid)
  }

  function Drop(s: LockState, pid: Pid): LockState {
    LockState(if s.exclusive == Some(pid) then None else s.exclusive, s.shared - {pid})
  }

  lemma {:induction false} OnlySelf(shared: set<Pid>, pid: Pid)
    ensures shared != {} && (|shared| > 1 || pid !in shared) <==> exists q :: q in shared && q != pid
  {
    if shared != {} && pid in shared {
      var others := shared - {pid};
      assert |others| == |shared| - 1;
      if |shared| > 1 {
        var q :| q in others;
        assert q in shared && q != pid;
      } else {
        assert others == {};
        assert forall q :: q in shared ==> q == pid || q in others;
      }
    } else if shared != {} {
      var q :| q in shared;
    }
  }

  /** A request is granted exactly when it is compatible with the other holders; granted, it changes
      the requester's hold to the requested one (upgrade and downgrade included) and nobody else's;
      refused, it changes nothing. */
  lemma {:induction false} TryIsReference(s: LockState, pid: Pid, m: Mode)
    requires Sound(s)
    ensures Try(s, pid, m).Some? ==> Sound(Try(s, pid, m).value)
    ensures Acquires(s, match Try(s, pid, m) case Some(t) => t case None => s, pid, m, Try(s, pid, m).Some?)
  {
    OnlySelf(s.shared, pid);
    if s.exclusive.Some? && s.exclusive != Some(pid) {
      assert HeldBy(s, s.exclusive.value) == Some(Ex);
    } else if m == Ex {
      if q :| q in s.shared && q != pid {
        assert HeldBy(s, q) == Some(Sh);
      }
    }
  }

  lemma {:induction false} DropIsReference(s: LockState, pid: Pid)
    requires Sound(s)
    ensures Sound(Drop(s, pid)) && Becomes(s, Drop(s, pid), pid, None)
  {
  }

  // ---------------------------------------------------------------- the manager in place

  class Manager {
    var locks: Locks

    constructor ()
      ensures AllSound(locks) && forall p :: StateOf(locks, p) == FREE
    {
      locks := map[];
    }

    /** No answer means the operation has neither bit. */
    method TryAcquire(path: Path, pid: Pid, op: int) returns (r: Option<bool>)
      requires AllSound(locks)
      modifies this
      ensures AllSound(locks)
      ensures forall p :: p != path ==> StateOf(locks, p) == old(StateOf(locks, p))
      ensures r.None? <==> op / 2 % 2 == 0 && op % 2 == 0
      ensures r.None? ==> StateOf(locks, path) == old(StateOf(locks, path))
      ensures r.Some? ==> Acquires(old(StateOf(locks, path)), StateOf(locks, path), pid, ModeOf(op).value, r.value)
      ensures r == Some(true) && op / 2 % 2 == 1 ==> StateOf(locks, path) == LockState(Some(pid), {})
      ensures r == Some(true) && op / 2 % 2 == 0 ==> StateOf(locks, path).exclusive == None
                                                     && pid in StateOf(locks, path).shared
    {
      if path !in locks {
        locks := locks[path := FREE];
      }
      var s := locks[path];
      match ModeOf(op) {
        case None => return None;
        case Some(m) =>
          TryIsReference(s, pid, m);
          match Try(s, pid, m) {
            case None => return Some(false);
            case Some(t) =>
              locks := locks[path := t];
              return Some(true);
          }
      }
    }

    method Release(path: Path, pid: Pid)
      requires AllSound(locks)
      modifies this
      ensures AllSound(locks)
      ensures forall p :: p != path ==> StateOf(locks, p) == old(StateOf(locks, p))
      ensures Becomes(old(StateOf(locks, path)), StateOf(locks, path), pid, None)
    {
      if path in locks {
        DropIsReference(locks[path], pid);
        locks := locks[path := Drop(locks[path], pid)];
      }
    }

    /** Any number of requests, by anyone, in any order; a blocked request that is tried again is a
        further request. */
    method Serve(requests: seq<Request>)
      requires AllSound(locks)
      modifies this
      ensures AllSound(locks)
      ensures forall p, pid, q :: HeldBy(StateOf(locks, p), pid) == Some(Ex) && q != pid
                                  ==> HeldBy(StateOf(locks, p), q) == None
      ensures forall p :: (forall i | 0 <= i < |requests| :: requests[i].path != p)
                          ==> StateOf(locks, p) == old(StateOf(locks, p))
    {
      for i := 0 to |requests|
        invariant AllSound(locks)
        invariant forall p :: (forall j | 0 <= j < i :: requests[j].path != p)
                              ==> StateOf(locks, p) == old(StateOf(locks, p))
      {
        match requests[i] {
          case Acquire(path, pid, op) => var granted := TryAcquire(path, pid, op);
          case Release(path, pid) => Release(path, pid);
        }
      }
    }
  }

  datatype Request = Acquire(path: Path, pid: Pid, op: int) | Release(path: Path, pid: Pid)
}
