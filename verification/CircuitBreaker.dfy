/** The circuit breaker shared by both RPC functions (crates/vrift-inception-layer/src/ipc.rs,
    `sync_rpc` and `sync_rpc_vdird`), over any sequential run of calls. */
module CircuitBreaker {
  import opened Bytes

  datatype Config = Config(threshold: nat, delay: nat)

  /** What a call did: refused without connecting, or a connect, after a recovery or not, at a time. */
  datatype Event = Refused(time: nat) | Connected(recovered: bool, ok: bool, time: nat, after: nat)

  /** The failed connects since the last success or recovery. */
  function Streak(log: seq<Event>): nat {
    if log == [] then 0
    else
      var front, last := log[..|log| - 1], log[|log| - 1];
      match last
      case Refused(t) => Streak(front)
      case Connected(recovered, ok, t, after) =>
        if ok then 0 else 1 + if recovered then 0 else Streak(front)
  }

  /** The time after the last connect. */
  function LastConnect(log: seq<Event>): nat {
    if log == [] then 0
    else if log[|log| - 1].Connected? then log[|log| - 1].after
    else LastConnect(log[..|log| - 1])
  }

  /** The failures in a row that open the circuit; a threshold of zero acts as one. */
  function Limit(cfg: Config): nat {
    if cfg.threshold == 0 then 1 else cfg.threshold
  }

  /** The log respects the breaker: a call is refused exactly while the limit is reached and the delay
      since the last failure has not passed, and a recovery is a connect after that. */
  predicate Lawful(cfg: Config, log: seq<Event>) {
    log == [] ||
    var front, last := log[..|log| - 1], log[|log| - 1];
    && Lawful(cfg, front)
    && (last.Refused? <==> Streak(front) >= Limit(cfg) && last.time < LastConnect(front) + cfg.delay)
    && (last.Connected? ==> (last.recovered <==> Streak(front) >= Limit(cfg)))
  }

  function NextStreak(n: nat, e: Event): nat {
    match e
    case Refused(t) => n
    case Connected(recovered, ok, t, after) => if ok then 0 else if recovered then 1 else n + 1
  }

  predicate Allowed(cfg: Config, streak: nat, last: nat, e: Event) {
    match e
    case Refused(t) => streak >= Limit(cfg) && t < last + cfg.delay
    case Connected(recovered, ok, t, after) =>
      (recovered <==> streak >= Limit(cfg)) && !(streak >= Limit(cfg) && t < last + cfg.delay)
  }

  lemma {:induction false} Appended(cfg: Config, log: seq<Event>, e: Event)
    ensures Streak(log + [e]) == NextStreak(Streak(log), e)
    ensures LastConnect(log + [e]) == if e.Connected? then e.after else LastConnect(log)
    ensures Lawful(cfg, log + [e]) <==> Lawful(cfg, log) && Allowed(cfg, Streak(log), LastConnect(log), e)
  {
    assert (log + [e])[..|log|] == log;
  }

  class Breaker {
    const cfg: Config
    var tripped: bool
    var failures: nat
    var tripTime: nat
    ghost var log: seq<Event>

    /** The circuit is open exactly when the limit has been reached since the last success or recovery. */
    ghost predicate Valid()
      reads this
    {
      && Lawful(cfg, log)
      && failures == Streak(log) <= Limit(cfg)
      && (tripped <==> Streak(log) == Limit(cfg))
      && (tripped ==> tripTime == LastConnect(log))
    }

    constructor (cfg: Config)
      ensures this.cfg == cfg && log == [] && Valid()
    {
      this.cfg := cfg;
      tripped, failures, tripTime := false, 0, 0;
      log := [];
    }

    /** One call at time `now`; a connect would end at `after` with the result `ok`. */
    method Call(now: nat, ok: bool, after: nat) returns (attempted: bool)
      requires Valid()
      modifies this
      ensures Valid()
      ensures attempted <==> old(Streak(log)) == 0 || old(Streak(log)) < cfg.threshold
                             || now >= old(LastConnect(log)) + cfg.delay
      ensures !attempted ==> log == old(log) + [Refused(now)]
      ensures attempted ==> log == old(log) + [Connected(old(tripped), ok, now, after)]
      ensures tripped <==> Streak(log) > 0 && Streak(log) >= cfg.threshold
    {
      var recovered := false;
      if tripped {
        if now >= tripTime + cfg.delay {
          recovered := true;
          tripped := false;
          failures := 0;
        } else {
          Appended(cfg, log, Refused(now));
          log := log + [Refused(now)];
          return false;
        }
      }
      Appended(cfg, log, Connected(recovered, ok, now, after));
      log := log + [Connected(recovered, ok, now, after)];
      if !ok {
        failures := failures + 1;
        if failures >= cfg.threshold && !tripped {
          tripped := true;
          tripTime := after;
        }
        return true;
      }
      failures := 0;
      return true;
    }
  }

  /** In a lawful log, no connect happens between the failure that reached the limit and the end of
      the delay. */
  lemma {:induction false} NoConnectWhileOpen(cfg: Config, log: seq<Event>, i: nat)
    requires Lawful(cfg, log) && i < |log| && log[i].Connected?
    ensures Streak(log[..i]) > 0 && Streak(log[..i]) >= cfg.threshold
            ==> log[i].time >= LastConnect(log[..i]) + cfg.delay
    decreases |log|
  {
    var front := log[..|log| - 1];
    if i < |front| {
      NoConnectWhileOpen(cfg, front, i);
      assert front[..i] == log[..i];
    }
  }

  /** The streak is what it says: that many connects at the end failed, without a success or a
      recovery after the first of them. */
  lemma {:induction false} StreakIsRun(log: seq<Event>)
    ensures Streak(log) <= |Connects(log)|
    ensures forall i | |Connects(log)| - Streak(log) <= i < |Connects(log)| :: !Connects(log)[i].ok
    ensures forall i | |Connects(log)| - Streak(log) < i < |Connects(log)| :: !Connects(log)[i].recovered
    ensures var k := |Connects(log)| - Streak(log);
            k > 0 ==> Connects(log)[k - 1].ok || (Streak(log) > 0 && Connects(log)[k].recovered)
    ensures LastConnect(log) == if Connects(log) == [] then 0 else Connects(log)[|Connects(log)| - 1].after
    decreases |log|
  {
    if log != [] {
      StreakIsRun(log[..|log| - 1]);
    }
  }

  function Connects(log: seq<Event>): (cs: seq<Event>)
    ensures forall i | 0 <= i < |cs| :: cs[i].Connected?
  {
    if log == [] then []
    else Connects(log[..|log| - 1]) + if log[|log| - 1].Connected? then [log[|log| - 1]] else []
  }
}
