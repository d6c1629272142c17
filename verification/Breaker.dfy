/** The circuit breaker: a timed state machine, and what its whole history says about the next call. */
module CircuitBreaker {

  datatype Config = Config(maxFails: int, cooldown: int) {
    predicate Valid() {
      0 < maxFails && 0 < cooldown
    }
  }

  /** The calls a breaker receives; `at` is the clock reading inside the call. */
  datatype Event = Allow(at: int) | Success | Fail(at: int)

  datatype State = State(failures: nat, open: bool, until: int)

  const Closed := State(0, false, 0)

  const DEFAULT_MAX_FAILS := 5
  const DEFAULT_COOLDOWN := 30_000_000_000

  function Defaulted(maxFails: int, cooldown: int): (cfg: Config)
    ensures cfg.Valid()
  {
    Config(if maxFails <= 0 then DEFAULT_MAX_FAILS else maxFails,
           if cooldown <= 0 then DEFAULT_COOLDOWN else cooldown)
  }

  predicate Admits(st: State, now: int) {
    !st.open || now > st.until
  }

  function Step(cfg: Config, st: State, e: Event): State {
    match e
    case Allow(now) => if st.open && now > st.until then State(0, false, st.until) else st
    case Success => State(0, false, st.until)
    case Fail(now) =>
      var n := st.failures + 1;
      if n >= cfg.maxFails then State(n, true, now + cfg.cooldown) else State(n, st.open, st.until)
  }

  function Run(cfg: Config, trace: seq<Event>): State {
    if trace == [] then Closed else Step(cfg, Run(cfg, trace[..|trace| - 1]), trace[|trace| - 1])
  }

  /** The breaker object; its clock readings are arguments. */
  class Breaker {
    const cfg: Config
    var failures: nat
    var open: bool
    var until: int

    function View(): State
      reads this
    {
      State(failures, open, until)
    }

    constructor (maxFails: int, cooldown: int)
      ensures cfg == Defaulted(maxFails, cooldown)
      ensures cfg.maxFails == (if maxFails <= 0 then 5 else maxFails)
      ensures cfg.cooldown == if cooldown <= 0 then 30_000_000_000 else cooldown
      ensures View() == Closed
    {
      cfg := Defaulted(maxFails, cooldown);
      failures, open, until := 0, false, 0;
    }

    method Allow(now: int) returns (admitted: bool)
      modifies this
      ensures admitted <==> Admits(old(View()), now)
      ensures View() == Step(cfg, old(View()), Event.Allow(now))
    {
      if !open {
        return true;
      }
      if now > until {
        open := false;
        failures := 0;
        return true;
      }
      return false;
    }

    method Success()
      modifies this
      ensures View() == Step(cfg, old(View()), Event.Success)
    {
      failures := 0;
      open := false;
    }

    method Fail(now: int)
      modifies this
      ensures View() == Step(cfg, old(View()), Event.Fail(now))
    {
      failures := failures + 1;
      if failures >= cfg.maxFails {
        open := true;
        until := now + cfg.cooldown;
      }
    }
  }

  // ---- The history-only description of the breaker: no counter, no flag, no deadline. ----

  function FailCount(trace: seq<Event>): nat {
    if trace == [] then 0
    else FailCount(trace[..|trace| - 1]) + if trace[|trace| - 1].Fail? then 1 else 0
  }

  /** The time of the latest failure; 0 in a history without one. */
  function LatestFail(trace: seq<Event>): int {
    if trace == [] then 0
    else if trace[|trace| - 1].Fail? then trace[|trace| - 1].at
    else LatestFail(trace[..|trace| - 1])
  }

  /** The suffix of the history after its latest success or cooldown reset. A cooldown reset is a call
      to Allow, with maxFails or more failures in that suffix, later than the latest failure plus the cooldown. */
  function SinceReset(cfg: Config, trace: seq<Event>): (suffix: seq<Event>)
    ensures |suffix| <= |trace| && suffix == trace[|trace| - |suffix|..]
  {
    if trace == [] then []
    else
      var before, e := trace[..|trace| - 1], trace[|trace| - 1];
      var since := SinceReset(cfg, before);
      if e.Success? then []
      else if e.Allow? && FailCount(since) >= cfg.maxFails && e.at > LatestFail(before) + cfg.cooldown then []
      else since + [e]
  }

  predicate Tripped(cfg: Config, trace: seq<Event>) {
    FailCount(SinceReset(cfg, trace)) >= cfg.maxFails
  }

  lemma FailCountSnoc(trace: seq<Event>, e: Event)
    ensures FailCount(trace + [e]) == FailCount(trace) + if e.Fail? then 1 else 0
  {
    assert (trace + [e])[..|trace|] == trace;
  }

  /** The three fields are functions of the history. */
  lemma {:induction false} RunMatchesHistory(cfg: Config, trace: seq<Event>)
    requires cfg.Valid()
    ensures Run(cfg, trace).failures == FailCount(SinceReset(cfg, trace))
    ensures Run(cfg, trace).open <==> Tripped(cfg, trace)
    ensures Tripped(cfg, trace) ==> Run(cfg, trace).until == LatestFail(trace) + cfg.cooldown
  {
    if trace != [] {
      var before, e := trace[..|trace| - 1], trace[|trace| - 1];
      RunMatchesHistory(cfg, before);
      FailCountSnoc(SinceReset(cfg, before), e);
    }
  }

  /** Allow rejects at time t exactly when at least maxFails failures came after the latest success or
      cooldown reset and t is not after the latest failure plus the cooldown, for every history. */
  lemma RejectsExactlyWhenTripped(cfg: Config, trace: seq<Event>, t: int)
    requires cfg.Valid()
    ensures !Admits(Run(cfg, trace), t) <==>
            Tripped(cfg, trace) && t <= LatestFail(trace) + cfg.cooldown
  {
    RunMatchesHistory(cfg, trace);
  }

  lemma StaysTripped(cfg: Config, trace: seq<Event>, e: Event)
    requires cfg.Valid() && Tripped(cfg, trace) && !e.Success?
    requires e.Allow? ==> e.at <= LatestFail(trace) + cfg.cooldown
    ensures Tripped(cfg, trace + [e])
    ensures LatestFail(trace + [e]) == if e.Fail? then e.at else LatestFail(trace)
    ensures e.Allow? ==> !Admits(Run(cfg, trace), e.at)
  {
    assert (trace + [e])[..|trace|] == trace;
    FailCountSnoc(SinceReset(cfg, trace), e);
    RejectsExactlyWhenTripped(cfg, trace, e.at);
  }

  /** Once tripped, only a success lets a call through before the cooldown is over: after any continuation
      without one, on a clock that does not go back before `since`, Allow at a time t inside the cooldown
      counted from `since` is rejected. */
  lemma {:induction false} ClosedForTheWholeCooldown(cfg: Config, trace: seq<Event>, more: seq<Event>, since: int,
                                                     t: int)
    requires cfg.Valid() && Tripped(cfg, trace)
    requires since <= LatestFail(trace) && t <= since + cfg.cooldown
    requires forall i :: 0 <= i < |more| ==> QuietEvent(more[i], since, t)
    ensures !Admits(Run(cfg, trace + more), t)
    decreases more
  {
    if more == [] {
      assert trace + more == trace;
      RejectsExactlyWhenTripped(cfg, trace, t);
    } else {
      var next, rest := trace + [more[0]], more[1..];
      assert next + rest == trace + more;
      StaysTripped(cfg, trace, more[0]);
      assert Tripped(cfg, next) && since <= LatestFail(next);
      ClosedForTheWholeCooldown(cfg, next, rest, since, t);
    }
  }

  predicate QuietEvent(e: Event, since: int, t: int) {
    match e
    case Allow(at) => at <= t
    case Success => false
    case Fail(at) => since <= at
  }
}
