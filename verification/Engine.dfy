/** `DriverFor`: the pool and the breaker together. The function handed to the pool asks the breaker first,
    then builds the driver and reports the outcome; every one of these is a separate atomic step. */
module Engine {
  import opened Text
  import P = DriverPool
  import B = CircuitBreaker

  /** Where a call of DriverFor stands; the server and version are those of its Get. */
  datatype Phase =
    | Missed                  // the pool had no driver; the breaker not yet asked
    | Admitted                // the breaker let the call through
    | Failed                  // building failed; not yet reported
    | Built(drv: P.Driver)    // built; success not yet reported
    | Ready(drv: P.Driver)    // reported; about to be installed

  datatype Call = Call(server: P.ServerId, version: P.Version, phase: Phase)

  datatype State = State(
    items: map<P.ServerId, P.Pooled>,
    calls: map<P.CallId, Call>,
    created: set<P.Driver>,
    closed: seq<P.Driver>,
    breaker: B.State,
    events: seq<B.Event>   // the breaker's history
  )

  const Start := State(map[], map[], {}, [], B.Closed, [])

  datatype Step =
    | Begin(call: P.CallId, server: P.ServerId, version: P.Version)
    | Ask(call: P.CallId, now: int)
    | New(call: P.CallId, drv: Option<P.Driver>)
    | Report(call: P.CallId, now: int)
    | Install(call: P.CallId)
    | Close(order: seq<P.ServerId>)

  predicate At(st: State, c: P.CallId, phase: Phase) {
    c in st.calls && st.calls[c].phase == phase
  }

  ghost predicate Enabled(st: State, s: Step) {
    match s
    case Begin(c, _, _) => c !in st.calls
    case Ask(c, _) => At(st, c, Missed)
    case New(c, d) => At(st, c, Admitted) && (d.Some? ==> d.value !in st.created)
    case Report(c, _) => c in st.calls && (st.calls[c].phase.Failed? || st.calls[c].phase.Built?)
    case Install(c) => c in st.calls && st.calls[c].phase.Ready?
    case Close(order) => P.Enumerates(order, st.items.Keys)
  }

  function MoveTo(st: State, c: P.CallId, phase: Phase): map<P.CallId, Call>
    requires c in st.calls
  {
    st.calls[c := st.calls[c].(phase := phase)]
  }

  ghost function Apply(cfg: B.Config, st: State, s: Step): State
    requires Enabled(st, s)
  {
    match s
    case Begin(c, server, version) =>
      if P.Hit(st.items, server, version) then st
      else st.(calls := st.calls[c := Call(server, version, Missed)])
    case Ask(c, now) =>
      var e := B.Event.Allow(now);
      st.(calls := if B.Admits(st.breaker, now) then MoveTo(st, c, Admitted) else st.calls - {c},
          breaker := B.Step(cfg, st.breaker, e), events := st.events + [e])
    case New(c, d) =>
      if d.None? then st.(calls := MoveTo(st, c, Failed))
      else st.(calls := MoveTo(st, c, Built(d.value)), created := st.created + {d.value})
    case Report(c, now) =>
      var e := if st.calls[c].phase.Failed? then B.Event.Fail(now) else B.Event.Success;
      st.(calls := if st.calls[c].phase.Failed? then st.calls - {c} else MoveTo(st, c, Ready(st.calls[c].phase.drv)),
          breaker := B.Step(cfg, st.breaker, e), events := st.events + [e])
    case Install(c) =>
      var h := st.calls[c];
      st.(calls := st.calls - {c},
          items := P.InstallItems(st.items, h.server, h.version, h.phase.drv),
          closed := st.closed + P.InstallClosed(st.items, h.server, h.version, h.phase.drv))
    case Close(order) => st.(items := map[], closed := st.closed + P.DriversOf(order, st.items))
  }

  ghost function After(cfg: B.Config, run: seq<Step>): Option<State> {
    if run == [] then Some(Start)
    else match After(cfg, run[..|run| - 1])
         case None => None
         case Some(st) =>
           if Enabled(st, run[|run| - 1]) then Some(Apply(cfg, st, run[|run| - 1])) else None
  }

  // ---- The pool inside the engine is the pool: every run projects to a run of the pool alone. ----

  function PoolCall(c: Call): P.Call {
    if c.phase.Built? || c.phase.Ready? then P.Holding(c.server, c.version, c.phase.drv)
    else P.Creating(c.server, c.version)
  }

  function PoolState(st: State): P.State {
    P.State(st.items, map c | c in st.calls :: PoolCall(st.calls[c]), st.created, st.closed)
  }

  /** The pool step a step of the engine amounts to; asking and reporting without giving up amount to none. */
  ghost function PoolSteps(st: State, s: Step): seq<P.Step>
    requires Enabled(st, s)
  {
    match s
    case Begin(c, server, version) => [P.Lookup(c, server, version)]
    case Ask(c, now) => if B.Admits(st.breaker, now) then [] else [P.CreateFails(c)]
    case New(c, d) => if d.None? then [] else [P.Create(c, d.value)]
    case Report(c, _) => if st.calls[c].phase.Failed? then [P.CreateFails(c)] else []
    case Install(c) => [P.Install(c)]
    case Close(order) => [P.Close(order)]
  }

  ghost function Projection(cfg: B.Config, run: seq<Step>): seq<P.Step>
    requires After(cfg, run).Some?
  {
    if run == [] then []
    else
      var before := run[..|run| - 1];
      Projection(cfg, before) + PoolSteps(After(cfg, before).value, run[|run| - 1])
  }

  lemma StepProjects(cfg: B.Config, st: State, s: Step)
    requires Enabled(st, s)
    ensures var ps := PoolSteps(st, s);
            if ps == [] then PoolState(Apply(cfg, st, s)) == PoolState(st)
            else && P.Enabled(PoolState(st), ps[0])
                 && P.Apply(PoolState(st), ps[0]) == PoolState(Apply(cfg, st, s))
  {
  }

  /** Refinement: whatever is proved of every run of the pool holds of every run of the engine. */
  lemma {:induction false} EngineRefinesPool(cfg: B.Config, run: seq<Step>)
    requires After(cfg, run).Some?
    ensures P.After(Projection(cfg, run)) == Some(PoolState(After(cfg, run).value))
  {
    if run != [] {
      var before, s := run[..|run| - 1], run[|run| - 1];
      var st := After(cfg, before).value;
      EngineRefinesPool(cfg, before);
      StepProjects(cfg, st, s);
      var ps, done := PoolSteps(st, s), Projection(cfg, before);
      if ps == [] {
        assert done + ps == done;
      } else {
        assert (done + ps)[..|done|] == done;
      }
    }
  }

  /** The breaker inside the engine has exactly the history recorded for it. */
  lemma {:induction false} BreakerFollowsEvents(cfg: B.Config, run: seq<Step>)
    requires After(cfg, run).Some?
    ensures After(cfg, run).value.breaker == B.Run(cfg, After(cfg, run).value.events)
  {
    if run != [] {
      BreakerFollowsEvents(cfg, run[..|run| - 1]);
      var st, now := After(cfg, run[..|run| - 1]).value, After(cfg, run).value;
      if now.events != st.events {
        assert now.events[..|st.events|] == st.events;
      }
    }
  }

  /** In every run, every driver is accounted for, also with the breaker in between. */
  lemma EveryEngineRunIsAccounted(cfg: B.Config, run: seq<Step>)
    requires After(cfg, run).Some?
    ensures P.Accounted(PoolState(After(cfg, run).value))
  {
    EngineRefinesPool(cfg, run);
    P.EveryRunIsAccounted(Projection(cfg, run));
  }

  /** A call that missed the pool is turned away exactly when the history has tripped the breaker. */
  lemma TurnedAwayExactlyWhenTripped(cfg: B.Config, run: seq<Step>, c: P.CallId, now: int)
    requires cfg.Valid() && After(cfg, run).Some? && Enabled(After(cfg, run).value, Ask(c, now))
    ensures var st := After(cfg, run).value;
            c !in Apply(cfg, st, Ask(c, now)).calls <==>
              B.Tripped(cfg, st.events) && now <= B.LatestFail(st.events) + cfg.cooldown
  {
    BreakerFollowsEvents(cfg, run);
    B.RejectsExactlyWhenTripped(cfg, After(cfg, run).value.events, now);
  }

  /** No driver is built without an admitted Allow of its own: before every step that builds one, the same call
      asked the breaker and was let through, and has built nothing since. */
  lemma {:induction false} BuiltOnlyAfterAdmission(cfg: B.Config, run: seq<Step>, c: P.CallId) returns (j: nat)
    requires After(cfg, run).Some? && At(After(cfg, run).value, c, Admitted)
    ensures j < |run| && run[j].Ask? && run[j].call == c
    ensures After(cfg, run[..j]).Some? && B.Admits(After(cfg, run[..j]).value.breaker, run[j].now)
    ensures forall k :: j < k < |run| ==> !(run[k].New? && run[k].call == c)
  {
    var n := |run| - 1;
    var st := After(cfg, run[..n]).value;
    if At(st, c, Admitted) {
      j := BuiltOnlyAfterAdmission(cfg, run[..n], c);
      assert run[..n][..j] == run[..j];
    } else {
      j := n;
    }
  }

  /** What a call knows of its build: nothing before, then that it failed, or the driver. */
  predicate KnowsBuild(phase: Phase, built: Option<P.Driver>) {
    if built.None? then phase == Failed else phase == Built(built.value) || phase == Ready(built.value)
  }

  /** It comes from the call's latest attempt to build. */
  lemma {:induction false} BuildIsOwn(cfg: B.Config, run: seq<Step>, c: P.CallId,
                                      built: Option<P.Driver>) returns (j: nat)
    requires After(cfg, run).Some? && c in After(cfg, run).value.calls
    requires KnowsBuild(After(cfg, run).value.calls[c].phase, built)
    ensures j < |run| && run[j] == New(c, built)
    ensures forall k :: j < k < |run| ==> !(run[k].New? && run[k].call == c)
  {
    var n := |run| - 1;
    var st := After(cfg, run[..n]).value;
    if c in st.calls && KnowsBuild(st.calls[c].phase, built) && !(run[n].New? && run[n].call == c) {
      j := BuildIsOwn(cfg, run[..n], c, built);
    } else {
      j := n;
    }
  }

  /** The breaker is told of every reported build, and of its true outcome: a failure if the call's latest attempt built
      nothing, a success if it built a driver; and that driver is the one the call then installs. */
  lemma ReportTellsTheOutcome(cfg: B.Config, run: seq<Step>, c: P.CallId, now: int) returns (j: nat)
    requires After(cfg, run).Some? && Enabled(After(cfg, run).value, Report(c, now))
    ensures j < |run| && run[j].New? && run[j].call == c
    ensures forall k :: j < k < |run| ==> !(run[k].New? && run[k].call == c)
    ensures var st, st' := After(cfg, run).value, Apply(cfg, After(cfg, run).value, Report(c, now));
            && st'.events == st.events + [if run[j].drv.None? then B.Event.Fail(now) else B.Event.Success]
            && (if run[j].drv.None? then c !in st'.calls else At(st', c, Ready(run[j].drv.value)))
  {
    var st := After(cfg, run).value;
    var phase := st.calls[c].phase;
    j := BuildIsOwn(cfg, run, c, if phase.Failed? then None else Some(phase.drv));
  }

  datatype Outcome = Driver(drv: P.Driver) | CredentialError | BreakerOpen | BuildError

  /** The engine object: one DriverFor call that nothing interleaves with. */
  class Engine {
    const pool: P.Pool
    const breaker: B.Breaker

    constructor (maxFails: int, cooldown: int)
      ensures fresh(pool) && fresh(breaker)
      ensures pool.items == map[] && pool.closed == []
      ensures breaker.View() == B.Closed && breaker.cfg == B.Defaulted(maxFails, cooldown)
    {
      pool := new P.Pool();
      breaker := new B.Breaker(maxFails, cooldown);
    }

    /** `loaded` says whether the server's credential could be loaded; `made` is what building the driver yields if it
        is attempted; `built` says whether it was. */
    method DriverFor(server: P.ServerId, version: P.Version, loaded: bool, made: Option<P.Driver>, askedAt: int,
                     failedAt: int)
      returns (r: Outcome, built: bool)
      modifies pool, breaker
      ensures built <==> loaded && !P.Hit(old(pool.items), server, version) && B.Admits(old(breaker.View()), askedAt)
      ensures r == CredentialError <==> !loaded
      ensures !loaded ==> breaker.View() == old(breaker.View())
      ensures r.Driver? ==> server in pool.items && pool.items[server] == P.Pooled(version, r.drv)
      ensures !r.Driver? ==> pool.items == old(pool.items) && pool.closed == old(pool.closed)
      ensures loaded && P.Hit(old(pool.items), server, version) ==>
              && r == Driver(old(pool.items)[server].drv) && breaker.View() == old(breaker.View())
              && pool.items == old(pool.items) && pool.closed == old(pool.closed)
      ensures loaded && !P.Hit(old(pool.items), server, version) ==>
              var asked := B.Step(breaker.cfg, old(breaker.View()), B.Event.Allow(askedAt));
              if !built then r == BreakerOpen && breaker.View() == asked
              else if made.None?
                    then r == BuildError && breaker.View() == B.Step(breaker.cfg, asked, B.Event.Fail(failedAt))
              else && r == Driver(made.value) && breaker.View() == B.Step(breaker.cfg, asked, B.Event.Success)
                   && pool.items == old(pool.items)[server := P.Pooled(version, made.value)]
                   && pool.closed == old(pool.closed)
                                     + (if server in old(pool.items) then [old(pool.items)[server].drv] else [])
    {
      if !loaded {
        return CredentialError, false;
      }
      var found := pool.Lookup(server, version);
      if found.Some? {
        return Driver(found.value), false;
      }
      var admitted := breaker.Allow(askedAt);
      if !admitted {
        return BreakerOpen, false;
      }
      if made.None? {
        breaker.Fail(failedAt);
        return BuildError, true;
      }
      breaker.Success();
      var drv, _ := pool.Install(server, version, made.value);
      return Driver(drv), true;
    }
  }
}
