/** The driver pool. `Get` holds the lock twice, with an unlocked `create` in between, so the pool is
    modelled twice: as an object whose methods are the critical sections, and as a state machine in which
    the steps of any number of concurrent calls interleave freely. */
module DriverPool {
  import opened Text

  type ServerId = nat
  type Version = string
  type Driver = nat
  type CallId = nat

  datatype Pooled = Pooled(version: Version, drv: Driver)

  predicate Hit(items: map<ServerId, Pooled>, server: ServerId, version: Version) {
    server in items && items[server].version == version
  }

  // ---- The second critical section: what it stores and what it closes. ----

  function InstallItems(items: map<ServerId, Pooled>, server: ServerId, version: Version, drv: Driver)
    : map<ServerId, Pooled>
  {
    if Hit(items, server, version) then items else items[server := Pooled(version, drv)]
  }

  function InstallClosed(items: map<ServerId, Pooled>, server: ServerId, version: Version, drv: Driver): seq<Driver> {
    if Hit(items, server, version) then [drv]
    else if server in items then [items[server].drv]
    else []
  }

  /** An iteration order of a map: every key exactly once. */
  ghost predicate Enumerates(order: seq<ServerId>, keys: set<ServerId>) {
    && (forall i :: 0 <= i < |order| ==> order[i] in keys)
    && (forall k :: k in keys ==> k in order)
    && (forall i, j :: 0 <= i < j < |order| ==> order[i] != order[j])
  }

  function DriversOf(order: seq<ServerId>, items: map<ServerId, Pooled>): seq<Driver>
    requires forall i :: 0 <= i < |order| ==> order[i] in items
  {
    seq(|order|, i requires 0 <= i < |order| => items[order[i]].drv)
  }

  lemma DriversSnoc(order: seq<ServerId>, id: ServerId, items: map<ServerId, Pooled>)
    requires id in items && forall i :: 0 <= i < |order| ==> order[i] in items
    ensures DriversOf(order + [id], items) == DriversOf(order, items) + [items[id].drv]
  {
  }

  lemma NoDrivers(items: map<ServerId, Pooled>)
    ensures DriversOf([], items) == []
  {
  }

  /** The pool object. `closed` records every driver closed, in order. */
  class Pool {
    var items: map<ServerId, Pooled>
    var closed: seq<Driver>

    constructor ()
      ensures items == map[] && closed == []
    {
      items, closed := map[], [];
    }

    /** The first critical section of Get. */
    method Lookup(server: ServerId, version: Version) returns (found: Option<Driver>)
      ensures found.Some? <==> Hit(items, server, version)
      ensures found.Some? ==> items[server] == Pooled(version, found.value)
    {
      if server in items && items[server].version == version {
        return Some(items[server].drv);
      }
      return None;
    }

    /** The second critical section of Get, entered with a driver built outside the lock. */
    method Install(server: ServerId, version: Version, drv: Driver) returns (result: Driver, created: bool)
      modifies this
      ensures items == InstallItems(old(items), server, version, drv)
      ensures closed == old(closed) + InstallClosed(old(items), server, version, drv)
      ensures items[server] == Pooled(version, result)
      ensures created <==> !Hit(old(items), server, version)
      ensures created ==> result == drv
    {
      if server in items && items[server].version == version {
        closed := closed + [drv];
        return items[server].drv, false;
      }
      if server in items {
        closed := closed + [items[server].drv];
      }
      items := items[server := Pooled(version, drv)];
      return drv, true;
    }

    /** A whole Get that nothing interleaves with; `built` is what create returns if it is called. */
    method Get(server: ServerId, version: Version, built: Option<Driver>)
      returns (result: Option<Driver>, created: bool)
      modifies this
      ensures Hit(old(items), server, version) ==>
              items == old(items) && closed == old(closed) && result == Some(items[server].drv) && !created
      ensures !Hit(old(items), server, version) && built.None? ==>
              items == old(items) && closed == old(closed) && result.None? && !created
      ensures !Hit(old(items), server, version) && built.Some? ==>
              && items == old(items)[server := Pooled(version, built.value)]
              && closed == old(closed) + (if server in old(items) then [old(items)[server].drv] else [])
              && result == built && created
    {
      var found := Lookup(server, version);
      if found.Some? {
        return found, false;
      }
      if built.None? {
        return None, false;
      }
      var drv, isNew := Install(server, version, built.value);
      return Some(drv), isNew;
    }

    /** Closes and removes every pooled driver, in whatever order the map is iterated. */
    method Close() returns (ghost order: seq<ServerId>)
      modifies this
      ensures items == map[]
      ensures Enumerates(order, old(items).Keys)
      ensures closed == old(closed) + DriversOf(order, old(items))
    {
      hide DriversOf;
      order := [];
      ghost var all := items;
      NoDrivers(all);
      while items != map[]
        invariant forall k :: k in items ==> k in all && items[k] == all[k] && k !in order
        invariant forall k :: k in all ==> k in items || k in order
        invariant forall i :: 0 <= i < |order| ==> order[i] in all
        invariant forall i, j :: 0 <= i < j < |order| ==> order[i] != order[j]
        invariant closed == old(closed) + DriversOf(order, all)
        decreases |items|
      {
        var id :| id in items;
        DriversSnoc(order, id, all);
        closed := closed + [items[id].drv];
        items := items - {id};
        order := order + [id];
      }
    }
  }

  // ---- The interleaved system. ----

  /** Where a call of Get stands between its critical sections. */
  datatype Call = Creating(server: ServerId, version: Version)
                | Holding(server: ServerId, version: Version, drv: Driver)

  datatype State = State(
    items: map<ServerId, Pooled>,
    calls: map<CallId, Call>,
    created: set<Driver>,
    closed: seq<Driver>
  )

  const Start := State(map[], map[], {}, [])

  datatype Step =
    | Lookup(call: CallId, server: ServerId, version: Version)
    | CreateFails(call: CallId)
    | Create(call: CallId, drv: Driver)
    | Install(call: CallId)
    | Close(order: seq<ServerId>)

  /** A step is taken only by a call that has reached it; `create` returns a driver never seen before. */
  ghost predicate Enabled(st: State, s: Step) {
    match s
    case Lookup(c, _, _) => c !in st.calls
    case CreateFails(c) => c in st.calls && st.calls[c].Creating?
    case Create(c, d) => c in st.calls && st.calls[c].Creating? && d !in st.created
    case Install(c) => c in st.calls && st.calls[c].Holding?
    case Close(order) => Enumerates(order, st.items.Keys)
  }

  ghost function Apply(st: State, s: Step): State
    requires Enabled(st, s)
  {
    match s
    case Lookup(c, server, version) =>
      if Hit(st.items, server, version) then st
      else st.(calls := st.calls[c := Creating(server, version)])
    case CreateFails(c) => st.(calls := st.calls - {c})
    case Create(c, d) =>
      st.(calls := st.calls[c := Holding(st.calls[c].server, st.calls[c].version, d)], created := st.created + {d})
    case Install(c) =>
      var h := st.calls[c];
      st.(calls := st.calls - {c},
          items := InstallItems(st.items, h.server, h.version, h.drv),
          closed := st.closed + InstallClosed(st.items, h.server, h.version, h.drv))
    case Close(order) => st.(items := map[], closed := st.closed + DriversOf(order, st.items))
  }

  /** The state a run reaches from the empty pool, if each of its steps is enabled. */
  ghost function After(run: seq<Step>): Option<State> {
    if run == [] then Some(Start)
    else match After(run[..|run| - 1])
         case None => None
         case Some(st) => if Enabled(st, run[|run| - 1]) then Some(Apply(st, run[|run| - 1])) else None
  }

  // ---- Where each driver is. ----

  ghost predicate InFlight(st: State, d: Driver) {
    exists c :: c in st.calls && st.calls[c].Holding? && st.calls[c].drv == d
  }

  ghost predicate InPool(st: State, d: Driver) {
    exists k :: k in st.items && st.items[k].drv == d
  }

  ghost predicate WasClosed(st: State, d: Driver) {
    d in st.closed
  }

  predicate SameDriver(a: Call, b: Call) {
    a.Holding? && b.Holding? && a.drv == b.drv
  }

  /** The drivers ever created are the disjoint union of in-flight, pooled and closed ones. */
  ghost predicate InOnePlace(st: State) {
    && (forall d :: d in st.created <==> InFlight(st, d) || InPool(st, d) || WasClosed(st, d))
    && (forall d :: !(InFlight(st, d) && InPool(st, d)))
    && (forall d :: !(InFlight(st, d) && WasClosed(st, d)))
    && (forall d :: !(InPool(st, d) && WasClosed(st, d)))
  }

  /** No two calls hold the same driver. */
  ghost predicate HeldOnce(st: State) {
    forall c1, c2 :: c1 in st.calls && c2 in st.calls && SameDriver(st.calls[c1], st.calls[c2]) ==> c1 == c2
  }

  /** No driver is pooled under two servers. */
  ghost predicate PooledOnce(st: State) {
    forall k1, k2 :: k1 in st.items && k2 in st.items && st.items[k1].drv == st.items[k2].drv ==> k1 == k2
  }

  ghost predicate ClosedOnce(st: State) {
    forall i, j :: 0 <= i < j < |st.closed| ==> st.closed[i] != st.closed[j]
  }

  /** Every driver is in one place, held by one call or pooled under one server, and closed at most once. */
  ghost predicate Accounted(st: State) {
    InOnePlace(st) && HeldOnce(st) && PooledOnce(st) && ClosedOnce(st)
  }

  lemma StepKeepsAccounts(st: State, s: Step)
    requires Accounted(st) && Enabled(st, s)
    ensures Accounted(Apply(st, s))
  {
    hide Accounted, Apply;
    match s
    case Install(c) => InstallKeepsAccounts(st, c);
    case Close(order) => CloseKeepsAccounts(st, order);
    case Lookup(c, server, version) => LookupKeepsAccounts(st, c, server, version);
    case CreateFails(c) => FailureKeepsAccounts(st, c);
    case Create(c, d) => CreateKeepsAccounts(st, c, d);
  }

  /** The calls that hold a driver are the same. */
  ghost predicate SameHolders(st: State, now: State) {
    && (forall c :: c in st.calls && st.calls[c].Holding? ==> c in now.calls && now.calls[c] == st.calls[c])
    && (forall c :: c in now.calls && now.calls[c].Holding? ==> c in st.calls && now.calls[c] == st.calls[c])
  }

  lemma HoldersSay(st: State, now: State)
    requires SameHolders(st, now)
    ensures forall d :: InFlight(st, d) <==> InFlight(now, d)
    ensures HeldOnce(st) ==> HeldOnce(now)
  {
  }

  lemma OnlyCallsChanged(st: State, now: State)
    requires Accounted(st) && SameHolders(st, now)
    requires now.items == st.items && now.closed == st.closed && now.created == st.created
    ensures Accounted(now)
  {
    HoldersSay(st, now);
    hide InFlight, HeldOnce, SameHolders;
    assert forall d :: InPool(st, d) <==> InPool(now, d);
  }

  lemma LookupKeepsAccounts(st: State, c: CallId, server: ServerId, version: Version)
    requires Accounted(st) && Enabled(st, Lookup(c, server, version))
    ensures Accounted(Apply(st, Lookup(c, server, version)))
  {
    hide Accounted;
    OnlyCallsChanged(st, Apply(st, Lookup(c, server, version)));
  }

  lemma FailureKeepsAccounts(st: State, c: CallId)
    requires Accounted(st) && Enabled(st, CreateFails(c))
    ensures Accounted(Apply(st, CreateFails(c)))
  {
    hide Accounted;
    OnlyCallsChanged(st, Apply(st, CreateFails(c)));
  }

  lemma CreateKeepsAccounts(st: State, c: CallId, d: Driver)
    requires Accounted(st) && Enabled(st, Create(c, d))
    ensures Accounted(Apply(st, Create(c, d)))
  {
    var now := Apply(st, Create(c, d));
    NewHolder(st, c, d);
    hide InFlight, HeldOnce;
    assert forall e :: InPool(st, e) <==> InPool(now, e);
  }

  lemma NewHolder(st: State, c: CallId, d: Driver)
    requires Accounted(st) && Enabled(st, Create(c, d))
    ensures var now := Apply(st, Create(c, d));
            HeldOnce(now) && forall e :: InFlight(now, e) <==> InFlight(st, e) || e == d
  {
    var now := Apply(st, Create(c, d));
    assert now.calls[c].drv == d;
    forall e
      ensures InFlight(now, e) <==> InFlight(st, e) || e == d
    {
      if c' :| c' in st.calls && st.calls[c'].Holding? && st.calls[c'].drv == e {
        assert c' in now.calls && now.calls[c'] == st.calls[c'];
      }
    }
    assert !InFlight(st, d);
    assert forall c' :: c' in st.calls && st.calls[c'].Holding? ==> InFlight(st, st.calls[c'].drv);
  }

  /** What holding a driver excludes. */
  lemma HeldIsNowhereElse(st: State, c: CallId)
    requires Accounted(st) && c in st.calls && st.calls[c].Holding?
    ensures var d := st.calls[c].drv;
            && d in st.created && InFlight(st, d) && !InPool(st, d) && !WasClosed(st, d)
            && forall c' :: c' in st.calls && SameDriver(st.calls[c'], st.calls[c]) ==> c' == c
  {
    assert InFlight(st, st.calls[c].drv);
  }

  /** Installing ends one call's holding and no other's. */
  lemma OnlyThisCallEnds(st: State, c: CallId)
    requires Accounted(st) && Enabled(st, Install(c))
    ensures var now := Apply(st, Install(c));
            HeldOnce(now) && forall d :: InFlight(now, d) <==> InFlight(st, d) && d != st.calls[c].drv
  {
    var now := Apply(st, Install(c));
    HeldIsNowhereElse(st, c);
    forall d
      ensures InFlight(now, d) <==> InFlight(st, d) && d != st.calls[c].drv
    {
      if c' :| c' in st.calls && st.calls[c'].Holding? && st.calls[c'].drv == d {
        assert c' != c ==> c' in now.calls && now.calls[c'] == st.calls[c'];
      }
    }
  }

  /** A driver not closed before may be closed. */
  lemma ClosingAnother(a: State, b: State, d: Driver)
    requires ClosedOnce(a) && !WasClosed(a, d) && b.closed == a.closed + [d]
    ensures ClosedOnce(b) && forall e :: WasClosed(b, e) <==> WasClosed(a, e) || e == d
  {
  }

  /** The driver built in vain is closed; the pool stays. */
  lemma RedundantInstallKeepsAccounts(st: State, c: CallId)
    requires Accounted(st) && Enabled(st, Install(c)) && Hit(st.items, st.calls[c].server, st.calls[c].version)
    ensures Accounted(Apply(st, Install(c)))
  {
    var now := Apply(st, Install(c));
    HeldIsNowhereElse(st, c);
    OnlyThisCallEnds(st, c);
    ClosingAnother(st, now, st.calls[c].drv);
    hide InFlight, HeldOnce, WasClosed, ClosedOnce;
    assert forall d :: InPool(now, d) <==> InPool(st, d);
  }

  /** The driver that another version displaces. */
  ghost predicate Displaced(st: State, server: ServerId, d: Driver) {
    server in st.items && st.items[server].drv == d
  }

  lemma PoolAfterInstall(st: State, c: CallId)
    requires Accounted(st) && Enabled(st, Install(c)) && !Hit(st.items, st.calls[c].server, st.calls[c].version)
    ensures var h, now := st.calls[c], Apply(st, Install(c));
            && PooledOnce(now)
            && forall d :: InPool(now, d) <==> d == h.drv || (InPool(st, d) && !Displaced(st, h.server, d))
  {
    var h, now := st.calls[c], Apply(st, Install(c));
    HeldIsNowhereElse(st, c);
    hide InFlight, HeldOnce, WasClosed, ClosedOnce;
    assert forall k :: k in st.items ==> InPool(st, st.items[k].drv);
    assert now.items[h.server].drv == h.drv;
    forall d
      ensures InPool(now, d) <==> d == h.drv || (InPool(st, d) && !Displaced(st, h.server, d))
    {
      if k :| k in st.items && st.items[k].drv == d {
        assert k != h.server ==> k in now.items && now.items[k] == st.items[k];
      }
    }
  }

  /** The driver built takes its place in the pool; one of another version is closed. */
  lemma FreshInstallKeepsAccounts(st: State, c: CallId)
    requires Accounted(st) && Enabled(st, Install(c)) && !Hit(st.items, st.calls[c].server, st.calls[c].version)
    ensures Accounted(Apply(st, Install(c)))
  {
    var h, now := st.calls[c], Apply(st, Install(c));
    HeldIsNowhereElse(st, c);
    OnlyThisCallEnds(st, c);
    PoolAfterInstall(st, c);
    hide InFlight, HeldOnce, PooledOnce;
    if h.server in st.items {
      assert InPool(st, st.items[h.server].drv);
      ClosingAnother(st, now, st.items[h.server].drv);
    }
    hide InPool, WasClosed, ClosedOnce;
  }

  lemma InstallKeepsAccounts(st: State, c: CallId)
    requires Accounted(st) && Enabled(st, Install(c))
    ensures Accounted(Apply(st, Install(c)))
  {
    hide Accounted, Apply;
    if Hit(st.items, st.calls[c].server, st.calls[c].version) {
      RedundantInstallKeepsAccounts(st, c);
    } else {
      FreshInstallKeepsAccounts(st, c);
    }
  }

  lemma CloseKeepsAccounts(st: State, order: seq<ServerId>)
    requires Accounted(st) && Enabled(st, Close(order))
    ensures Accounted(Apply(st, Close(order)))
  {
    var now, drained := Apply(st, Close(order)), DriversOf(order, st.items);
    assert forall d :: InFlight(now, d) == InFlight(st, d);
    forall d
      ensures InPool(st, d) <==> d in drained
    {
      if InPool(st, d) {
        var k :| k in st.items && st.items[k].drv == d;
        var i :| 0 <= i < |order| && order[i] == k;
        assert drained[i] == d;
      }
    }
    assert forall i :: 0 <= i < |drained| ==> drained[i] in drained;
  }

  /** In every interleaving of any number of Get and Close calls. */
  lemma {:induction false} EveryRunIsAccounted(run: seq<Step>)
    requires After(run).Some?
    ensures Accounted(After(run).value)
  {
    if run != [] {
      EveryRunIsAccounted(run[..|run| - 1]);
      StepKeepsAccounts(After(run[..|run| - 1]).value, run[|run| - 1]);
    }
  }

  /** What a step hands back to the caller of Get, if it completes the call: the driver and whether it is new. */
  ghost function Returned(st: State, s: Step): Option<(Driver, bool)>
    requires Enabled(st, s)
  {
    match s
    case Lookup(c, server, version) =>
      if Hit(st.items, server, version) then Some((st.items[server].drv, false)) else None
    case Install(c) =>
      var h := st.calls[c];
      if Hit(st.items, h.server, h.version) then Some((st.items[h.server].drv, false)) else Some((h.drv, true))
    case _ => None
  }

  /** The server and version a returning step was asked for. */
  ghost function Asked(st: State, s: Step): (ServerId, Version)
    requires Enabled(st, s) && Returned(st, s).Some?
  {
    match s
    case Lookup(_, server, version) => (server, version)
    case Install(c) => (st.calls[c].server, st.calls[c].version)
  }

  /** Whenever a Get returns, in any run, its driver is at that moment pooled under the server it asked for
      with the version it asked for, and has not been closed. */
  lemma ReturnedDriverIsPooledAndOpen(run: seq<Step>, s: Step)
    requires After(run).Some? && Enabled(After(run).value, s)
    requires Returned(After(run).value, s).Some?
    ensures var st, (server, version) := Apply(After(run).value, s), Asked(After(run).value, s);
            var drv := Returned(After(run).value, s).value.0;
            && server in st.items && st.items[server] == Pooled(version, drv)
            && drv in st.created && !WasClosed(st, drv)
  {
    var st := After(run).value;
    EveryRunIsAccounted(run);
    StepKeepsAccounts(st, s);
    assert InPool(Apply(st, s), Returned(st, s).value.0);
  }

  // ---- How long a returned driver lasts. ----

  /** The step takes the server's driver of that version out of the pool. */
  ghost predicate Displaces(st: State, s: Step, server: ServerId, version: Version)
    requires Enabled(st, s)
  {
    s.Close? || (s.Install? && st.calls[s.call].server == server && st.calls[s.call].version != version)
  }

  ghost predicate IsPooled(st: State, server: ServerId, version: Version, drv: Driver) {
    server in st.items && st.items[server] == Pooled(version, drv)
  }

  lemma StaysOrIsClosed(st: State, s: Step, server: ServerId, version: Version, drv: Driver)
    requires Enabled(st, s) && IsPooled(st, server, version, drv)
    ensures if Displaces(st, s, server, version) then WasClosed(Apply(st, s), drv)
            else IsPooled(Apply(st, s), server, version, drv)
  {
    if s.Close? {
      var i :| 0 <= i < |s.order| && s.order[i] == server;
      assert DriversOf(s.order, st.items)[i] == drv;
    } else if s.Install? && Displaces(st, s, server, version) {
      var closed := Apply(st, s).closed;
      assert closed[|st.closed|] == drv;
    }
  }

  /** A pooled driver is closed by the next step exactly when that displaces it. */
  lemma ClosedExactlyWhenDisplaced(st: State, s: Step, server: ServerId, version: Version, drv: Driver)
    requires Accounted(st) && Enabled(st, s) && IsPooled(st, server, version, drv)
    ensures !WasClosed(st, drv)
    ensures WasClosed(Apply(st, s), drv) <==> Displaces(st, s, server, version)
    ensures !Displaces(st, s, server, version) ==> IsPooled(Apply(st, s), server, version, drv)
  {
    assert InPool(st, drv);
    StaysOrIsClosed(st, s, server, version, drv);
    StepKeepsAccounts(st, s);
    hide Apply, Displaces;
    assert IsPooled(Apply(st, s), server, version, drv) ==> InPool(Apply(st, s), drv);
  }

  /** The i-th step of the continuation, if it is taken, leaves the server's driver of that version in the pool. */
  ghost predicate LeavesPooled(before: seq<Step>, more: seq<Step>, i: nat, server: ServerId, version: Version)
    requires i < |more|
  {
    var st := After(before + more[..i]);
    st.Some? && Enabled(st.value, more[i]) ==> !Displaces(st.value, more[i], server, version)
  }

  ghost predicate NoneDisplaces(before: seq<Step>, more: seq<Step>, server: ServerId, version: Version) {
    forall i :: 0 <= i < |more| ==> LeavesPooled(before, more, i, server, version)
  }

  lemma {:induction false} PooledUntilDisplaced(before: seq<Step>, more: seq<Step>, server: ServerId, version: Version,
                                                drv: Driver)
    requires After(before).Some? && After(before + more).Some?
    requires IsPooled(After(before).value, server, version, drv) && NoneDisplaces(before, more, server, version)
    ensures IsPooled(After(before + more).value, server, version, drv)
  {
    hide Displaces, IsPooled, Enabled;
    if more == [] {
      assert before + more == before;
    } else {
      var n := |more| - 1;
      assert (before + more)[..|before| + n] == before + more[..n] && (before + more)[|before| + n] == more[n];
      forall i | 0 <= i < n
        ensures LeavesPooled(before, more[..n], i, server, version)
      {
        assert more[..n][..i] == more[..i] && more[..n][i] == more[i];
        assert LeavesPooled(before, more, i, server, version);
      }
      PooledUntilDisplaced(before, more[..n], server, version, drv);
      assert LeavesPooled(before, more, n, server, version);
      StaysOrIsClosed(After(before + more[..n]).value, more[n], server, version, drv);
    }
  }

  /** A driver that Get returns stays pooled under its server and version, and open, through every continuation in which
      no Close comes and no other version is installed for the server; and whatever step comes next closes it exactly if
      it is one of those. */
  lemma ReturnedDriverIsOpenUntilDisplaced(run: seq<Step>, s: Step, more: seq<Step>)
    requires After(run).Some? && Enabled(After(run).value, s) && Returned(After(run).value, s).Some?
    requires After(run + [s] + more).Some?
    requires var (server, version) := Asked(After(run).value, s); NoneDisplaces(run + [s], more, server, version)
    ensures var (server, version) := Asked(After(run).value, s);
            var drv, st := Returned(After(run).value, s).value.0, After(run + [s] + more).value;
            && IsPooled(st, server, version, drv) && !WasClosed(st, drv)
            && forall t :: Enabled(st, t) ==> (WasClosed(Apply(st, t), drv) <==> Displaces(st, t, server, version))
  {
    hide Displaces, Enabled, Apply, Accounted, Returned, Asked, NoneDisplaces;
    var (server, version) := Asked(After(run).value, s);
    var drv, before := Returned(After(run).value, s).value.0, run + [s];
    assert before[..|run|] == run;
    ReturnedDriverIsPooledAndOpen(run, s);
    PooledUntilDisplaced(before, more, server, version, drv);
    var st := After(before + more).value;
    EveryRunIsAccounted(before + more);
    PooledIsOpen(st, server, version, drv);
    forall t | Enabled(st, t)
      ensures WasClosed(Apply(st, t), drv) <==> Displaces(st, t, server, version)
    {
      ClosedExactlyWhenDisplaced(st, t, server, version, drv);
    }
  }

  lemma PooledIsOpen(st: State, server: ServerId, version: Version, drv: Driver)
    requires Accounted(st) && IsPooled(st, server, version, drv)
    ensures !WasClosed(st, drv)
  {
    assert InPool(st, drv);
  }

  /** A Close that ends a run in which no Get is in flight leaves every driver ever created closed,
      exactly once, and nothing else. */
  lemma FinalCloseReleasesEverything(run: seq<Step>, order: seq<ServerId>)
    requires After(run).Some? && Enabled(After(run).value, Close(order))
    requires forall c :: c in After(run).value.calls ==> After(run).value.calls[c].Creating?
    ensures var st := Apply(After(run).value, Close(order));
            && st.items == map[]
            && (forall d :: d in st.created <==> d in st.closed)
            && (forall i, j :: 0 <= i < j < |st.closed| ==> st.closed[i] != st.closed[j])
  {
    EveryRunIsAccounted(run);
    StepKeepsAccounts(After(run).value, Close(order));
  }
}
