/** Credential references of servers: which operations leave one that names no credential. */
module References {
  import opened Text
  import opened Meta
  import opened Seqs
  import opened Declarative
  import opened StoreSpec
  import opened CompileMeaning
  import opened CompiledForm
  import opened CacheRuns
  import R = RoundTrip

  ghost predicate Known(snap: Snapshot, ref: Option<Id>) {
    ref.Some? ==> exists c :: c in snap.credentials && c.id == ref.value
  }

  ghost predicate RefsKnown(snap: Snapshot) {
    forall s :: s in snap.servers ==> Known(snap, s.credentialRef)
  }

  /** The engine can load the credential of every server exactly when every reference names one. */
  lemma CredentialsLoadExactlyWhenKnown(snap: Snapshot)
    ensures (forall s :: s in snap.servers ==> ServerCredential(snap, s.credentialRef).Resolved?) <==> RefsKnown(snap)
  {
    forall s | s in snap.servers
      ensures ServerCredential(snap, s.credentialRef).Resolved? <==> Known(snap, s.credentialRef)
    {
      if s.credentialRef.Some? {
        var i := IndexWhere(snap.credentials, (c: Credential) => c.id == s.credentialRef.value);
        assert i >= 0 ==> snap.credentials[i] in snap.credentials;
      }
    }
  }

  /** What is loaded is the secret of the credential that is referred to. */
  lemma LoadedCredentialIs(snap: Snapshot, c: Credential)
    requires Unique(snap.credentials, (c: Credential) => c.id) && c in snap.credentials
    ensures ServerCredential(snap, Some(c.id)) == Resolved(Some(c.payload))
    ensures ServerCredential(snap, None) == Resolved(None)
  {
    var i := IndexWhere(snap.credentials, (d: Credential) => d.id == c.id);
    var j :| 0 <= j < |snap.credentials| && snap.credentials[j] == c;
  }

  /** The reference a request gives, which the operation does not look up. */
  function GivenRef(op: Op): Option<Id> {
    match op
    case OpCreateServer(req, _) => req.credentialRef
    case OpUpdateServer(_, req, _) => req.credentialRef
    case _ => None
  }

  ghost predicate GivesKnown(db: Db, op: Op) {
    Apply(db, op).1.Some? || Known(db.snap, GivenRef(op))
  }

  lemma KnownIn(a: Snapshot, b: Snapshot, ref: Option<Id>)
    requires forall c :: c in a.credentials ==> c in b.credentials
    requires Known(a, ref)
    ensures Known(b, ref)
  {
  }

  lemma CreateServerRefs(db: Db, req: CreateServerRequest, now: Timestamp)
    requires RefsKnown(db.snap)
    ensures var (db', failed) := CreateServer(db, req, now);
            RefsKnown(db'.snap) <==> failed.Some? || Known(db.snap, req.credentialRef)
  {
    hide Trim, Known;
    var (db', failed) := CreateServer(db, req, now);
    forall ref | Known(db.snap, ref)
      ensures Known(db'.snap, ref)
    {
      KnownIn(db.snap, db'.snap, ref);
    }
    if failed.None? {
      var s := db'.snap.servers[|db.snap.servers|];
      assert s in db'.snap.servers && s.credentialRef == req.credentialRef;
      assert db'.snap.credentials == db.snap.credentials;
      SameCredentials(db.snap, db'.snap);
    }
  }

  lemma SameCredentials(a: Snapshot, b: Snapshot)
    requires a.credentials == b.credentials
    ensures forall ref :: Known(a, ref) <==> Known(b, ref)
  {
  }

  lemma UpdateServerRefs(db: Db, id: Id, req: UpdateServerRequest, now: Timestamp)
    requires RefsKnown(db.snap)
    ensures var (db', failed) := UpdateServer(db, id, req, now);
            RefsKnown(db'.snap) <==> failed.Some? || Known(db.snap, req.credentialRef)
  {
    var (db', failed) := UpdateServer(db, id, req, now);
    SameCredentials(db.snap, db'.snap);
    hide Known;
    var i := IndexWhere(db.snap.servers, (s: Server) => s.id == id);
    if i >= 0 {
      var before, after := db.snap.servers[i], db'.snap.servers[i];
      assert before in db.snap.servers && after in db'.snap.servers;
      NoneIsKnown(db.snap);
    }
  }

  lemma NoneIsKnown(snap: Snapshot)
    ensures Known(snap, None)
  {
  }

  lemma DeleteCredentialRefs(db: Db, id: Id)
    requires RefsKnown(db.snap)
    ensures RefsKnown(DeleteCredential(db, id).0.snap)
  {
    var i := IndexWhere(db.snap.credentials, (c: Credential) => c.id == id);
    var db' := DeleteCredential(db, id).0;
    forall s | s in db'.snap.servers
      ensures Known(db'.snap, s.credentialRef)
    {
      if s.credentialRef.Some? && db' != db {
        var k :| 0 <= k < |db.snap.servers| && db.snap.servers[k] == s;
        assert s.credentialRef != Some(id);
        var j :| 0 <= j < |db.snap.credentials| && db.snap.credentials[j].id == s.credentialRef.value;
        var kept := RemoveAt(db.snap.credentials, i);
        assert kept[if j < i then j else j - 1] == db.snap.credentials[j];
      }
    }
  }

  lemma OtherRefs(db: Db, op: Op)
    requires RefsKnown(db.snap) && !op.OpCreateServer? && !op.OpUpdateServer? && !op.OpDeleteCredential?
    ensures RefsKnown(Apply(db, op).0.snap)
  {
    hide Keep, NewColumns;
    var db' := Apply(db, op).0;
    assert forall s :: s in db'.snap.servers ==> s in db.snap.servers by {
      if op.OpDeleteServer? {
        FewerServers(db, op.id);
      }
    }
    forall s | s in db'.snap.servers
      ensures Known(db'.snap, s.credentialRef)
    {
      KnownIn(db.snap, db'.snap, s.credentialRef);
    }
  }

  lemma FewerServers(db: Db, id: Id)
    ensures forall s :: s in DeleteServer(db, id).0.snap.servers ==> s in db.snap.servers
  {
  }

  /** One operation keeps every reference valid exactly when it fails or gives none that is unknown. */
  lemma OpKeepsRefsExactlyWhen(db: Db, op: Op)
    requires RefsKnown(db.snap)
    ensures RefsKnown(Apply(db, op).0.snap) <==> GivesKnown(db, op)
  {
    hide RefsKnown, CreateServer, UpdateServer, DeleteCredential;
    NoneIsKnown(db.snap);
    match op
    case OpCreateServer(req, now) => CreateServerRefs(db, req, now);
    case OpUpdateServer(id, req, now) => UpdateServerRefs(db, id, req, now);
    case OpDeleteCredential(id) => DeleteCredentialRefs(db, id);
    case _ => OtherRefs(db, op);
  }

  lemma NormalRefsKnown(snap: Snapshot)
    requires R.Normal(snap)
    ensures RefsKnown(snap)
  {
    hide R.TableNormal, R.FunctionNormal, R.Clean, R.CredentialsNormal;
    forall s | s in snap.servers
      ensures Known(snap, s.credentialRef)
    {
      assert R.ServerNormal(snap, s);
    }
  }

  ghost predicate StepGivesKnown(db: Db, a: Action) {
    a.Change? ==> GivesKnown(db, a.op)
  }

  lemma StepKeepsRefsExactlyWhen(w: World, a: Action, ttl: int)
    requires RefsKnown(w.db.snap)
    ensures RefsKnown(Next(w, a, ttl).db.snap) <==> StepGivesKnown(w.db, a)
  {
    hide RefsKnown, GivesKnown, Compile, Apply, VersionsIn, R.Normal;
    match a
    case Change(op) => OpKeepsRefsExactlyWhen(w.db, op);
    case Import(env, doc, now) =>
      if Compile(env, doc, w.db.next, now).Some? {
        CompiledIsNormal(env, doc, w.db.next, now);
        NormalRefsKnown(Compile(env, doc, w.db.next, now).value.0);
      }
    case _ =>
  }

  ghost predicate AllGiveKnown(run: seq<Action>, ttl: int) {
    forall i :: 0 <= i < |run| ==> StepGivesKnown(Reached(run[..i], ttl).db, run[i])
  }

  lemma PrefixGivesKnown(run: seq<Action>, ttl: int)
    requires run != []
    ensures var m := |run| - 1;
            AllGiveKnown(run, ttl) <==> AllGiveKnown(run[..m], ttl) && StepGivesKnown(Reached(run[..m], ttl).db, run[m])
  {
    hide StepGivesKnown, Reached;
    var m := |run| - 1;
    assert forall i :: 0 <= i < m ==> run[..m][..i] == run[..i] && run[..m][i] == run[i];
  }

  /** Over runs of operations, imports and resolves: every state on the way has only valid references exactly when no
      successful CreateServer or UpdateServer on the way gives an unknown one. */
  lemma {:induction false} RefsStayKnownExactlyWhen(run: seq<Action>, ttl: int)
    ensures (forall n :: 0 <= n <= |run| ==> RefsKnown(Reached(run[..n], ttl).db.snap)) <==> AllGiveKnown(run, ttl)
  {
    hide RefsKnown, Next, StepGivesKnown;
    if run == [] {
      NothingToKnow();
      assert run[..0] == [];
    } else {
      var m := |run| - 1;
      var before := run[..m];
      RefsStayKnownExactlyWhen(before, ttl);
      assert forall n :: 0 <= n <= m ==> before[..n] == run[..n];
      assert run[..|run|] == run;
      if RefsKnown(Reached(before, ttl).db.snap) {
        StepKeepsRefsExactlyWhen(Reached(before, ttl), run[m], ttl);
      }
      PrefixGivesKnown(run, ttl);
    }
  }

  lemma NothingToKnow()
    ensures RefsKnown(EmptySnapshot)
  {
  }
}
