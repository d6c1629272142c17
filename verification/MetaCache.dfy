/** The resolve cache: entries expire, and all of them are dropped when the store's revision changes. */
module MetaCache {
  import opened Text
  import opened Meta
  import opened StoreSpec
  import opened FileStore
  import V = Revision

  datatype Entry<T> = Entry(value: T, expires: int)

  type Section<T> = map<string, Entry<T>>

  /** The cache's fields. The revision is the hash of the fingerprint; the hash is taken to be injective, so the
      fingerprint itself stands for it. */
  datatype Cache = Cache(rev: string, tables: Section<ResolvedTable>, funcs: Section<ResolvedFunction>)

  const EmptyCache := Cache("", map[], map[])

  function Key(schema: string, name: string): string {
    schema + ['\0'] + name
  }

  function Synced(c: Cache, snap: Snapshot): Cache {
    var rev := V.RevisionBytes(snap);
    if c.rev != rev then Cache(rev, map[], map[]) else c
  }

  /** An entry is served up to and including its expiry. */
  function Fresh<T>(s: Section<T>, key: string, now: int): Option<T> {
    if key in s && now <= s[key].expires then Some(s[key].value) else None
  }

  function AskTable(c: Cache, snap: Snapshot, ttl: int, schema: string, name: string, at: int, putAt: int)
    : (Cache, Resolution<ResolvedTable>)
  {
    var c', key := Synced(c, snap), Key(schema, name);
    match Fresh(c'.tables, key, at)
    case Some(value) => (c', Resolved(value))
    case None =>
      var r := StoreSpec.ResolveTable(snap, schema, name);
      (if r.Resolved? then c'.(tables := c'.tables[key := Entry(r.value, putAt + ttl)]) else c', r)
  }

  function AskFunction(c: Cache, snap: Snapshot, ttl: int, schema: string, name: string, at: int, putAt: int)
    : (Cache, Resolution<ResolvedFunction>)
  {
    var c', key := Synced(c, snap), Key(schema, name);
    match Fresh(c'.funcs, key, at)
    case Some(value) => (c', Resolved(value))
    case None =>
      var r := StoreSpec.ResolveFunction(snap, schema, name);
      (if r.Resolved? then c'.(funcs := c'.funcs[key := Entry(r.value, putAt + ttl)]) else c', r)
  }

  /** The cache object. Clock readings are arguments. */
  class MetaCache {
    const ttl: int
    var rev: string
    var tables: Section<ResolvedTable>
    var funcs: Section<ResolvedFunction>

    function View(): Cache
      reads this
    {
      Cache(rev, tables, funcs)
    }

    constructor (ttl: int)
      ensures this.ttl == ttl && View() == EmptyCache
    {
      this.ttl := ttl;
      rev, tables, funcs := "", map[], map[];
    }

    method SyncRevision(store: Store)
      modifies this
      ensures View() == Synced(old(View()), store.data)
    {
      var now := V.StoreRevision(store.data);
      if rev != now {
        rev := now;
        tables := map[];
        funcs := map[];
      }
    }

    method GetTable(schema: string, name: string, now: int) returns (r: Option<ResolvedTable>)
      ensures r == Fresh(tables, Key(schema, name), now)
    {
      var key := schema + ['\0'] + name;
      if key !in tables || now > tables[key].expires {
        return None;
      }
      return Some(tables[key].value);
    }

    method PutTable(schema: string, name: string, value: ResolvedTable, now: int)
      modifies this
      ensures View() == old(View()).(tables := old(tables)[Key(schema, name) := Entry(value, now + ttl)])
    {
      var key := schema + ['\0'] + name;
      tables := tables[key := Entry(value, now + ttl)];
    }

    method GetFunction(schema: string, name: string, now: int) returns (r: Option<ResolvedFunction>)
      ensures r == Fresh(funcs, Key(schema, name), now)
    {
      var key := schema + ['\0'] + name;
      if key !in funcs || now > funcs[key].expires {
        return None;
      }
      return Some(funcs[key].value);
    }

    method PutFunction(schema: string, name: string, value: ResolvedFunction, now: int)
      modifies this
      ensures View() == old(View()).(funcs := old(funcs)[Key(schema, name) := Entry(value, now + ttl)])
    {
      var key := schema + ['\0'] + name;
      funcs := funcs[key := Entry(value, now + ttl)];
    }
  }

  /** Engine.resolveTable with a cache. */
  method ResolveTableCached(c: MetaCache, store: Store, schema: string, name: string, at: int, putAt: int)
    returns (r: Resolution<ResolvedTable>)
    modifies c
    ensures (c.View(), r) == AskTable(old(c.View()), store.data, c.ttl, schema, name, at, putAt)
  {
    c.SyncRevision(store);
    var cached := c.GetTable(schema, name, at);
    if cached.Some? {
      return Resolved(cached.value);
    }
    r := store.ResolveTable(schema, name);
    if r.Resolved? {
      c.PutTable(schema, name, r.value, putAt);
    }
  }

  /** Engine.resolveFunction with a cache. */
  method ResolveFunctionCached(c: MetaCache, store: Store, schema: string, name: string, at: int, putAt: int)
    returns (r: Resolution<ResolvedFunction>)
    modifies c
    ensures (c.View(), r) == AskFunction(old(c.View()), store.data, c.ttl, schema, name, at, putAt)
  {
    c.SyncRevision(store);
    var cached := c.GetFunction(schema, name, at);
    if cached.Some? {
      return Resolved(cached.value);
    }
    r := store.ResolveFunction(schema, name);
    if r.Resolved? {
      c.PutFunction(schema, name, r.value, putAt);
    }
  }
}
