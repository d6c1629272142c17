/** Merging declarative documents: one entry for each key, the last one given. */
module Merge {
  import opened Text
  import opened Meta
  import opened Seqs
  import opened Documents

  function CredentialKey(c: DeclCredential): string {
    Trim(c.name)
  }

  function ServerKey(s: ImpServer): string {
    Trim(s.name)
  }

  function SchemaOf(schema: string): string {
    if Trim(schema) == "" then "public" else Trim(schema)
  }

  function EntryKey(server: string, schema: string, name: string): string {
    if Trim(server) == "" || Trim(name) == "" then ""
    else SchemaOf(schema) + ['\0'] + Trim(name) + ['\0'] + Trim(server)
  }

  function TableKey(t: DeclTable): string {
    EntryKey(t.server, t.schema, t.name)
  }

  function FunctionKey(f: DeclFunction): string {
    EntryKey(f.server, f.schema, f.name)
  }

  /** The entries by key: the last entry with a key wins, entries without one are skipped. */
  function Keyed<V>(entries: seq<V>, key: V -> string): map<string, V> {
    if entries == [] then map[]
    else
      var before, last := Keyed(entries[..|entries| - 1], key), entries[|entries| - 1];
      if key(last) == "" then before else before[key(last) := last]
  }

  /** All documents' entries by key. */
  datatype Maps = Maps(
    credentials: map<string, DeclCredential>, servers: map<string, ImpServer>,
    tables: map<string, DeclTable>, functions: map<string, DeclFunction>)

  const NoMaps := Maps(map[], map[], map[], map[])

  function DocMaps(doc: ImpDoc): Maps {
    Maps(Keyed(doc.credentials, CredentialKey), Keyed(doc.servers, ServerKey),
         Keyed(doc.tables, TableKey), Keyed(doc.functions, FunctionKey))
  }

  /** Later maps override earlier ones. */
  function Override(a: Maps, b: Maps): Maps {
    Maps(a.credentials + b.credentials, a.servers + b.servers, a.tables + b.tables, a.functions + b.functions)
  }

  function AllMaps(docs: seq<ImpDoc>): Maps {
    if docs == [] then NoMaps
    else Override(AllMaps(docs[..|docs| - 1]), DocMaps(docs[|docs| - 1]))
  }

  ghost predicate NamesServers(doc: ImpDoc) {
    forall s :: s in doc.servers ==> ServerKey(s) != ""
  }

  /** The entries are the map's values, each key once, in any order. */
  ghost predicate Lists<V>(entries: seq<V>, m: map<string, V>, key: V -> string) {
    && (forall v :: v in entries ==> key(v) in m && m[key(v)] == v)
    && (forall k :: k in m ==> m[k] in entries)
    && Unique(entries, key)
  }

  ghost predicate ListsAll(out: ImpDoc, m: Maps) {
    && Lists(out.credentials, m.credentials, CredentialKey)
    && Lists(out.servers, m.servers, ServerKey)
    && Lists(out.tables, m.tables, TableKey)
    && Lists(out.functions, m.functions, FunctionKey)
  }

  /** What a merge of the documents may return; the order of entries is that of map iteration. */
  ghost predicate IsMerge(docs: seq<ImpDoc>, out: ImpDoc) {
    ListsAll(out, AllMaps(docs))
  }

  /** Adding one document's entries to a map under their keys. */
  method AddAll<V>(start: map<string, V>, entries: seq<V>, key: V -> string) returns (m: map<string, V>)
    ensures m == start + Keyed(entries, key)
  {
    m := start;
    for i := 0 to |entries|
      invariant m == start + Keyed(entries[..i], key)
    {
      assert entries[..i + 1][..i] == entries[..i];
      var k := key(entries[i]);
      if k == "" {
        continue;
      }
      m := m[k := entries[i]];
    }
    assert entries[..|entries|] == entries;
  }

  /** The values of a map whose keys are the keys of its values, in whatever order it is iterated. */
  method Collect<V>(m: map<string, V>, key: V -> string) returns (entries: seq<V>)
    requires forall k :: k in m ==> key(m[k]) == k
    ensures Lists(entries, m, key)
  {
    entries := [];
    var rest := m;
    while rest != map[]
      invariant forall k :: k in rest ==> k in m && rest[k] == m[k]
      invariant forall v :: v in entries ==> key(v) in m && key(v) !in rest && m[key(v)] == v
      invariant forall k :: k in m && k !in rest ==> m[k] in entries
      invariant Unique(entries, key)
      decreases |rest|
    {
      var k :| k in rest;
      UniqueSnoc(entries, rest[k], key);
      entries := entries + [rest[k]];
      rest := rest - {k};
    }
  }

  ghost predicate KeysMatch<V>(m: map<string, V>, key: V -> string) {
    forall k :: k in m ==> key(m[k]) == k && k != ""
  }

  lemma {:induction false} KeyedMatches<V>(entries: seq<V>, key: V -> string)
    ensures KeysMatch(Keyed(entries, key), key)
  {
    if entries != [] {
      KeyedMatches(entries[..|entries| - 1], key);
    }
  }

  ghost predicate MapsMatch(m: Maps) {
    && KeysMatch(m.credentials, CredentialKey) && KeysMatch(m.servers, ServerKey)
    && KeysMatch(m.tables, TableKey) && KeysMatch(m.functions, FunctionKey)
  }

  lemma DocMapsMatch(doc: ImpDoc)
    ensures MapsMatch(DocMaps(doc))
  {
    KeyedMatches(doc.credentials, CredentialKey);
    KeyedMatches(doc.servers, ServerKey);
    KeyedMatches(doc.tables, TableKey);
    KeyedMatches(doc.functions, FunctionKey);
  }

  lemma UnionMatches<V>(a: map<string, V>, b: map<string, V>, key: V -> string)
    requires KeysMatch(a, key) && KeysMatch(b, key)
    ensures KeysMatch(a + b, key)
  {
  }

  lemma OverrideMatches(a: Maps, b: Maps)
    requires MapsMatch(a) && MapsMatch(b)
    ensures MapsMatch(Override(a, b))
  {
    hide KeysMatch;
    UnionMatches(a.credentials, b.credentials, CredentialKey);
    UnionMatches(a.servers, b.servers, ServerKey);
    UnionMatches(a.tables, b.tables, TableKey);
    UnionMatches(a.functions, b.functions, FunctionKey);
  }

  method AllNamed(doc: ImpDoc) returns (ok: bool)
    ensures ok <==> NamesServers(doc)
  {
    for i := 0 to |doc.servers|
      invariant forall j :: 0 <= j < i ==> ServerKey(doc.servers[j]) != ""
    {
      if Trim(doc.servers[i].name) == "" {
        assert doc.servers[i] in doc.servers;
        return false;
      }
    }
    return true;
  }

  /** One round of the merge: a document's entries over those so far. */
  method AddDocument(m: Maps, doc: ImpDoc) returns (m': Maps)
    ensures m' == Override(m, DocMaps(doc))
  {
    var creds := AddAll(m.credentials, doc.credentials, CredentialKey);
    var servers := AddAll(m.servers, doc.servers, ServerKey);
    var tables := AddAll(m.tables, doc.tables, TableKey);
    var functions := AddAll(m.functions, doc.functions, FunctionKey);
    m' := Maps(creds, servers, tables, functions);
  }

  method CollectAll(m: Maps) returns (out: ImpDoc)
    requires MapsMatch(m)
    ensures ListsAll(out, m)
  {
    var credentials := Collect(m.credentials, CredentialKey);
    var servers := Collect(m.servers, ServerKey);
    var tables := Collect(m.tables, TableKey);
    var functions := Collect(m.functions, FunctionKey);
    out := ImpDoc(credentials, servers, tables, functions);
  }

  /** MergeDeclarativeDocs: it fails exactly when some server has no name. */
  method MergeDeclarativeDocs(docs: seq<ImpDoc>) returns (r: Option<ImpDoc>)
    ensures r.Some? <==> forall d :: d in docs ==> NamesServers(d)
    ensures r.Some? ==> IsMerge(docs, r.value)
  {
    hide ListsAll, Override, DocMaps, NamesServers;
    var m := NoMaps;
    for n := 0 to |docs|
      invariant m == AllMaps(docs[..n])
      invariant forall i :: 0 <= i < n ==> NamesServers(docs[i])
    {
      assert docs[..n + 1][..n] == docs[..n] && docs[n] in docs;
      var named := AllNamed(docs[n]);
      if !named {
        return None;
      }
      m := AddDocument(m, docs[n]);
    }
    assert docs[..|docs|] == docs;
    AllMapsMatch(docs);
    var out := CollectAll(m);
    r := Some(out);
  }

  // ---- Merging as an operation on keyed maps. ----

  lemma {:induction false} ListedAgain<V>(entries: seq<V>, m: map<string, V>, key: V -> string)
    requires Lists(entries, m, key) && KeysMatch(m, key)
    ensures Keyed(entries, key) == m
  {
    KeyedOfUnique(entries, key);
    assert forall v :: v in entries ==> key(v) != "";
  }

  /** Without duplicate keys, every entry is found under its key. */
  lemma {:induction false} KeyedOfUnique<V>(entries: seq<V>, key: V -> string)
    requires Unique(entries, key)
    ensures forall v :: v in entries && key(v) != "" ==>
              key(v) in Keyed(entries, key) && Keyed(entries, key)[key(v)] == v
    ensures forall k :: k in Keyed(entries, key) ==>
              Keyed(entries, key)[k] in entries && key(Keyed(entries, key)[k]) == k
  {
    if entries != [] {
      var before, last := entries[..|entries| - 1], entries[|entries| - 1];
      assert entries == before + [last];
      UniqueSnoc(before, last, key);
      KeyedOfUnique(before, key);
    }
  }

  lemma {:induction false} AllMapsMatch(docs: seq<ImpDoc>)
    ensures MapsMatch(AllMaps(docs))
  {
    if docs != [] {
      AllMapsMatch(docs[..|docs| - 1]);
      DocMapsMatch(docs[|docs| - 1]);
      OverrideMatches(AllMaps(docs[..|docs| - 1]), DocMaps(docs[|docs| - 1]));
    }
  }

  /** Seen as keyed maps, a merge result is the fold of its inputs. */
  lemma MergedMaps(docs: seq<ImpDoc>, out: ImpDoc)
    requires IsMerge(docs, out)
    ensures DocMaps(out) == AllMaps(docs)
  {
    AllMapsMatch(docs);
    var m := AllMaps(docs);
    ListedAgain(out.credentials, m.credentials, CredentialKey);
    ListedAgain(out.servers, m.servers, ServerKey);
    ListedAgain(out.tables, m.tables, TableKey);
    ListedAgain(out.functions, m.functions, FunctionKey);
  }

  lemma UnionAssociative<V>(a: map<string, V>, b: map<string, V>, c: map<string, V>)
    ensures (a + b) + c == a + (b + c) && a + map[] == a && map[] + a == a && a + a == a
  {
  }

  lemma OverrideAssociative(a: Maps, b: Maps, c: Maps)
    ensures Override(Override(a, b), c) == Override(a, Override(b, c))
    ensures Override(a, NoMaps) == a && Override(NoMaps, a) == a
    ensures Override(a, a) == a
  {
    UnionAssociative(a.credentials, b.credentials, c.credentials);
    UnionAssociative(a.servers, b.servers, c.servers);
    UnionAssociative(a.tables, b.tables, c.tables);
    UnionAssociative(a.functions, b.functions, c.functions);
  }

  lemma {:induction false} AllMapsConcat(a: seq<ImpDoc>, b: seq<ImpDoc>)
    ensures AllMaps(a + b) == Override(AllMaps(a), AllMaps(b))
  {
    hide Override, DocMaps;
    if b == [] {
      assert a + b == a;
      OverrideAssociative(AllMaps(a), NoMaps, NoMaps);
    } else {
      var n := |b| - 1;
      AllMapsConcat(a, b[..n]);
      assert (a + b)[..|a| + n] == a + b[..n];
      OverrideAssociative(AllMaps(a), AllMaps(b[..n]), DocMaps(b[n]));
    }
  }

  lemma AllMapsOne(doc: ImpDoc)
    ensures AllMaps([doc]) == DocMaps(doc)
  {
    hide DocMaps;
    assert [doc][..0] == [];
    OverrideAssociative(DocMaps(doc), NoMaps, NoMaps);
  }

  /** Associative: merging some documents first and the result with the others afterwards gives what one merge of
      all of them can give, and nothing else. */
  lemma MergeAssociative(a: seq<ImpDoc>, b: seq<ImpDoc>, merged: ImpDoc, out: ImpDoc)
    requires IsMerge(a, merged)
    ensures IsMerge([merged] + b, out) <==> IsMerge(a + b, out)
  {
    MergedMaps(a, merged);
    hide ListsAll, AllMaps, DocMaps;
    AllMapsConcat([merged], b);
    AllMapsConcat(a, b);
    AllMapsOne(merged);
  }

  /** Idempotent: giving a document twice changes nothing. */
  lemma MergeIdempotent(docs: seq<ImpDoc>, doc: ImpDoc, out: ImpDoc)
    ensures IsMerge(docs + [doc, doc], out) <==> IsMerge(docs + [doc], out)
  {
    hide ListsAll, AllMaps, DocMaps, Override;
    AllMapsConcat(docs, [doc, doc]);
    AllMapsConcat([doc], [doc]);
    assert [doc] + [doc] == [doc, doc];
    AllMapsConcat(docs, [doc]);
    OverrideAssociative(AllMaps([doc]), NoMaps, NoMaps);
  }

  /** The last document wins, what it does not mention is as it was, and each key occurs once. */
  lemma LastDocumentWins(docs: seq<ImpDoc>, last: ImpDoc, out: ImpDoc)
    requires IsMerge(docs + [last], out)
    ensures DocMaps(out) == Override(AllMaps(docs), DocMaps(last))
    ensures Unique(out.credentials, CredentialKey) && Unique(out.servers, ServerKey)
    ensures Unique(out.tables, TableKey) && Unique(out.functions, FunctionKey)
  {
    assert (docs + [last])[..|docs|] == docs;
    MergedMaps(docs + [last], out);
  }

  /** Keys tell entries apart whose schema and name contain no NUL: equal keys mean equal schema (after defaulting),
      name and server (after trimming). */
  lemma EntryKeyInjective(server1: string, schema1: string, name1: string, server2: string, schema2: string,
                          name2: string)
    requires EntryKey(server1, schema1, name1) == EntryKey(server2, schema2, name2) != ""
    requires '\0' !in SchemaOf(schema1) && '\0' !in Trim(name1) && '\0' !in SchemaOf(schema2) && '\0' !in Trim(name2)
    ensures SchemaOf(schema1) == SchemaOf(schema2) && Trim(name1) == Trim(name2) && Trim(server1) == Trim(server2)
  {
    hide Trim, SchemaOf;
    KeyParts(SchemaOf(schema1), Trim(name1), Trim(server1));
    KeyParts(SchemaOf(schema2), Trim(name2), Trim(server2));
    CutAt(SchemaOf(schema1), SchemaOf(schema2), '\0',
          Trim(name1) + ['\0'] + Trim(server1), Trim(name2) + ['\0'] + Trim(server2));
    CutAt(Trim(name1), Trim(name2), '\0', Trim(server1), Trim(server2));
  }

  lemma KeyParts(schema: string, name: string, server: string)
    ensures schema + ['\0'] + name + ['\0'] + server == schema + ['\0'] + (name + ['\0'] + server)
  {
  }

  /** Under each key stands the last entry of a document that has it, and entries without a key are left out. */
  lemma {:induction false} KeyedIsLast<V>(entries: seq<V>, key: V -> string, i: nat)
    requires i < |entries| && key(entries[i]) != ""
    requires forall j :: i < j < |entries| ==> key(entries[j]) != key(entries[i])
    ensures key(entries[i]) in Keyed(entries, key) && Keyed(entries, key)[key(entries[i])] == entries[i]
  {
    var before := entries[..|entries| - 1];
    if i < |before| {
      KeyedIsLast(before, key, i);
    }
  }

  /** A server of the last document that no later one there replaces is in the result; and a server of an earlier
      document whose name the last one lacks stays as the earlier ones give it. */
  lemma LastServersWin(docs: seq<ImpDoc>, last: ImpDoc, out: ImpDoc, earlier: ImpDoc)
    requires IsMerge(docs + [last], out) && IsMerge(docs, earlier)
    ensures forall i :: 0 <= i < |last.servers| && Trim(last.servers[i].name) != ""
                        && (forall j :: i < j < |last.servers| ==>
                             Trim(last.servers[j].name) != Trim(last.servers[i].name))
                        ==> last.servers[i] in out.servers
    ensures forall e :: e in earlier.servers && (forall s :: s in last.servers ==> Trim(s.name) != Trim(e.name)) ==>
              e in out.servers
  {
    hide Keyed, Trim;
    LastDocumentWins(docs, last, out);
    MergedMaps(docs, earlier);
    var theirs := Keyed(last.servers, ServerKey);
    assert AllMaps(docs + [last]) == Override(AllMaps(docs), DocMaps(last)) by {
      assert (docs + [last])[..|docs|] == docs;
    }
    forall i | 0 <= i < |last.servers| && Trim(last.servers[i].name) != ""
               && (forall j :: i < j < |last.servers| ==> Trim(last.servers[j].name) != Trim(last.servers[i].name))
      ensures last.servers[i] in out.servers
    {
      KeyedIsLast(last.servers, ServerKey, i);
    }
    forall e | e in earlier.servers && (forall s :: s in last.servers ==> Trim(s.name) != Trim(e.name))
      ensures e in out.servers
    {
      KeyedHas(last.servers, ServerKey, Trim(e.name));
      assert ServerKey(e) == Trim(e.name);
      assert ServerKey(e) in AllMaps(docs).servers;
    }
  }

  lemma {:induction false} KeyedHas<V>(entries: seq<V>, key: V -> string, k: string)
    ensures k in Keyed(entries, key) <==> k != "" && exists e :: e in entries && key(e) == k
    ensures k in Keyed(entries, key) ==> Keyed(entries, key)[k] in entries && key(Keyed(entries, key)[k]) == k
  {
    if entries != [] {
      var before, last := entries[..|entries| - 1], entries[|entries| - 1];
      assert entries == before + [last];
      KeyedHas(before, key, k);
    }
  }
}
