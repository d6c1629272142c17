/** What a compiled record has where the document gives a variable, or nothing. */
module Expansion {
  import opened Text
  import opened Meta
  import opened Documents
  import opened Merge
  import opened Declarative
  import opened StoreSpec
  import opened CompileMeaning
  import opened CompiledForm
  import opened RoundTrip

  /** ${KEY} */
  function Variable(k: string): string {
    "${" + k + "}"
  }

  predicate IsSet(env: Env, k: string) {
    k in env && env[k] != ""
  }

  /** The value of a variable that is set, and otherwise the value as it is. */
  ghost predicate Expanded(env: Env, v: Json, w: Json) {
    && (forall k :: IsSet(env, k) && v == Str(Variable(k)) ==> w == Str(env[k]))
    && ((forall k :: IsSet(env, k) ==> v != Str(Variable(k))) ==> w == v)
  }

  ghost predicate AllExpanded(env: Env, data: Fields, secret: Fields) {
    secret.Keys == data.Keys && forall x :: x in data ==> Expanded(env, data[x], secret[x])
  }

  lemma VariableParts(k: string)
    ensures HasPrefix(Variable(k), "${") && HasSuffix(Variable(k), "}")
    ensures Variable(k)[2..|Variable(k)| - 1] == k
  {
    var s := Variable(k);
    assert s[0..2] == "${" && s[|s| - 1..|s|] == "}";
  }

  lemma PartsOfVariable(s: string)
    requires HasPrefix(s, "${") && HasSuffix(s, "}")
    ensures |s| > 2 && s == Variable(s[2..|s| - 1])
  {
    assert s[0..2] == "${" && s[|s| - 1..|s|] == "}";
    assert s[1] == '{' && s[|s| - 1] == '}';
    assert s == s[0..2] + s[2..|s| - 1] + s[|s| - 1..|s|];
  }

  /** A variable that is set becomes its value. */
  lemma SetVariableIsReplaced(env: Env, k: string)
    requires IsSet(env, k)
    ensures ExpandValue(env, Str(Variable(k))) == Str(env[k])
  {
    VariableParts(k);
  }

  lemma ValueIsExpanded(env: Env, v: Json)
    ensures Expanded(env, v, ExpandValue(env, v))
  {
    hide HasPrefix, HasSuffix;
    var w := ExpandValue(env, v);
    forall k | IsSet(env, k) && v == Str(Variable(k))
      ensures w == Str(env[k])
    {
      SetVariableIsReplaced(env, k);
    }
    if v.Str? && HasPrefix(v.text, "${") && HasSuffix(v.text, "}") {
      PartsOfVariable(v.text);
    }
  }

  lemma MapIsExpanded(env: Env, data: Fields)
    ensures AllExpanded(env, data, ExpandMap(env, data))
  {
    hide ExpandValue, Expanded;
    forall x | x in data
      ensures Expanded(env, data[x], ExpandMap(env, data)[x])
    {
      ValueIsExpanded(env, data[x]);
    }
  }

  // ---- The secrets of a compiled document. ----

  /** The secret a server gives itself, when no listed credential and no other server has its name. */
  lemma InlineSecretIsExpanded(env: Env, doc: Doc, next: Id, now: Timestamp, i: nat)
    requires Compile(env, doc, next, now).Some? && i < |doc.servers| && doc.servers[i].credential.data != map[]
    requires forall c :: c in doc.credentials ==> Trim(c.name) != Trim(doc.servers[i].name)
    requires forall j :: 0 <= j < |doc.servers| && j != i ==> Trim(doc.servers[j].name) != Trim(doc.servers[i].name)
    ensures var snap := Compile(env, doc, next, now).value.0;
            && i < |snap.servers|
            && var secret := ServerContentOf(snap, snap.servers[i]).credential;
               secret.Some? && AllExpanded(env, doc.servers[i].credential.data, secret.value)
  {
    hide Compile, Trim, ExpandMap, ListedSecrets, ServerSecrets, SharesByName, TableContentOf, FunctionContentOf,
         DeclaredTable, DeclaredFunction, Secret, ServerContentOf, Compilable, AllExpanded;
    var s := doc.servers[i];
    var n := Trim(s.name);
    CompilesExactlyWhen(env, doc, next, now);
    CompilableNames(doc);
    CompiledSays(env, doc, next, now);
    assert s in doc.servers;
    ListedKeys(env, doc.credentials, n);
    forall d | d in doc.servers && d.credential.data != map[] && Trim(d.name) == n
      ensures d.credential.data == s.credential.data
    {
      var j :| 0 <= j < |doc.servers| && doc.servers[j] == d;
    }
    InlineSecretIs(env, ListedSecrets(env, doc.credentials), doc.servers, n, s.credential.data);
    MapIsExpanded(env, s.credential.data);
  }

  /** The secret of a server that refers to a credential of the document's list by name. */
  lemma ListedSecretIsExpanded(env: Env, doc: Doc, next: Id, now: Timestamp, i: nat, k: nat)
    requires Compile(env, doc, next, now).Some? && i < |doc.servers| && k < |doc.credentials|
    requires doc.servers[i].credential.data == map[] && Trim(doc.credentials[k].name) != ""
    requires Trim(doc.servers[i].credential.name) == Trim(doc.credentials[k].name)
    requires forall j :: 0 <= j < k ==> Trim(doc.credentials[j].name) != Trim(doc.credentials[k].name)
    ensures var snap := Compile(env, doc, next, now).value.0;
            && i < |snap.servers|
            && var secret := ServerContentOf(snap, snap.servers[i]).credential;
               secret.Some? && AllExpanded(env, doc.credentials[k].data, secret.value)
  {
    hide Compile, Trim, ExpandMap, ListedSecrets, ServerSecrets, SharesByName, TableContentOf, FunctionContentOf,
         DeclaredTable, DeclaredFunction, Secret, ServerContentOf, AllExpanded;
    CompiledSays(env, doc, next, now);
    FirstListedCounts(env, doc.credentials, k);
    StartSecretsStay(env, ListedSecrets(env, doc.credentials), doc.servers, Trim(doc.credentials[k].name));
    MapIsExpanded(env, doc.credentials[k].data);
  }

  // ---- What is left out. ----

  /** A server is enabled unless the document says otherwise, and has a credential exactly if it gives one or names
      one. */
  lemma ServerDefaults(env: Env, doc: Doc, next: Id, now: Timestamp, i: nat)
    requires Compile(env, doc, next, now).Some? && i < |doc.servers|
    ensures var snap, s := Compile(env, doc, next, now).value.0, doc.servers[i];
            && i < |snap.servers|
            && (snap.servers[i].enabled <==> s.enabled != Some(false))
            && snap.servers[i].name == Trim(s.name) && snap.servers[i].protocol == Trim(s.protocol)
            && snap.servers[i].options == s.options
            && (snap.servers[i].credentialRef.None? <==> s.credential.data == map[] && Trim(s.credential.name) == "")
  {
    hide Compile, Trim, TableContentOf, FunctionContentOf, DeclaredTable, DeclaredFunction, Secret, Secrets;
    CompiledSays(env, doc, next, now);
    var snap := Compile(env, doc, next, now).value.0;
    assert ServerContentOf(snap, snap.servers[i]) == DeclaredServer(Secrets(env, doc), doc.servers[i]);
  }

  /** A table without a schema is in `public`, and so is a function. */
  lemma SchemaDefaults(env: Env, doc: Doc, next: Id, now: Timestamp)
    requires Compile(env, doc, next, now).Some?
    ensures var snap := Compile(env, doc, next, now).value.0;
            && |snap.tables| == |doc.tables| && |snap.functions| == |doc.functions|
            && (forall i :: 0 <= i < |doc.tables| ==>
                  snap.tables[i].schema
                  == if Trim(doc.tables[i].schema) == "" then "public" else Trim(doc.tables[i].schema))
            && (forall i :: 0 <= i < |doc.functions| ==>
                  snap.functions[i].schema
                  == if Trim(doc.functions[i].schema) == "" then "public" else Trim(doc.functions[i].schema))
  {
    hide Compile, Trim, ServerContentOf, DeclaredServer, Secrets, DeclaredColumns, ColumnsOf, ServerName, SharesByName;
    CompiledSays(env, doc, next, now);
    var snap := Compile(env, doc, next, now).value.0;
    forall i | 0 <= i < |doc.tables|
      ensures snap.tables[i].schema == DeclaredTable(doc.tables[i]).schema
    {
      assert TableContentOf(snap, snap.tables[i]) == DeclaredTable(doc.tables[i]);
    }
    forall i | 0 <= i < |doc.functions|
      ensures snap.functions[i].schema == DeclaredFunction(doc.functions[i]).schema
    {
      assert FunctionContentOf(snap, snap.functions[i]) == DeclaredFunction(doc.functions[i]);
    }
  }
}
