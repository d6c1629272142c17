/** Declarative documents: the file store's shape, the importer's shape, and the bridge between the two. */
module Documents {
  import opened Text
  import opened Meta

  datatype DeclCredential = DeclCredential(name: string, data: Fields)

  /** An inline secret, or the name of a shared one. */
  datatype CredentialField = CredentialField(name: string, data: Fields)

  datatype DeclServer = DeclServer(
    name: string, protocol: string, credential: CredentialField, enabled: Option<bool>, options: Fields)

  datatype DeclColumn = DeclColumn(
    name: string, dataType: string, remoteName: string, nullable: Option<bool>, position: int)

  datatype DeclTable = DeclTable(
    server: string, schema: string, name: string, remoteName: string, keyColumns: seq<string>,
    options: Fields, columns: seq<DeclColumn>)

  datatype DeclFunction = DeclFunction(
    server: string, schema: string, name: string, operation: string, remotePath: string,
    httpMethod: string, options: Fields)

  datatype Doc = Doc(
    credentials: seq<DeclCredential>, servers: seq<DeclServer>, tables: seq<DeclTable>, functions: seq<DeclFunction>)

  /** The importer's servers have no place for a credential's name. */
  datatype ImpServer = ImpServer(
    name: string, protocol: string, credential: Fields, enabled: Option<bool>, options: Fields)

  datatype ImpDoc = ImpDoc(
    credentials: seq<DeclCredential>, servers: seq<ImpServer>, tables: seq<DeclTable>, functions: seq<DeclFunction>)

  function FromImporterServer(s: ImpServer): DeclServer {
    DeclServer(s.name, s.protocol, CredentialField("", s.credential), s.enabled, s.options)
  }

  function ToImporterServer(s: DeclServer): ImpServer {
    ImpServer(s.name, s.protocol, s.credential.data, s.enabled, s.options)
  }

  function FromImporter(doc: ImpDoc): Doc {
    Doc(doc.credentials, seq(|doc.servers|, i requires 0 <= i < |doc.servers| => FromImporterServer(doc.servers[i])),
        doc.tables, doc.functions)
  }

  function ToImporter(doc: Doc): ImpDoc {
    ImpDoc(doc.credentials, seq(|doc.servers|, i requires 0 <= i < |doc.servers| => ToImporterServer(doc.servers[i])),
           doc.tables, doc.functions)
  }

  method DeclarativeFromImporter(doc: ImpDoc) returns (out: Doc)
    ensures out == FromImporter(doc)
  {
    var servers: seq<DeclServer> := [];
    for i := 0 to |doc.servers|
      invariant servers == FromImporter(doc).servers[..i]
    {
      var s := doc.servers[i];
      var ds := DeclServer(s.name, s.protocol, CredentialField("", map[]), s.enabled, s.options);
      if |s.credential| > 0 {
        ds := ds.(credential := CredentialField("", s.credential));
      }
      servers := servers + [ds];
    }
    out := Doc(doc.credentials, servers, doc.tables, doc.functions);
  }

  method DeclarativeToImporter(doc: Doc) returns (out: ImpDoc)
    ensures out == ToImporter(doc)
  {
    var servers: seq<ImpServer> := [];
    for i := 0 to |doc.servers|
      invariant servers == ToImporter(doc).servers[..i]
    {
      var s := doc.servers[i];
      var ds := ImpServer(s.name, s.protocol, map[], s.enabled, s.options);
      if |s.credential.data| > 0 {
        ds := ds.(credential := s.credential.data);
      }
      servers := servers + [ds];
    }
    out := ImpDoc(doc.credentials, servers, doc.tables, doc.functions);
  }

  /** Crossing the bridge and back returns the document exactly when no server refers to a credential by name. */
  lemma BridgeRoundTripExactlyWhen(doc: Doc)
    ensures FromImporter(ToImporter(doc)) == doc <==> forall s :: s in doc.servers ==> s.credential.name == ""
  {
    var back := FromImporter(ToImporter(doc));
    assert forall i :: 0 <= i < |doc.servers| ==>
             back.servers[i] == doc.servers[i].(credential := CredentialField("", doc.servers[i].credential.data));
    if forall s :: s in doc.servers ==> s.credential.name == "" {
      assert forall i :: 0 <= i < |doc.servers| ==> doc.servers[i] in doc.servers;
      assert back.servers == doc.servers;
    } else {
      var s :| s in doc.servers && s.credential.name != "";
      var i :| 0 <= i < |doc.servers| && doc.servers[i] == s;
      assert back.servers[i] != doc.servers[i];
    }
  }
}
