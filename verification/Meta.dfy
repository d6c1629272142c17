/** The records of the metadata store. Decoded YAML and JSON values are maps of fields. */
module Meta {
  import opened Text

  /** Identifiers are drawn from a supply that never repeats. */
  type Id = nat

  datatype Json = Str(text: string) | Other(text: string)

  type Fields = map<string, Json>

  /** A UTC instant by its calendar fields. */
  datatype Timestamp = Timestamp(year: nat, month: nat, day: nat, hour: nat, minute: nat, second: nat, nano: nat)

  /** The payload is sealed by the vault; opening it gives the fields back. */
  datatype Credential = Credential(id: Id, name: string, payload: Fields)

  datatype Server = Server(
    id: Id, name: string, protocol: string, options: Fields,
    credentialRef: Option<Id>, enabled: bool, updatedAt: Timestamp)

  datatype Table = Table(
    id: Id, serverId: Id, schema: string, name: string, remoteName: string,
    keyColumns: seq<string>, options: Fields)

  datatype Column = Column(
    id: Id, tableId: Id, name: string, dataType: string, remoteName: string, nullable: bool, position: int)

  datatype Function = Function(
    id: Id, serverId: Id, schema: string, name: string, operation: string,
    remotePath: string, httpMethod: string, options: Fields)

  datatype Snapshot = Snapshot(
    credentials: seq<Credential>, servers: seq<Server>, tables: seq<Table>,
    columns: seq<Column>, functions: seq<Function>)

  const EmptySnapshot := Snapshot([], [], [], [], [])

  /** The name a column has at the remote end. */
  function RemoteColumnName(c: Column): string {
    if c.remoteName != "" then c.remoteName else c.name
  }
}
