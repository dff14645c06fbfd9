/** Export and import of one account's connections and flows. */
module Portability {
  import opened Text
  import opened Streams

  const FORMAT := "tmask-transporter-config"
  const VERSION := 1
  const KDF_ITERATIONS := 600000
  const CHECK_MARKER := "tmask-config-v1"

  /** The columns that travel, besides the name. */
  const SETTINGS: set<string> := {
    "host", "port", "username", "protocol", "compress", "encrypt",
    "strict_host_key_checking", "known_host_key", "dry_run_before_transfer", "verify_checksum"
  }

  datatype Value = Text(text: string) | Number(number: int) | Flag(flag: bool) | Null

  type Key = string
  type Token = string

  /** Key derivation and authenticated encryption. Each sealing draws a new nonce;
      `open` returns nothing for a token that the key did not seal. */
  datatype Cipher = Cipher(
    derive: (string, string, int) -> Key,
    seal: (Key, nat, string) -> Token,
    open: (Key, Token) -> Option<string>
  )

  ghost predicate Lossless(cipher: Cipher)
  {
    forall key, nonce, text :: cipher.open(key, cipher.seal(key, nonce, text)) == Some(text)
  }

  // ----------------------------------------------------------------- tables

  datatype Connection = Connection(
    id: nat, owner: int, name: string, settings: map<string, Value>,
    password: Option<string>, sshKey: Option<string>, passphrase: string,
    kind: string, dbName: string
  )

  datatype Flow = Flow(
    owner: int, name: string, source: nat, sourcePath: string,
    dest: nat, destPath: string, verifyChecksum: bool
  )

  /** Both tables in the order of creation. */
  datatype Tables = Tables(connections: seq<Connection>, flows: seq<Flow>, nextId: nat)

  predicate Complete(settings: map<string, Value>)
  {
    settings.Keys == SETTINGS && forall f | f in settings :: settings[f] != Null
  }

  predicate HasId(connections: seq<Connection>, id: nat)
  {
    exists i | 0 <= i < |connections| :: connections[i].id == id
  }

  /** What the database enforces: keys, and no NULL. */
  predicate Valid(t: Tables)
  {
    && (forall c | c in t.connections :: c.id < t.nextId && Complete(c.settings))
    && (forall i, j | 0 <= i < j < |t.connections| :: t.connections[i].id != t.connections[j].id)
    && (forall f | f in t.flows :: HasId(t.connections, f.source) && HasId(t.connections, f.dest))
  }

  /** One owner's connections, newest first. */
  function OwnConnections(connections: seq<Connection>, owner: int): (own: seq<Connection>)
    ensures forall c | c in own :: c in connections && c.owner == owner
    ensures forall c | c in connections && c.owner == owner :: c in own
  {
    if connections == [] then []
    else
      var last := connections[|connections| - 1];
      (if last.owner == owner then [last] else []) + OwnConnections(connections[..|connections| - 1], owner)
  }

  function OwnFlows(flows: seq<Flow>, owner: int): (own: seq<Flow>)
    ensures forall f | f in own :: f in flows && f.owner == owner
    ensures forall f | f in flows && f.owner == owner :: f in own
  {
    if flows == [] then []
    else
      var last := flows[|flows| - 1];
      (if last.owner == owner then [last] else []) + OwnFlows(flows[..|flows| - 1], owner)
  }

  function ConnectionNames(connections: seq<Connection>, owner: int): set<string>
  {
    set c | c in connections && c.owner == owner :: c.name
  }

  function FlowNames(flows: seq<Flow>, owner: int): set<string>
  {
    set f | f in flows && f.owner == owner :: f.name
  }

  function NameOf(connections: seq<Connection>, id: nat): string
    requires HasId(connections, id)
  {
    var last := connections[|connections| - 1];
    if last.id == id then last.name else NameOf(connections[..|connections| - 1], id)
  }

  // ------------------------------------------------------------------- file

  /** A key of a JSON object that the import reads with square brackets. */
  datatype Cell<T> = Missing | NullCell | Given(value: T)

  datatype ConnectionRow = ConnectionRow(
    name: Cell<string>, settings: map<string, Value>,
    passwordEnc: Option<Token>, sshKeyEnc: Option<Token>, passphraseEnc: Option<Token>
  )

  datatype FlowRow = FlowRow(
    name: Cell<string>, sourceConn: Cell<string>, sourcePath: Cell<string>,
    destConn: Cell<string>, destPath: Cell<string>, verifyChecksum: Cell<bool>
  )

  datatype File = File(
    format: string, version: int, salt: string, iterations: int, check: Token,
    connections: seq<ConnectionRow>, flows: seq<FlowRow>
  )

  // ----------------------------------------------------------------- export

  function EncryptSecret(cipher: Cipher, key: Key, nonce: nat, plain: string): Option<Token>
  {
    if plain == "" then None else Some(cipher.seal(key, nonce, plain))
  }

  /** A missing secret is not told apart from an empty one. */
  function Plain(secret: Option<string>): string
  {
    if secret.Some? then secret.value else ""
  }

  function ExportedConnection(cipher: Cipher, key: Key, nonce: nat, c: Connection): ConnectionRow
  {
    ConnectionRow(Given(c.name), c.settings,
                  EncryptSecret(cipher, key, nonce, Plain(c.password)),
                  EncryptSecret(cipher, key, nonce + 1, Plain(c.sshKey)),
                  EncryptSecret(cipher, key, nonce + 2, c.passphrase))
  }

  function ExportedFlow(t: Tables, f: Flow): FlowRow
    requires HasId(t.connections, f.source) && HasId(t.connections, f.dest)
  {
    FlowRow(Given(f.name), Given(NameOf(t.connections, f.source)), Given(f.sourcePath),
            Given(NameOf(t.connections, f.dest)), Given(f.destPath), Given(f.verifyChecksum))
  }

  function ExportedConnections(cipher: Cipher, key: Key, own: seq<Connection>): (rows: seq<ConnectionRow>)
    ensures |rows| == |own|
    ensures forall k | 0 <= k < |own| :: rows[k] == ExportedConnection(cipher, key, 3 * k, own[k])
  {
    seq(|own|, k requires 0 <= k < |own| => ExportedConnection(cipher, key, 3 * k, own[k]))
  }

  function ExportedFlows(t: Tables, own: seq<Flow>): (rows: seq<FlowRow>)
    requires forall f | f in own :: HasId(t.connections, f.source) && HasId(t.connections, f.dest)
    ensures |rows| == |own|
    ensures forall k | 0 <= k < |own| :: rows[k] == ExportedFlow(t, own[k])
  {
    seq(|own|, k requires 0 <= k < |own| => ExportedFlow(t, own[k]))
  }

  /** The file that the account `owner` exports. */
  function Exported(cipher: Cipher, t: Tables, owner: int, passphrase: string, salt: string): File
    requires Valid(t)
  {
    var key := cipher.derive(passphrase, salt, KDF_ITERATIONS);
    var own := OwnConnections(t.connections, owner);
    File(FORMAT, VERSION, salt, KDF_ITERATIONS, cipher.seal(key, 3 * |own|, CHECK_MARKER),
         ExportedConnections(cipher, key, own), ExportedFlows(t, OwnFlows(t.flows, owner)))
  }

  // ----------------------------------------------------------------- import

  datatype Error = BadFormat | BadPassphrase | Refused

  datatype Counts = Counts(added: nat, skipped: nat, unresolved: nat)

  /** A row-by-row import: what is stored, which names are taken, the counts. */
  datatype Progress =
    | Going(tables: Tables, taken: set<string>, counts: Counts)
    | Failed(error: Error)

  const NOTHING := Counts(0, 0, 0)

  function Opened(cipher: Cipher, key: Key, token: Option<Token>): (r: Option<Option<string>>)
  {
    if token == None then Some(None)
    else
      var plain := cipher.open(key, token.value);
      if plain == None then None else Some(plain)
  }

  /** A missing column reads as NULL. */
  function Filled(settings: map<string, Value>): map<string, Value>
  {
    map f | f in SETTINGS :: if f in settings then settings[f] else Null
  }

  /** The connection that a row describes, or why there is none. */
  function ReadConnection(cipher: Cipher, key: Key, id: nat, owner: int, row: ConnectionRow): Result<Connection>
  {
    var password := Opened(cipher, key, row.passwordEnc);
    var sshKey := Opened(cipher, key, row.sshKeyEnc);
    var passphrase := Opened(cipher, key, row.passphraseEnc);
    if password == None || sshKey == None || passphrase == None then Err(BadPassphrase)
    else if !row.name.Given? || !Complete(Filled(row.settings)) then Err(Refused)
    else Ok(Connection(id, owner, row.name.value, Filled(row.settings),
                       password.value, sshKey.value, Plain(passphrase.value), "ssh", ""))
  }

  datatype Result<T> = Ok(value: T) | Err(error: Error)

  function ConnectionStep(cipher: Cipher, key: Key, owner: int, p: Progress, row: ConnectionRow): Progress
  {
    if p.Failed? then p
    else if row.name.Missing? then Failed(Refused)
    else if row.name.Given? && row.name.value in p.taken then
      p.(counts := p.counts.(skipped := p.counts.skipped + 1))
    else
      match ReadConnection(cipher, key, p.tables.nextId, owner, row)
      case Err(error) => Failed(error)
      case Ok(c) =>
        Going(p.tables.(connections := p.tables.connections + [c], nextId := p.tables.nextId + 1),
              p.taken + {c.name}, p.counts.(added := p.counts.added + 1))
  }

  function ConnectionStepOf(cipher: Cipher, key: Key, owner: int): (Progress, ConnectionRow) -> Progress
  {
    (p, row) => ConnectionStep(cipher, key, owner, p, row)
  }

  function ImportedConnections(cipher: Cipher, key: Key, owner: int, t: Tables, rows: seq<ConnectionRow>): Progress
  {
    Fold(ConnectionStepOf(cipher, key, owner), Going(t, ConnectionNames(t.connections, owner), NOTHING), rows)
  }

  /** Name to id, as a dictionary filled in the order of the list. */
  function ConnectionMap(own: seq<Connection>): map<string, nat>
  {
    if own == [] then map[]
    else ConnectionMap(own[..|own| - 1])[own[|own| - 1].name := own[|own| - 1].id]
  }

  function Resolve(ids: map<string, nat>, name: Cell<string>): Option<nat>
  {
    if name.Given? && name.value in ids then Some(ids[name.value]) else None
  }

  function ReadFlow(owner: int, row: FlowRow, source: nat, dest: nat): Result<Flow>
  {
    if row.name.Given? && row.sourcePath.Given? && row.destPath.Given? && !row.verifyChecksum.NullCell? then
      Ok(Flow(owner, row.name.value, source, row.sourcePath.value, dest, row.destPath.value,
              row.verifyChecksum.Given? && row.verifyChecksum.value))
    else Err(Refused)
  }

  function FlowStep(owner: int, ids: map<string, nat>, p: Progress, row: FlowRow): Progress
  {
    if p.Failed? then p
    else if row.name.Missing? then Failed(Refused)
    else if row.name.Given? && row.name.value in p.taken then
      p.(counts := p.counts.(skipped := p.counts.skipped + 1))
    else if row.sourceConn.Missing? || row.destConn.Missing? then Failed(Refused)
    else
      var source, dest := Resolve(ids, row.sourceConn), Resolve(ids, row.destConn);
      if source == None || dest == None then
        p.(counts := p.counts.(unresolved := p.counts.unresolved + 1))
      else
        match ReadFlow(owner, row, source.value, dest.value)
        case Err(error) => Failed(error)
        case Ok(f) =>
          Going(p.tables.(flows := p.tables.flows + [f]), p.taken + {f.name},
                p.counts.(added := p.counts.added + 1))
  }

  function FlowStepOf(owner: int, ids: map<string, nat>): (Progress, FlowRow) -> Progress
  {
    (p, row) => FlowStep(owner, ids, p, row)
  }

  function ImportedFlows(owner: int, ids: map<string, nat>, t: Tables, rows: seq<FlowRow>): Progress
  {
    Fold(FlowStepOf(owner, ids), Going(t, FlowNames(t.flows, owner), NOTHING), rows)
  }

  datatype Report = Report(tables: Tables, connections: Counts, flows: Counts)

  /** The whole import into the account `owner`. */
  function Imported(cipher: Cipher, t: Tables, owner: int, file: File, passphrase: string): Result<Report>
  {
    if file.format != FORMAT || file.version != VERSION then Err(BadFormat)
    else
      var key := cipher.derive(passphrase, file.salt, file.iterations);
      if cipher.open(key, file.check) == None then Err(BadPassphrase)
      else
        match ImportedConnections(cipher, key, owner, t, file.connections)
        case Failed(error) => Err(error)
        case Going(t', _, connections) =>
          var ids := ConnectionMap(OwnConnections(t'.connections, owner));
          match ImportedFlows(owner, ids, t', file.flows)
          case Failed(error) => Err(error)
          case Going(t'', _, flows) => Ok(Report(t'', connections, flows))
  }

  // ------------------------------------------------------------ the database

  class Database {
    var tables: Tables

    constructor (tables: Tables)
      ensures this.tables == tables
    {
      this.tables := tables;
    }

    /** Reads only. */
    method ExportConfig(cipher: Cipher, owner: int, passphrase: string, salt: string) returns (file: File)
      requires Valid(tables)
      ensures file == Exported(cipher, tables, owner, passphrase, salt)
    {
      hide FORMAT, VERSION, CHECK_MARKER, ExportedConnection, ExportedFlow, HasId;
      var key := cipher.derive(passphrase, salt, KDF_ITERATIONS);
      var own := OwnConnections(tables.connections, owner);
      var connections: seq<ConnectionRow> := [];
      var nonce := 0;
      for k := 0 to |own|
        invariant nonce == 3 * k
        invariant |connections| == k
        invariant forall j | 0 <= j < k :: connections[j] == ExportedConnection(cipher, key, 3 * j, own[j])
      {
        connections := connections + [ExportedConnection(cipher, key, nonce, own[k])];
        nonce := nonce + 3;
      }
      var ownFlows := OwnFlows(tables.flows, owner);
      var flows: seq<FlowRow> := [];
      for k := 0 to |ownFlows|
        invariant |flows| == k
        invariant forall j | 0 <= j < k :: flows[j] == ExportedFlow(tables, ownFlows[j])
      {
        assert ownFlows[k] in ownFlows;
        flows := flows + [ExportedFlow(tables, ownFlows[k])];
      }
      file := File(FORMAT, VERSION, salt, KDF_ITERATIONS, cipher.seal(key, nonce, CHECK_MARKER), connections, flows);
    }

    method ImportConnections(cipher: Cipher, key: Key, owner: int, rows: seq<ConnectionRow>)
      returns (r: Result<Counts>)
      modifies this
      ensures var p := ImportedConnections(cipher, key, owner, old(tables), rows);
              if p.Failed? then r == Err(p.error) else r == Ok(p.counts) && tables == p.tables
    {
      var existing := ConnectionNames(tables.connections, owner);
      var added, skipped := 0, 0;
      ghost var step := ConnectionStepOf(cipher, key, owner);
      ghost var init := Going(tables, existing, NOTHING);
      for i := 0 to |rows|
        invariant Fold(step, init, rows[..i]) == Going(tables, existing, Counts(added, skipped, 0))
      {
        assert rows[..i + 1] == rows[..i] + [rows[i]];
        FoldSnoc(step, init, rows[..i], rows[i]);
        var row := rows[i];
        if row.name.Missing? {
          assert rows == rows[..i + 1] + rows[i + 1..];
          FoldStops(step, init, rows[..i + 1], rows[i + 1..]);
          return Err(Refused);
        }
        if row.name.Given? && row.name.value in existing {
          skipped := skipped + 1;
          continue;
        }
        var conn := ReadConnection(cipher, key, tables.nextId, owner, row);
        if conn.Err? {
          assert rows == rows[..i + 1] + rows[i + 1..];
          FoldStops(step, init, rows[..i + 1], rows[i + 1..]);
          return Err(conn.error);
        }
        tables := tables.(connections := tables.connections + [conn.value], nextId := tables.nextId + 1);
        existing := existing + {conn.value.name};
        added := added + 1;
      }
      assert rows[..|rows|] == rows;
      r := Ok(Counts(added, skipped, 0));
    }

    method ImportFlows(owner: int, ids: map<string, nat>, rows: seq<FlowRow>) returns (r: Result<Counts>)
      modifies this
      ensures var p := ImportedFlows(owner, ids, old(tables), rows);
              if p.Failed? then r == Err(p.error) else r == Ok(p.counts) && tables == p.tables
    {
      var existing := FlowNames(tables.flows, owner);
      var added, skipped, unresolved := 0, 0, 0;
      ghost var step := FlowStepOf(owner, ids);
      ghost var init := Going(tables, existing, NOTHING);
      for i := 0 to |rows|
        invariant Fold(step, init, rows[..i]) == Going(tables, existing, Counts(added, skipped, unresolved))
      {
        assert rows[..i + 1] == rows[..i] + [rows[i]];
        FoldSnoc(step, init, rows[..i], rows[i]);
        var row := rows[i];
        if row.name.Missing? {
          assert rows == rows[..i + 1] + rows[i + 1..];
          FoldStops(step, init, rows[..i + 1], rows[i + 1..]);
          return Err(Refused);
        }
        if row.name.Given? && row.name.value in existing {
          skipped := skipped + 1;
          continue;
        }
        if row.sourceConn.Missing? || row.destConn.Missing? {
          assert rows == rows[..i + 1] + rows[i + 1..];
          FoldStops(step, init, rows[..i + 1], rows[i + 1..]);
          return Err(Refused);
        }
        var source, dest := Resolve(ids, row.sourceConn), Resolve(ids, row.destConn);
        if source == None || dest == None {
          unresolved := unresolved + 1;
          continue;
        }
        var flow := ReadFlow(owner, row, source.value, dest.value);
        if flow.Err? {
          assert rows == rows[..i + 1] + rows[i + 1..];
          FoldStops(step, init, rows[..i + 1], rows[i + 1..]);
          return Err(flow.error);
        }
        tables := tables.(flows := tables.flows + [flow.value]);
        existing := existing + {flow.value.name};
        added := added + 1;
      }
      assert rows[..|rows|] == rows;
      r := Ok(Counts(added, skipped, unresolved));
    }

    /** All or nothing: an error leaves both tables as they were. */
    method ImportConfig(cipher: Cipher, owner: int, file: File, passphrase: string)
      returns (r: Result<(Counts, Counts)>)
      modifies this
      ensures match Imported(cipher, old(tables), owner, file, passphrase)
              case Err(error) => r == Err(error) && tables == old(tables)
              case Ok(report) => r == Ok((report.connections, report.flows)) && tables == report.tables
    {
      if file.format != FORMAT || file.version != VERSION { return Err(BadFormat); }
      var key := cipher.derive(passphrase, file.salt, file.iterations);
      if cipher.open(key, file.check) == None { return Err(BadPassphrase); }
      var savepoint := tables;
      var connections := ImportConnections(cipher, key, owner, file.connections);
      if connections.Err? {
        tables := savepoint;
        return Err(connections.error);
      }
      var ids := ConnectionMap(OwnConnections(tables.connections, owner));
      var flows := ImportFlows(owner, ids, file.flows);
      if flows.Err? {
        tables := savepoint;
        return Err(flows.error);
      }
      r := Ok((connections.value, flows.value));
    }
  }
}
