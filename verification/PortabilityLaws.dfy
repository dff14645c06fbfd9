/** What an import keeps, and what an export followed by an import restores. */
module PortabilityLaws {
  import opened Text
  import opened Streams
  import opened Portability

  predicate UniqueConnectionNames(connections: seq<Connection>, owner: int)
  {
    forall i, j | 0 <= i < j < |connections| && connections[i].owner == owner && connections[j].owner == owner ::
      connections[i].name != connections[j].name
  }

  predicate UniqueFlowNames(flows: seq<Flow>, owner: int)
  {
    forall i, j | 0 <= i < j < |flows| && flows[i].owner == owner && flows[j].owner == owner ::
      flows[i].name != flows[j].name
  }

  // ------------------------------------------------------- what an import keeps

  /** `now` continues `before` with items of `owner`, and each name it adds is new. */
  ghost predicate Extends(before: Tables, now: Tables, owner: int)
  {
    && before.connections <= now.connections && before.flows <= now.flows
    && (forall i | |before.connections| <= i < |now.connections| :: now.connections[i].owner == owner)
    && (forall i | |before.flows| <= i < |now.flows| :: now.flows[i].owner == owner)
    && (Valid(before) ==> Valid(now))
    && (forall o | UniqueConnectionNames(before.connections, o) :: UniqueConnectionNames(now.connections, o))
    && (forall o | UniqueFlowNames(before.flows, o) :: UniqueFlowNames(now.flows, o))
  }

  /** The counts of a connection import are those of the rows and of the table. */
  predicate ConnectionsBalance(before: Tables, p: Progress, owner: int, rows: seq<ConnectionRow>)
    requires p.Going?
  {
    && p.counts.added + p.counts.skipped == |rows| && p.counts.unresolved == 0
    && |p.tables.connections| == |before.connections| + p.counts.added
    && p.tables.flows == before.flows
    && p.taken == ConnectionNames(p.tables.connections, owner)
    && forall row | row in rows :: row.name.Given? && row.name.value in p.taken
  }

  lemma AppendConnection(t: Tables, c: Connection)
    requires c.id == t.nextId && c.name !in ConnectionNames(t.connections, c.owner) && Complete(c.settings)
    ensures var next := t.(connections := t.connections + [c], nextId := t.nextId + 1);
            && ConnectionNames(next.connections, c.owner) == ConnectionNames(t.connections, c.owner) + {c.name}
            && Extends(t, next, c.owner)
  {
    hide Valid, Complete;
    if Valid(t) { AppendKeepsValid(t, c); }
    forall i | 0 <= i < |t.connections| && t.connections[i].owner == c.owner
      ensures t.connections[i].name != c.name
    {
      assert t.connections[i] in t.connections;
      assert t.connections[i].name in ConnectionNames(t.connections, c.owner);
    }
  }

  lemma AppendKeepsValid(t: Tables, c: Connection)
    requires Valid(t) && c.id == t.nextId && Complete(c.settings)
    ensures Valid(t.(connections := t.connections + [c], nextId := t.nextId + 1))
  {
    hide Complete;
    var next := t.(connections := t.connections + [c], nextId := t.nextId + 1);
    forall id: nat | HasId(t.connections, id) ensures HasId(next.connections, id) {
      var i :| 0 <= i < |t.connections| && t.connections[i].id == id;
      assert next.connections[i].id == id;
    }
  }

  lemma ExtendsOn(a: Tables, b: Tables, c: Tables, owner: int)
    requires Extends(a, b, owner) && Extends(b, c, owner)
    ensures Extends(a, c, owner)
  {
    hide Valid, UniqueConnectionNames, UniqueFlowNames;
  }

  lemma ExtendsItself(t: Tables, owner: int)
    ensures Extends(t, t, owner)
  {
  }

  lemma ConnectionStepKeeps(cipher: Cipher, key: Key, owner: int, t: Tables, p: Progress,
                            rows: seq<ConnectionRow>, row: ConnectionRow)
    requires p.Going? && Extends(t, p.tables, owner) && ConnectionsBalance(t, p, owner, rows)
    ensures var next := ConnectionStep(cipher, key, owner, p, row);
            next.Going? ==> Extends(t, next.tables, owner) && ConnectionsBalance(t, next, owner, rows + [row])
  {
    hide Extends;
    var next := ConnectionStep(cipher, key, owner, p, row);
    if next.Going? && !(row.name.Given? && row.name.value in p.taken) {
      var c := ReadConnection(cipher, key, p.tables.nextId, owner, row).value;
      AppendConnection(p.tables, c);
      ExtendsOn(t, p.tables, next.tables, owner);
    }
  }

  lemma {:induction false} ConnectionsAccounted(cipher: Cipher, key: Key, owner: int, t: Tables, rows: seq<ConnectionRow>)
    ensures var p := ImportedConnections(cipher, key, owner, t, rows);
            p.Going? ==> Extends(t, p.tables, owner) && ConnectionsBalance(t, p, owner, rows)
  {
    if rows == [] {
      ExtendsItself(t, owner);
    } else {
      hide Extends, ConnectionsBalance;
      var front, last := rows[..|rows| - 1], rows[|rows| - 1];
      ConnectionsAccounted(cipher, key, owner, t, front);
      var p := ImportedConnections(cipher, key, owner, t, front);
      assert rows == front + [last];
      if p.Going? { ConnectionStepKeeps(cipher, key, owner, t, p, front, last); }
    }
  }

  /** The same for flows; a row may also be unresolved. */
  predicate FlowsBalance(before: Tables, p: Progress, owner: int, ids: map<string, nat>, rows: seq<FlowRow>)
    requires p.Going?
  {
    && p.counts.added + p.counts.skipped + p.counts.unresolved == |rows|
    && |p.tables.flows| == |before.flows| + p.counts.added
    && p.tables.connections == before.connections && p.tables.nextId == before.nextId
    && p.taken == FlowNames(p.tables.flows, owner)
    && forall row | row in rows :: Disposed(ids, p.taken, row)
  }

  /** A row that adds nothing: its name is taken, or an end is unknown. */
  predicate Disposed(ids: map<string, nat>, taken: set<string>, row: FlowRow)
  {
    && !row.name.Missing?
    && ((row.name.Given? && row.name.value in taken)
       || (!row.sourceConn.Missing? && !row.destConn.Missing?
          && (Resolve(ids, row.sourceConn) == None || Resolve(ids, row.destConn) == None)))
  }

  predicate Known(t: Tables, ids: map<string, nat>)
  {
    forall name | name in ids :: HasId(t.connections, ids[name])
  }

  lemma AppendFlow(t: Tables, f: Flow)
    requires f.name !in FlowNames(t.flows, f.owner)
    requires HasId(t.connections, f.source) && HasId(t.connections, f.dest)
    ensures var next := t.(flows := t.flows + [f]);
            && FlowNames(next.flows, f.owner) == FlowNames(t.flows, f.owner) + {f.name}
            && Extends(t, next, f.owner)
  {
    hide HasId;
    forall i | 0 <= i < |t.flows| && t.flows[i].owner == f.owner
      ensures t.flows[i].name != f.name
    {
      assert t.flows[i] in t.flows;
      assert t.flows[i].name in FlowNames(t.flows, f.owner);
    }
  }

  lemma FlowStepKeeps(owner: int, ids: map<string, nat>, t: Tables, p: Progress, rows: seq<FlowRow>, row: FlowRow)
    requires p.Going? && Extends(t, p.tables, owner) && FlowsBalance(t, p, owner, ids, rows) && Known(t, ids)
    ensures var next := FlowStep(owner, ids, p, row);
            next.Going? ==> Extends(t, next.tables, owner) && FlowsBalance(t, next, owner, ids, rows + [row])
  {
    hide Extends, HasId;
    var next := FlowStep(owner, ids, p, row);
    if next.Going? && next.tables != p.tables {
      var source, dest := Resolve(ids, row.sourceConn).value, Resolve(ids, row.destConn).value;
      AppendFlow(p.tables, ReadFlow(owner, row, source, dest).value);
      ExtendsOn(t, p.tables, next.tables, owner);
    }
  }

  lemma {:induction false} FlowsAccounted(owner: int, ids: map<string, nat>, t: Tables, rows: seq<FlowRow>)
    requires Known(t, ids)
    ensures var p := ImportedFlows(owner, ids, t, rows);
            p.Going? ==> Extends(t, p.tables, owner) && FlowsBalance(t, p, owner, ids, rows)
  {
    if rows == [] {
      ExtendsItself(t, owner);
    } else {
      hide Extends, FlowsBalance, Known;
      var front, last := rows[..|rows| - 1], rows[|rows| - 1];
      FlowsAccounted(owner, ids, t, front);
      var p := ImportedFlows(owner, ids, t, front);
      assert rows == front + [last];
      if p.Going? { FlowStepKeeps(owner, ids, t, p, front, last); }
    }
  }

  lemma {:induction false} MapIsKnown(own: seq<Connection>)
    ensures ConnectionMap(own).Keys == set c | c in own :: c.name
    ensures forall name | name in ConnectionMap(own) ::
              exists c | c in own :: c.name == name && c.id == ConnectionMap(own)[name]
  {
    if own != [] {
      var front, last := own[..|own| - 1], own[|own| - 1];
      MapIsKnown(front);
      assert own == front + [last];
    }
  }

  function Ids(t: Tables, owner: int): map<string, nat>
  {
    ConnectionMap(OwnConnections(t.connections, owner))
  }

  lemma OwnIdsAreKnown(t: Tables, owner: int)
    ensures Known(t, Ids(t, owner))
    ensures Ids(t, owner).Keys == ConnectionNames(t.connections, owner)
  {
    var own := OwnConnections(t.connections, owner);
    MapIsKnown(own);
    forall name | name in ConnectionMap(own) ensures HasId(t.connections, ConnectionMap(own)[name]) {
      var c :| c in own && c.name == name && c.id == ConnectionMap(own)[name];
      var i :| 0 <= i < |t.connections| && t.connections[i] == c;
      assert t.connections[i].id == c.id;
    }
  }

  /** Every import that succeeds leaves existing connections and flows alone, adds
      only items of the importer, keeps names unique wherever they were, and
      accounts for every row of the file. */
  lemma ImportKeepsAndBalances(cipher: Cipher, t: Tables, owner: int, file: File, passphrase: string)
    ensures var r := Imported(cipher, t, owner, file, passphrase);
            r.Ok? ==>
              && Extends(t, r.value.tables, owner)
              && r.value.connections.added + r.value.connections.skipped == |file.connections|
              && r.value.flows.added + r.value.flows.skipped + r.value.flows.unresolved == |file.flows|
              && |r.value.tables.connections| == |t.connections| + r.value.connections.added
              && |r.value.tables.flows| == |t.flows| + r.value.flows.added
  {
    hide Extends, FORMAT, Known, Valid;
    var key := cipher.derive(passphrase, file.salt, file.iterations);
    ConnectionsAccounted(cipher, key, owner, t, file.connections);
    var p := ImportedConnections(cipher, key, owner, t, file.connections);
    if p.Going? {
      OwnIdsAreKnown(p.tables, owner);
      FlowsAccounted(owner, Ids(p.tables, owner), p.tables, file.flows);
      var q := ImportedFlows(owner, Ids(p.tables, owner), p.tables, file.flows);
      if q.Going? { ExtendsOn(t, p.tables, q.tables, owner); }
    }
  }

  // ----------------------------------------------------------- second import

  lemma {:induction false} TakenConnectionsAreSkipped(cipher: Cipher, key: Key, owner: int, t: Tables, rows: seq<ConnectionRow>)
    requires forall row | row in rows :: row.name.Given? && row.name.value in ConnectionNames(t.connections, owner)
    ensures ImportedConnections(cipher, key, owner, t, rows)
         == Going(t, ConnectionNames(t.connections, owner), Counts(0, |rows|, 0))
  {
    if rows != [] {
      assert rows[|rows| - 1] in rows;
      TakenConnectionsAreSkipped(cipher, key, owner, t, rows[..|rows| - 1]);
    }
  }

  lemma {:induction false} DisposedFlowsAddNothing(owner: int, ids: map<string, nat>, t: Tables, rows: seq<FlowRow>)
    requires forall row | row in rows :: Disposed(ids, FlowNames(t.flows, owner), row)
    ensures var p := ImportedFlows(owner, ids, t, rows);
            && p.Going? && p.tables == t && p.taken == FlowNames(t.flows, owner)
            && p.counts.added == 0 && p.counts.skipped + p.counts.unresolved == |rows|
  {
    if rows != [] {
      assert rows[|rows| - 1] in rows;
      DisposedFlowsAddNothing(owner, ids, t, rows[..|rows| - 1]);
    }
  }

  /** A second import of the same file into the same account succeeds, changes
      nothing, and counts every connection as skipped. */
  lemma SecondImportAddsNothing(cipher: Cipher, t: Tables, owner: int, file: File, passphrase: string)
    ensures var first := Imported(cipher, t, owner, file, passphrase);
            first.Ok? ==>
              var second := Imported(cipher, first.value.tables, owner, file, passphrase);
              && second.Ok? && second.value.tables == first.value.tables
              && second.value.connections == Counts(0, |file.connections|, 0)
              && second.value.flows.added == 0
              && second.value.flows.skipped + second.value.flows.unresolved == |file.flows|
  {
    hide Extends, FORMAT, Known, Valid;
    var key := cipher.derive(passphrase, file.salt, file.iterations);
    ConnectionsAccounted(cipher, key, owner, t, file.connections);
    var p := ImportedConnections(cipher, key, owner, t, file.connections);
    if p.Going? {
      var ids := Ids(p.tables, owner);
      OwnIdsAreKnown(p.tables, owner);
      FlowsAccounted(owner, ids, p.tables, file.flows);
      var q := ImportedFlows(owner, ids, p.tables, file.flows);
      if q.Going? {
        TakenConnectionsAreSkipped(cipher, key, owner, q.tables, file.connections);
        DisposedFlowsAddNothing(owner, ids, q.tables, file.flows);
      }
    }
  }

  // --------------------------------------------------------------- round trip

  function Secret(plain: string): Option<string>
  {
    if plain == "" then None else Some(plain)
  }

  /** What becomes of a connection that goes through a file: a new id and owner, an
      empty secret becomes a missing one, and it is an SSH connection. */
  function RestoredConnection(c: Connection, id: nat, owner: int): Connection
  {
    Connection(id, owner, c.name, c.settings, Secret(Plain(c.password)), Secret(Plain(c.sshKey)),
               c.passphrase, "ssh", "")
  }

  function RestoredConnections(own: seq<Connection>, nextId: nat, owner: int): (restored: seq<Connection>)
    ensures |restored| == |own|
    ensures forall k | 0 <= k < |own| :: restored[k] == RestoredConnection(own[k], nextId + k, owner)
  {
    seq(|own|, k requires 0 <= k < |own| => RestoredConnection(own[k], nextId + k, owner))
  }

  predicate DistinctNames(own: seq<Connection>)
  {
    forall i, j | 0 <= i < j < |own| :: own[i].name != own[j].name
  }

  predicate DistinctFlowNames(own: seq<Flow>)
  {
    forall i, j | 0 <= i < j < |own| :: own[i].name != own[j].name
  }

  lemma SecretsSurvive(cipher: Cipher, key: Key, nonce: nat, plain: string)
    requires Lossless(cipher)
    ensures Opened(cipher, key, EncryptSecret(cipher, key, nonce, plain)) == Some(Secret(plain))
  {
  }

  /** The exported row of a connection holds its name and settings as they are, and each
      secret sealed in its own place, or nothing for one that is missing or empty. */
  lemma ExportHoldsTheSecrets(cipher: Cipher, key: Key, nonce: nat, c: Connection)
    requires Lossless(cipher)
    ensures var row := ExportedConnection(cipher, key, nonce, c);
            && row.name == Given(c.name) && row.settings == c.settings
            && (row.passwordEnc.Some? <==> c.password.Some? && c.password.value != "")
            && (row.passwordEnc.Some? ==> cipher.open(key, row.passwordEnc.value) == c.password)
            && (row.sshKeyEnc.Some? <==> c.sshKey.Some? && c.sshKey.value != "")
            && (row.sshKeyEnc.Some? ==> cipher.open(key, row.sshKeyEnc.value) == c.sshKey)
            && (row.passphraseEnc.Some? <==> c.passphrase != "")
            && (row.passphraseEnc.Some? ==> cipher.open(key, row.passphraseEnc.value) == Some(c.passphrase))
  {
    assert forall nonce, text :: cipher.open(key, cipher.seal(key, nonce, text)) == Some(text);
  }

  lemma RowReadsBack(cipher: Cipher, key: Key, nonce: nat, c: Connection, id: nat, owner: int)
    requires Lossless(cipher) && Complete(c.settings)
    ensures ReadConnection(cipher, key, id, owner, ExportedConnection(cipher, key, nonce, c))
         == Ok(RestoredConnection(c, id, owner))
  {
    hide SETTINGS;
    SecretsSurvive(cipher, key, nonce, Plain(c.password));
    SecretsSurvive(cipher, key, nonce + 1, Plain(c.sshKey));
    SecretsSurvive(cipher, key, nonce + 2, c.passphrase);
    assert Filled(c.settings) == c.settings;
  }

  function Names(own: seq<Connection>): set<string>
  {
    set c | c in own :: c.name
  }

  function WithConnection(p: Progress, c: Connection): Progress
    requires p.Going?
  {
    Going(p.tables.(connections := p.tables.connections + [c], nextId := p.tables.nextId + 1),
          p.taken + {c.name}, p.counts.(added := p.counts.added + 1))
  }

  lemma NewConnectionStep(cipher: Cipher, key: Key, owner: int, p: Progress, row: ConnectionRow, c: Connection)
    requires p.Going? && row.name == Given(c.name) && c.name !in p.taken
    requires ReadConnection(cipher, key, p.tables.nextId, owner, row) == Ok(c)
    ensures ConnectionStepOf(cipher, key, owner)(p, row) == WithConnection(p, c)
  {
    hide ReadConnection;
  }

  /** The import of what `own` exports, into a table without connections of `owner`. */
  function Restoring(own: seq<Connection>, t: Tables, owner: int): Progress
  {
    Going(Tables(t.connections + RestoredConnections(own, t.nextId, owner), t.flows, t.nextId + |own|),
          Names(own), Counts(|own|, 0, 0))
  }

  lemma RestoringOneMore(own: seq<Connection>, last: Connection, t: Tables, owner: int)
    ensures Restoring(own + [last], t, owner)
         == WithConnection(Restoring(own, t, owner), RestoredConnection(last, t.nextId + |own|, owner))
  {
    var c := RestoredConnection(last, t.nextId + |own|, owner);
    assert RestoredConnections(own + [last], t.nextId, owner) == RestoredConnections(own, t.nextId, owner) + [c];
    assert Names(own + [last]) == Names(own) + {c.name};
    assert t.connections + (RestoredConnections(own, t.nextId, owner) + [c])
        == t.connections + RestoredConnections(own, t.nextId, owner) + [c];
  }

  lemma OneMoreRow(cipher: Cipher, key: Key, own: seq<Connection>, last: Connection)
    ensures ExportedConnections(cipher, key, own + [last])
         == ExportedConnections(cipher, key, own) + [ExportedConnection(cipher, key, 3 * |own|, last)]
  {
    hide ExportedConnection;
  }

  lemma OneMoreComesBack(cipher: Cipher, key: Key, own: seq<Connection>, last: Connection, t: Tables, owner: int)
    requires Lossless(cipher) && Complete(last.settings) && last.name !in Names(own)
    requires ImportedConnections(cipher, key, owner, t, ExportedConnections(cipher, key, own))
          == Restoring(own, t, owner)
    ensures ImportedConnections(cipher, key, owner, t, ExportedConnections(cipher, key, own + [last]))
         == Restoring(own + [last], t, owner)
  {
    hide Restoring, RestoredConnection, ExportedConnection, ExportedConnections, ReadConnection, Names, Complete,
      Lossless, ConnectionNames, ConnectionStepOf, WithConnection;
    var id := t.nextId + |own|;
    var c := RestoredConnection(last, id, owner);
    var rows, row := ExportedConnections(cipher, key, own), ExportedConnection(cipher, key, 3 * |own|, last);
    OneMoreRow(cipher, key, own, last);
    RowReadsBack(cipher, key, 3 * |own|, last, id, owner);
    NamesAgree(cipher, key, 3 * |own|, last, id, owner, own, t);
    NewConnectionStep(cipher, key, owner, Restoring(own, t, owner), row, c);
    RestoringOneMore(own, last, t, owner);
    FoldSnoc(ConnectionStepOf(cipher, key, owner), Going(t, ConnectionNames(t.connections, owner), NOTHING), rows, row);
  }

  lemma NamesAgree(cipher: Cipher, key: Key, nonce: nat, c: Connection, id: nat, owner: int, own: seq<Connection>, t: Tables)
    ensures ExportedConnection(cipher, key, nonce, c).name == Given(RestoredConnection(c, id, owner).name)
    ensures RestoredConnection(c, id, owner).name == c.name
    ensures var p := Restoring(own, t, owner);
            p.Going? && p.taken == Names(own) && p.tables.nextId == t.nextId + |own|
  {
  }

  lemma {:induction false} ConnectionsComeBack(cipher: Cipher, key: Key, own: seq<Connection>, t: Tables, owner: int)
    requires Lossless(cipher) && DistinctNames(own) && forall c | c in own :: Complete(c.settings)
    requires ConnectionNames(t.connections, owner) == {}
    ensures ImportedConnections(cipher, key, owner, t, ExportedConnections(cipher, key, own))
         == Restoring(own, t, owner)
  {
    if own == [] {
      assert t.connections + RestoredConnections(own, t.nextId, owner) == t.connections;
    } else {
      var front, last := own[..|own| - 1], own[|own| - 1];
      assert last in own && own == front + [last];
      ConnectionsComeBack(cipher, key, front, t, owner);
      NewName(own);
      OneMoreComesBack(cipher, key, front, last, t, owner);
    }
  }

  lemma NewName(own: seq<Connection>)
    requires own != [] && DistinctNames(own)
    ensures own[|own| - 1].name !in Names(own[..|own| - 1])
  {
  }

  /** Both ends have names that the exporter's own connections bear. */
  predicate Portable(t: Tables, f: Flow, names: set<string>)
    requires HasId(t.connections, f.source) && HasId(t.connections, f.dest)
  {
    NameOf(t.connections, f.source) in names && NameOf(t.connections, f.dest) in names
  }

  function RestoredFlow(t: Tables, f: Flow, owner: int, ids: map<string, nat>): Flow
    requires HasId(t.connections, f.source) && HasId(t.connections, f.dest) && Portable(t, f, ids.Keys)
  {
    Flow(owner, f.name, ids[NameOf(t.connections, f.source)], f.sourcePath,
         ids[NameOf(t.connections, f.dest)], f.destPath, f.verifyChecksum)
  }

  /** The portable ones among these flows, bound to the importer's connections. */
  function RestoredFlows(t: Tables, own: seq<Flow>, owner: int, ids: map<string, nat>): (restored: seq<Flow>)
    requires forall f | f in own :: HasId(t.connections, f.source) && HasId(t.connections, f.dest)
    ensures |restored| <= |own|
  {
    if own == [] then []
    else
      var front, last := own[..|own| - 1], own[|own| - 1];
      assert last in own;
      RestoredFlows(t, front, owner, ids)
        + (if Portable(t, last, ids.Keys) then [RestoredFlow(t, last, owner, ids)] else [])
  }

  lemma FlowRowStep(t: Tables, f: Flow, owner: int, ids: map<string, nat>, p: Progress)
    requires HasId(t.connections, f.source) && HasId(t.connections, f.dest)
    requires p.Going? && f.name !in p.taken
    ensures FlowStepOf(owner, ids)(p, ExportedFlow(t, f))
         == if Portable(t, f, ids.Keys) then
              Going(p.tables.(flows := p.tables.flows + [RestoredFlow(t, f, owner, ids)]),
                    p.taken + {f.name}, p.counts.(added := p.counts.added + 1))
            else
              p.(counts := p.counts.(unresolved := p.counts.unresolved + 1))
  {
    hide HasId, NameOf;
  }

  ghost predicate FlowsRestored(t: Tables, own: seq<Flow>, u: Tables, owner: int, ids: map<string, nat>, p: Progress)
    requires forall f | f in own :: HasId(t.connections, f.source) && HasId(t.connections, f.dest)
  {
    && p.Going?
    && p.tables == u.(flows := u.flows + RestoredFlows(t, own, owner, ids))
    && (forall name | name in p.taken :: exists f | f in own :: f.name == name)
    && p.counts == Counts(|RestoredFlows(t, own, owner, ids)|, 0, |own| - |RestoredFlows(t, own, owner, ids)|)
  }

  lemma {:induction false} FlowsComeBack(t: Tables, own: seq<Flow>, u: Tables, owner: int, ids: map<string, nat>)
    requires forall f | f in own :: HasId(t.connections, f.source) && HasId(t.connections, f.dest)
    requires DistinctFlowNames(own) && FlowNames(u.flows, owner) == {}
    ensures FlowsRestored(t, own, u, owner, ids, ImportedFlows(owner, ids, u, ExportedFlows(t, own)))
  {
    if own == [] {
      assert u.flows + RestoredFlows(t, own, owner, ids) == u.flows;
    } else {
      var front, last := own[..|own| - 1], own[|own| - 1];
      assert last in own && own == front + [last];
      FlowsComeBack(t, front, u, owner, ids);
      OneMoreFlow(t, front, last, u, owner, ids);
    }
  }

  lemma OneMoreFlow(t: Tables, own: seq<Flow>, last: Flow, u: Tables, owner: int, ids: map<string, nat>)
    requires forall f | f in own + [last] :: HasId(t.connections, f.source) && HasId(t.connections, f.dest)
    requires forall f | f in own :: HasId(t.connections, f.source) && HasId(t.connections, f.dest)
    requires forall f | f in own :: f.name != last.name
    requires FlowsRestored(t, own, u, owner, ids, ImportedFlows(owner, ids, u, ExportedFlows(t, own)))
    ensures FlowsRestored(t, own + [last], u, owner, ids, ImportedFlows(owner, ids, u, ExportedFlows(t, own + [last])))
  {
    hide HasId, NameOf, ExportedFlow;
    var rows := ExportedFlows(t, own);
    assert last in own + [last];
    var row := ExportedFlow(t, last);
    assert ExportedFlows(t, own + [last]) == rows + [row];
    var p := ImportedFlows(owner, ids, u, rows);
    FoldSnoc(FlowStepOf(owner, ids), Going(u, FlowNames(u.flows, owner), NOTHING), rows, row);
    FlowRowStep(t, last, owner, ids, p);
    hide FlowStepOf;
    assert (own + [last])[..|own|] == own;
    assert forall f | f in own :: f in own + [last];
    var restored := RestoredFlows(t, own, owner, ids);
    if Portable(t, last, ids.Keys) {
      assert u.flows + (restored + [RestoredFlow(t, last, owner, ids)])
          == u.flows + restored + [RestoredFlow(t, last, owner, ids)];
    }
  }

  lemma {:induction false} UniqueNamesAreDistinct(connections: seq<Connection>, owner: int)
    requires UniqueConnectionNames(connections, owner)
    ensures DistinctNames(OwnConnections(connections, owner))
  {
    if connections != [] {
      UniqueNamesAreDistinct(connections[..|connections| - 1], owner);
    }
  }

  lemma {:induction false} UniqueFlowNamesAreDistinct(flows: seq<Flow>, owner: int)
    requires UniqueFlowNames(flows, owner)
    ensures DistinctFlowNames(OwnFlows(flows, owner))
  {
    if flows != [] {
      UniqueFlowNamesAreDistinct(flows[..|flows| - 1], owner);
    }
  }

  /** The importer's connections after the round trip. */
  function ConnectionsAfter(t: Tables, exporter: int, u: Tables, importer: int): seq<Connection>
  {
    u.connections + RestoredConnections(OwnConnections(t.connections, exporter), u.nextId, importer)
  }

  /** What the importer's tables should be after the round trip. */
  function After(t: Tables, exporter: int, u: Tables, importer: int): Tables
    requires Valid(t)
  {
    var connections := ConnectionsAfter(t, exporter, u, importer);
    var ids := ConnectionMap(OwnConnections(connections, importer));
    Tables(connections, u.flows + RestoredFlows(t, OwnFlows(t.flows, exporter), importer, ids),
           u.nextId + |OwnConnections(t.connections, exporter)|)
  }

  ghost predicate RoundTrips(cipher: Cipher, t: Tables, exporter: int, u: Tables, importer: int)
  {
    && Lossless(cipher) && Valid(t)
    && UniqueConnectionNames(t.connections, exporter) && UniqueFlowNames(t.flows, exporter)
    && ConnectionNames(u.connections, importer) == {} && FlowNames(u.flows, importer) == {}
  }

  /** An export, imported with the same passphrase into an account that has nothing
      yet, succeeds. It restores every connection of the exporter and every portable
      flow, in the file's order and after what the database already holds, and
      counts the other flows as unresolved. */
  lemma ExportThenImport(cipher: Cipher, t: Tables, exporter: int, u: Tables, importer: int,
                         passphrase: string, salt: string)
    requires RoundTrips(cipher, t, exporter, u, importer)
    ensures var own, flows := OwnConnections(t.connections, exporter), OwnFlows(t.flows, exporter);
            var added := |After(t, exporter, u, importer).flows| - |u.flows|;
            && added <= |flows|
            && Imported(cipher, u, importer, Exported(cipher, t, exporter, passphrase, salt), passphrase)
               == Ok(Report(After(t, exporter, u, importer), Counts(|own|, 0, 0), Counts(added, 0, |flows| - added)))
  {
    var own := OwnConnections(t.connections, exporter);
    var key := cipher.derive(passphrase, salt, KDF_ITERATIONS);
    var file := Exported(cipher, t, exporter, passphrase, salt);
    ExportedFileOpens(cipher, t, exporter, passphrase, salt);
    OwnConnectionsComeBack(cipher, key, t, exporter, u, importer);
    FlowsComeBackToo(t, exporter, u, importer);
    var p := Restoring(own, u, importer);
    hide *;
    ImportSucceeds(cipher, u, importer, file, passphrase, p,
                   ImportedFlows(importer, Ids(p.tables, importer), p.tables, file.flows));
  }

  lemma OwnConnectionsComeBack(cipher: Cipher, key: Key, t: Tables, exporter: int, u: Tables, importer: int)
    requires RoundTrips(cipher, t, exporter, u, importer)
    ensures var own := OwnConnections(t.connections, exporter);
            ImportedConnections(cipher, key, importer, u, ExportedConnections(cipher, key, own))
            == Restoring(own, u, importer)
  {
    hide Complete, HasId, DistinctNames, ImportedConnections, Restoring, ExportedConnections, Lossless;
    UniqueNamesAreDistinct(t.connections, exporter);
    StoredRowsAreGood(t, exporter);
    ConnectionsComeBack(cipher, key, OwnConnections(t.connections, exporter), u, importer);
  }

  lemma FlowsComeBackToo(t: Tables, exporter: int, u: Tables, importer: int)
    requires Valid(t) && UniqueFlowNames(t.flows, exporter) && FlowNames(u.flows, importer) == {}
    ensures var flows := OwnFlows(t.flows, exporter);
            var u' := Restoring(OwnConnections(t.connections, exporter), u, importer).tables;
            var q := ImportedFlows(importer, Ids(u', importer), u', ExportedFlows(t, flows));
            var added := |After(t, exporter, u, importer).flows| - |u.flows|;
            && 0 <= added <= |flows|
            && q.Going? && q.tables == After(t, exporter, u, importer) && q.counts == Counts(added, 0, |flows| - added)
  {
    hide Complete, HasId, DistinctFlowNames, ImportedFlows, ExportedFlows, ConnectionMap;
    UniqueFlowNamesAreDistinct(t.flows, exporter);
    var u' := Restoring(OwnConnections(t.connections, exporter), u, importer).tables;
    FlowsComeBack(t, OwnFlows(t.flows, exporter), u', importer, Ids(u', importer));
  }

  lemma StoredRowsAreGood(t: Tables, owner: int)
    requires Valid(t)
    ensures forall c | c in OwnConnections(t.connections, owner) :: Complete(c.settings)
    ensures forall f | f in OwnFlows(t.flows, owner) :: HasId(t.connections, f.source) && HasId(t.connections, f.dest)
  {
    hide Complete, HasId;
  }

  lemma ExportedFileOpens(cipher: Cipher, t: Tables, owner: int, passphrase: string, salt: string)
    requires Valid(t) && Lossless(cipher)
    ensures var file := Exported(cipher, t, owner, passphrase, salt);
            var key := cipher.derive(passphrase, salt, KDF_ITERATIONS);
            && file.format == FORMAT && file.version == VERSION
            && file.salt == salt && file.iterations == KDF_ITERATIONS
            && cipher.open(key, file.check).Some?
            && file.connections == ExportedConnections(cipher, key, OwnConnections(t.connections, owner))
            && file.flows == ExportedFlows(t, OwnFlows(t.flows, owner))
  {
    hide FORMAT, CHECK_MARKER;
  }

  lemma ImportSucceeds(cipher: Cipher, t: Tables, owner: int, file: File, passphrase: string, p: Progress, q: Progress)
    requires file.format == FORMAT && file.version == VERSION
    requires var key := cipher.derive(passphrase, file.salt, file.iterations);
             cipher.open(key, file.check).Some? && p == ImportedConnections(cipher, key, owner, t, file.connections)
    requires p.Going? && q.Going? && q == ImportedFlows(owner, Ids(p.tables, owner), p.tables, file.flows)
    ensures Imported(cipher, t, owner, file, passphrase) == Ok(Report(q.tables, p.counts, q.counts))
  {
    hide FORMAT, ImportedConnections, ImportedFlows;
  }

  // ------------------------------------------ what the restored tables look like

  /** `c'` is what a connection becomes: the new owner's, with its name, settings and
      secrets, an empty password or key counting as none; and an SSH connection. */
  predicate Restores(c: Connection, c': Connection, owner: int)
  {
    && c'.owner == owner && c'.name == c.name && c'.settings == c.settings && c'.passphrase == c.passphrase
    && c'.password == (if c.password == Some("") then None else c.password)
    && c'.sshKey == (if c.sshKey == Some("") then None else c.sshKey)
    && c'.kind == "ssh" && c'.dbName == ""
  }

  /** After the round trip there is exactly one connection of the importer for each
      connection of the exporter, with its name, settings and secrets. */
  lemma ConnectionsAreRestored(t: Tables, exporter: int, u: Tables, importer: int)
    requires Valid(t) && ConnectionNames(u.connections, importer) == {}
    requires UniqueConnectionNames(t.connections, exporter)
    ensures var after := ConnectionsAfter(t, exporter, u, importer);
            && UniqueConnectionNames(after, importer)
            && ConnectionNames(after, importer) == ConnectionNames(t.connections, exporter)
            && (forall c | c in t.connections && c.owner == exporter :: exists c' | c' in after :: Restores(c, c', importer))
            && (forall c' | c' in after && c'.owner == importer ::
                 exists c | c in t.connections :: c.owner == exporter && Restores(c, c', importer))
  {
    hide Valid;
    NobodysConnections(u, importer);
    OneForEach(t, exporter, u, importer);
    NoOthers(t, exporter, u, importer);
    NoTwoAlike(t, exporter, u, importer);
  }

  lemma NobodysConnections(u: Tables, importer: int)
    requires ConnectionNames(u.connections, importer) == {}
    ensures forall c | c in u.connections :: c.owner != importer
  {
    forall c | c in u.connections ensures c.owner != importer {
      assert c.owner == importer ==> c.name in ConnectionNames(u.connections, importer);
    }
  }

  lemma OneForEach(t: Tables, exporter: int, u: Tables, importer: int)
    ensures forall c | c in t.connections && c.owner == exporter ::
              exists c' | c' in ConnectionsAfter(t, exporter, u, importer) :: Restores(c, c', importer)
  {
    var own := OwnConnections(t.connections, exporter);
    var restored := RestoredConnections(own, u.nextId, importer);
    forall c | c in t.connections && c.owner == exporter
      ensures exists c' | c' in ConnectionsAfter(t, exporter, u, importer) :: Restores(c, c', importer)
    {
      var k :| 0 <= k < |own| && own[k] == c;
      assert restored[k] in restored && Restores(c, restored[k], importer);
    }
  }

  lemma NoOthers(t: Tables, exporter: int, u: Tables, importer: int)
    requires forall c | c in u.connections :: c.owner != importer
    ensures forall c' | c' in ConnectionsAfter(t, exporter, u, importer) && c'.owner == importer ::
              exists c | c in t.connections :: c.owner == exporter && Restores(c, c', importer)
  {
    var own := OwnConnections(t.connections, exporter);
    var restored := RestoredConnections(own, u.nextId, importer);
    forall c' | c' in ConnectionsAfter(t, exporter, u, importer) && c'.owner == importer
      ensures exists c | c in t.connections :: c.owner == exporter && Restores(c, c', importer)
    {
      var k :| 0 <= k < |restored| && restored[k] == c';
      assert own[k] in own && Restores(own[k], c', importer);
    }
  }

  lemma NoTwoAlike(t: Tables, exporter: int, u: Tables, importer: int)
    requires forall c | c in u.connections :: c.owner != importer
    requires UniqueConnectionNames(t.connections, exporter)
    ensures UniqueConnectionNames(ConnectionsAfter(t, exporter, u, importer), importer)
  {
    var own := OwnConnections(t.connections, exporter);
    UniqueNamesAreDistinct(t.connections, exporter);
    var after := ConnectionsAfter(t, exporter, u, importer);
    var n := |u.connections|;
    assert forall i | 0 <= i < n :: after[i] == u.connections[i];
    forall i, j | 0 <= i < j < |after| && after[i].owner == importer && after[j].owner == importer
      ensures after[i].name != after[j].name
    {
      assert i >= n;
      assert own[i - n].name != own[j - n].name;
    }
  }

  /** A connection comes back as it was, up to id and owner, exactly when it is an
      SSH connection without a database name and no secret of it is empty. */
  lemma RestoredExactlyIff(c: Connection, id: nat, owner: int)
    ensures RestoredConnection(c, id, owner) == c.(id := id, owner := owner)
       <==> c.kind == "ssh" && c.dbName == "" && c.password != Some("") && c.sshKey != Some("")
  {
  }

  lemma {:induction false} RestoredFlowsArePortable(t: Tables, own: seq<Flow>, owner: int, ids: map<string, nat>)
    requires forall f | f in own :: HasId(t.connections, f.source) && HasId(t.connections, f.dest)
    ensures forall f | f in own && Portable(t, f, ids.Keys) ::
              RestoredFlow(t, f, owner, ids) in RestoredFlows(t, own, owner, ids)
    ensures forall f' | f' in RestoredFlows(t, own, owner, ids) ::
              exists f | f in own :: Portable(t, f, ids.Keys) && f' == RestoredFlow(t, f, owner, ids)
  {
    if own != [] {
      var front, last := own[..|own| - 1], own[|own| - 1];
      assert own == front + [last] && last in own;
      RestoredFlowsArePortable(t, front, owner, ids);
      var restored := RestoredFlows(t, own, owner, ids);
      forall f' | f' in restored
        ensures exists f | f in own :: Portable(t, f, ids.Keys) && f' == RestoredFlow(t, f, owner, ids)
      {
        if f' in RestoredFlows(t, front, owner, ids) {
          var f :| f in front && Portable(t, f, ids.Keys) && f' == RestoredFlow(t, f, owner, ids);
          assert f in own;
        }
      }
    }
  }

  lemma NobodysFlows(u: Tables, importer: int, f: Flow)
    requires FlowNames(u.flows, importer) == {} && f.owner == importer
    ensures f !in u.flows
  {
    assert f in u.flows ==> f.name in FlowNames(u.flows, importer);
  }

  lemma {:induction false} NameOfEnd(connections: seq<Connection>, c: Connection)
    requires c in connections
    requires forall i, j | 0 <= i < j < |connections| :: connections[i].id != connections[j].id
    ensures HasId(connections, c.id) && NameOf(connections, c.id) == c.name
  {
    var front, last := connections[..|connections| - 1], connections[|connections| - 1];
    var i :| 0 <= i < |connections| && connections[i] == c;
    if i < |front| {
      assert front[i] == c;
      NameOfEnd(front, c);
    }
  }

  /** The exported row of a flow names the connections that its ends are. */
  lemma ExportNamesTheEnds(t: Tables, f: Flow, source: Connection, dest: Connection)
    requires Valid(t) && source in t.connections && source.id == f.source && dest in t.connections && dest.id == f.dest
    ensures HasId(t.connections, f.source) && HasId(t.connections, f.dest)
    ensures ExportedFlow(t, f)
         == FlowRow(Given(f.name), Given(source.name), Given(f.sourcePath), Given(dest.name), Given(f.destPath),
                    Given(f.verifyChecksum))
  {
    NameOfEnd(t.connections, source);
    NameOfEnd(t.connections, dest);
    hide HasId, NameOf;
  }

  /** That id is a connection whose name one of the owner's connections bears. */
  predicate EndIsOwned(t: Tables, id: nat, owner: int)
  {
    exists c, d :: c in t.connections && c.id == id && d in t.connections && d.owner == owner && d.name == c.name
  }

  lemma OwnedIff(t: Tables, id: nat, owner: int)
    requires Valid(t) && HasId(t.connections, id)
    ensures NameOf(t.connections, id) in ConnectionNames(t.connections, owner) <==> EndIsOwned(t, id, owner)
  {
    forall c | c in t.connections && c.id == id ensures NameOf(t.connections, id) == c.name { NameOfEnd(t.connections, c); }
    var i :| 0 <= i < |t.connections| && t.connections[i].id == id;
    assert t.connections[i] in t.connections;
    hide NameOf, Valid;
    if NameOf(t.connections, id) in ConnectionNames(t.connections, owner) {
      var d :| d in t.connections && d.owner == owner && d.name == NameOf(t.connections, id);
      assert d.name == t.connections[i].name;
    }
  }

  /** The importer gets a flow of that name exactly when each of its ends is a
      connection whose name one of the exporter's own connections bears. */
  lemma FlowIsRestoredIff(t: Tables, exporter: int, u: Tables, importer: int, f: Flow)
    requires Valid(t) && ConnectionNames(u.connections, importer) == {} && FlowNames(u.flows, importer) == {}
    requires UniqueConnectionNames(t.connections, exporter) && UniqueFlowNames(t.flows, exporter)
    requires f in t.flows && f.owner == exporter
    ensures f.name in FlowNames(After(t, exporter, u, importer).flows, importer)
       <==> EndIsOwned(t, f.source, exporter) && EndIsOwned(t, f.dest, exporter)
  {
    hide EndIsOwned, HasId, UniqueConnectionNames, UniqueFlowNames, ConnectionNames, After;
    StoredRowsAreGood(t, exporter);
    OwnedIff(t, f.source, exporter);
    OwnedIff(t, f.dest, exporter);
    RestoredIffPortable(t, exporter, u, importer, f);
    hide Valid, NameOf;
  }

  lemma RestoredIffPortable(t: Tables, exporter: int, u: Tables, importer: int, f: Flow)
    requires Valid(t) && ConnectionNames(u.connections, importer) == {} && FlowNames(u.flows, importer) == {}
    requires UniqueConnectionNames(t.connections, exporter) && UniqueFlowNames(t.flows, exporter)
    requires f in t.flows && f.owner == exporter
    ensures f.name in FlowNames(After(t, exporter, u, importer).flows, importer)
       <==> Portable(t, f, ConnectionNames(t.connections, exporter))
  {
    hide HasId, UniqueConnectionNames, UniqueFlowNames, ConnectionNames, Valid, NameOf, Known, ConnectionMap, OwnConnections,
      OwnFlows, RestoredFlows, RestoredConnection;
    var after := After(t, exporter, u, importer);
    var ids := Ids(after, importer);
    var own := OwnFlows(t.flows, exporter);
    StoredRowsAreGood(t, exporter);
    ConnectionsAreRestored(t, exporter, u, importer);
    OwnIdsAreKnown(after, importer);
    RestoredFlowsArePortable(t, own, importer, ids);
    UniqueFlowNamesAreDistinct(t.flows, exporter);
    if f.name in FlowNames(after.flows, importer) {
      var f' :| f' in after.flows && f'.owner == importer && f'.name == f.name;
      NobodysFlows(u, importer, f');
      var g :| g in own && Portable(t, g, ids.Keys) && f' == RestoredFlow(t, g, importer, ids);
      assert g == f;
    }
    if Portable(t, f, ids.Keys) {
      assert RestoredFlow(t, f, importer, ids) in after.flows;
    }
  }

  /** Each restored flow is one of the exporter's, bound to the importer's own
      connections that bear the names of the connections at its ends. */
  lemma EndsAreBoundByName(t: Tables, exporter: int, u: Tables, importer: int, f': Flow)
    requires Valid(t)
    requires var after := After(t, exporter, u, importer);
             f' in after.flows && f' !in u.flows
    ensures var after := After(t, exporter, u, importer);
            exists f, source, dest | f in t.flows && source in t.connections && dest in t.connections ::
              && f.owner == exporter && source.id == f.source && dest.id == f.dest
              && f' == f.(owner := importer, source := f'.source, dest := f'.dest)
              && Bound(after.connections, importer, f'.source, source.name)
              && Bound(after.connections, importer, f'.dest, dest.name)
  {
    hide Bound, After, HasId, Valid, NameOf;
    var f := OriginalOf(t, exporter, u, importer, f');
    var source := EndOf(t, f.source);
    var dest := EndOf(t, f.dest);
  }

  lemma EndOf(t: Tables, id: nat) returns (c: Connection)
    requires Valid(t) && HasId(t.connections, id)
    ensures c in t.connections && c.id == id && c.name == NameOf(t.connections, id)
  {
    var i :| 0 <= i < |t.connections| && t.connections[i].id == id;
    c := t.connections[i];
    NameOfEnd(t.connections, c);
  }

  lemma OriginalOf(t: Tables, exporter: int, u: Tables, importer: int, f': Flow) returns (f: Flow)
    requires Valid(t)
    requires var after := After(t, exporter, u, importer);
             f' in after.flows && f' !in u.flows
    ensures var after := After(t, exporter, u, importer);
            && f in t.flows && f.owner == exporter && HasId(t.connections, f.source) && HasId(t.connections, f.dest)
            && f' == f.(owner := importer, source := f'.source, dest := f'.dest)
            && Bound(after.connections, importer, f'.source, NameOf(t.connections, f.source))
            && Bound(after.connections, importer, f'.dest, NameOf(t.connections, f.dest))
  {
    var after := After(t, exporter, u, importer);
    var ids := Ids(after, importer);
    var own := OwnFlows(t.flows, exporter);
    RestoredFlowsArePortable(t, own, importer, ids);
    forall name | name in ids ensures Bound(after.connections, importer, ids[name], name) {
      MapIsBound(after, importer, name);
    }
    StoredRowsAreGood(t, exporter);
    hide HasId, UniqueConnectionNames, ConnectionNames, Valid, NameOf, Bound, Ids;
    f :| f in own && Portable(t, f, ids.Keys) && f' == RestoredFlow(t, f, importer, ids);
  }

  /** That id is a connection of `owner` with that name. */
  predicate Bound(connections: seq<Connection>, owner: int, id: nat, name: string)
  {
    exists c | c in connections :: c.id == id && c.owner == owner && c.name == name
  }

  lemma MapIsBound(t: Tables, owner: int, name: string)
    requires name in Ids(t, owner)
    ensures Bound(t.connections, owner, Ids(t, owner)[name], name)
  {
    MapIsKnown(OwnConnections(t.connections, owner));
  }

  // ------------------------------------------------- ends that are not one's own

  function Bare(id: nat, owner: int, name: string): Connection
  {
    Connection(id, owner, name, map f | f in SETTINGS :: Flag(false), None, None, "", "ssh", "")
  }

  /** Owner 1 has a connection "nas" and a flow from owner 2's connection "nas". */
  function Borrowed(): Tables
  {
    Tables([Bare(0, 1, "nas"), Bare(1, 2, "nas")], [Flow(1, "backup", 1, "/a", 0, "/b", false)], 2)
  }

  /** Owning both ends is sufficient for a flow to come back, and not necessary: an
      end at another owner's connection is resolved too, to the importer's copy of
      the exporter's connection of the same name. */
  lemma ForeignEndIsRebound(u: Tables, importer: int)
    requires ConnectionNames(u.connections, importer) == {} && FlowNames(u.flows, importer) == {}
    ensures var t := Borrowed();
            && Valid(t) && UniqueConnectionNames(t.connections, 1) && UniqueFlowNames(t.flows, 1)
            && (forall c | c in t.connections && c.id == t.flows[0].source :: c.owner != 1)
            && t.flows[0].name in FlowNames(After(t, 1, u, importer).flows, importer)
  {
    BorrowedIsValid();
    BorrowedNames();
    hide Borrowed, Valid, UniqueConnectionNames, UniqueFlowNames, ConnectionNames, FlowNames, After, HasId, NameOf, EndIsOwned;
    FlowIsRestoredIff(Borrowed(), 1, u, importer, Borrowed().flows[0]);
  }

  lemma BorrowedIsValid()
    ensures Valid(Borrowed()) && UniqueConnectionNames(Borrowed().connections, 1) && UniqueFlowNames(Borrowed().flows, 1)
    ensures var t := Borrowed(); HasId(t.connections, t.flows[0].source) && HasId(t.connections, t.flows[0].dest)
  {
    hide SETTINGS;
    var t := Borrowed();
    assert t.connections[0].id == 0 && t.connections[1].id == 1;
    assert HasId(t.connections, 0) && HasId(t.connections, 1);
  }

  lemma BorrowedNames()
    ensures var t := Borrowed();
            && |t.flows| == 1 && t.flows[0] in t.flows && t.flows[0].owner == 1
            && HasId(t.connections, t.flows[0].source) && HasId(t.connections, t.flows[0].dest)
            && EndIsOwned(t, t.flows[0].source, 1) && EndIsOwned(t, t.flows[0].dest, 1)
            && forall c | c in t.connections && c.id == t.flows[0].source :: c.owner != 1
  {
    hide SETTINGS;
    var t := Borrowed();
    assert t.connections[0].id == 0 && t.connections[1].id == 1;
    assert t.connections[0] in t.connections;
    assert t.connections[1] in t.connections;
  }
}
