/** How an import ends, by what its file holds. */
module ImportOutcomes {
  import opened Text
  import opened Streams
  import opened Portability
  import opened PortabilityLaws

  // ------------------------------------------------------------ connection rows

  predicate Opens(cipher: Cipher, key: Key, token: Option<Token>)
  {
    token.Some? ==> cipher.open(key, token.value).Some?
  }

  predicate SecretsOpen(cipher: Cipher, key: Key, row: ConnectionRow)
  {
    Opens(cipher, key, row.passwordEnc) && Opens(cipher, key, row.sshKeyEnc) && Opens(cipher, key, row.passphraseEnc)
  }

  /** A name, and a value for every column. */
  predicate IsWhole(row: ConnectionRow)
  {
    row.name.Given? && forall f | f in SETTINGS :: f in row.settings && row.settings[f] != Null
  }

  /** The row is not skipped: its name is neither taken nor that of an earlier row. */
  predicate IsNew(existing: set<string>, rows: seq<ConnectionRow>, i: nat)
    requires i < |rows|
  {
    var name := rows[i].name;
    !(name.Given? && (name.value in existing || exists j | 0 <= j < i :: rows[j].name == name))
  }

  /** Why row `i` ends the import, if it does. */
  predicate EndsWith(cipher: Cipher, key: Key, existing: set<string>, rows: seq<ConnectionRow>, i: nat, error: Error)
    requires i < |rows|
  {
    var row := rows[i];
    match error
    case BadFormat => false
    case BadPassphrase => !row.name.Missing? && IsNew(existing, rows, i) && !SecretsOpen(cipher, key, row)
    case Refused =>
      row.name.Missing? || (IsNew(existing, rows, i) && SecretsOpen(cipher, key, row) && !IsWhole(row))
  }

  predicate Passes(cipher: Cipher, key: Key, existing: set<string>, rows: seq<ConnectionRow>, i: nat)
    requires i < |rows|
  {
    !EndsWith(cipher, key, existing, rows, i, BadPassphrase) && !EndsWith(cipher, key, existing, rows, i, Refused)
  }

  /** The first row that ends the import decides how. */
  predicate EndsAt(cipher: Cipher, key: Key, existing: set<string>, rows: seq<ConnectionRow>, i: nat, error: Error)
  {
    && i < |rows| && EndsWith(cipher, key, existing, rows, i, error)
    && forall j | 0 <= j < i :: Passes(cipher, key, existing, rows, j)
  }

  /** `c` is what the row says: its name and columns, each secret opened in its place. */
  predicate IsRead(cipher: Cipher, key: Key, owner: int, row: ConnectionRow, c: Connection)
  {
    && c.owner == owner && row.name == Given(c.name) && c.kind == "ssh" && c.dbName == ""
    && c.settings.Keys == SETTINGS && (forall f | f in SETTINGS :: f in row.settings && c.settings[f] == row.settings[f])
    && c.password == (if row.passwordEnc.Some? then cipher.open(key, row.passwordEnc.value) else None)
    && c.sshKey == (if row.sshKeyEnc.Some? then cipher.open(key, row.sshKeyEnc.value) else None)
    && (row.passphraseEnc.Some? ==> cipher.open(key, row.passphraseEnc.value) == Some(c.passphrase))
    && (row.passphraseEnc.None? ==> c.passphrase == "")
  }

  lemma RowRead(cipher: Cipher, key: Key, id: nat, owner: int, row: ConnectionRow)
    ensures var r := ReadConnection(cipher, key, id, owner, row);
            && (r == Err(BadPassphrase) <==> !SecretsOpen(cipher, key, row))
            && (r == Err(Refused) <==> SecretsOpen(cipher, key, row) && !IsWhole(row))
            && (r.Ok? <==> SecretsOpen(cipher, key, row) && IsWhole(row))
            && (r.Ok? ==> IsRead(cipher, key, owner, row, r.value) && row.name == Given(r.value.name))
  {
    hide SETTINGS;
  }

  /** The rows that are skipped. */
  function Skipped(existing: set<string>, rows: seq<ConnectionRow>): set<nat>
  {
    set i: nat | i < |rows| && !IsNew(existing, rows, i)
  }

  lemma SkippedSnoc(existing: set<string>, front: seq<ConnectionRow>, last: ConnectionRow)
    requires forall i: nat | i < |front| :: IsNew(existing, front + [last], i) <==> IsNew(existing, front, i)
    ensures var n := |front|;
            |Skipped(existing, front + [last])|
            == |Skipped(existing, front)| + if IsNew(existing, front + [last], n) then 0 else 1
  {
    hide IsNew;
    var n := |front|;
    assert Skipped(existing, front + [last])
        == Skipped(existing, front) + if IsNew(existing, front + [last], n) then {} else {n};
  }

  /** What an import of connections leaves while no row has ended it. */
  ghost predicate AllRead(cipher: Cipher, key: Key, owner: int, t: Tables, rows: seq<ConnectionRow>, p: Progress)
    requires p.Going?
  {
    && p.counts.skipped == |Skipped(ConnectionNames(t.connections, owner), rows)|
    && (forall name :: name in p.taken <==>
          name in ConnectionNames(t.connections, owner) || exists row | row in rows :: row.name == Given(name))
    && forall i | 0 <= i < |rows| && IsNew(ConnectionNames(t.connections, owner), rows, i) ::
         exists c | c in p.tables.connections :: IsRead(cipher, key, owner, rows[i], c)
  }

  lemma EarlierRowsAlike(cipher: Cipher, key: Key, existing: set<string>, front: seq<ConnectionRow>, last: ConnectionRow)
    ensures forall i: nat | i < |front| ::
              && (IsNew(existing, front + [last], i) <==> IsNew(existing, front, i))
              && (Passes(cipher, key, existing, front + [last], i) <==> Passes(cipher, key, existing, front, i))
    ensures forall i: nat, error | i < |front| && EndsAt(cipher, key, existing, front, i, error) ::
              EndsAt(cipher, key, existing, front + [last], i, error)
  {
    hide SecretsOpen, IsWhole;
    assert forall i: nat | i < |front| :: (front + [last])[i] == front[i];
  }

  lemma StepOutcome(cipher: Cipher, key: Key, owner: int, t: Tables, front: seq<ConnectionRow>, last: ConnectionRow, p: Progress)
    requires p.Going? && AllRead(cipher, key, owner, t, front, p)
    ensures var next, rows, n := ConnectionStep(cipher, key, owner, p, last), front + [last], |front|;
            var existing := ConnectionNames(t.connections, owner);
            && (next.Going? <==> Passes(cipher, key, existing, rows, n))
            && (next.Failed? ==> EndsWith(cipher, key, existing, rows, n, next.error))
            && (next.Going? ==> AllRead(cipher, key, owner, t, rows, next))
  {
    hide SecretsOpen, IsWhole, IsRead, ReadConnection;
    var next, rows := ConnectionStep(cipher, key, owner, p, last), front + [last];
    var existing := ConnectionNames(t.connections, owner);
    RowRead(cipher, key, p.tables.nextId, owner, last);
    EarlierRowsAlike(cipher, key, existing, front, last);
    NewIffNotTaken(existing, front, last, p.taken);
    SkippedSnoc(existing, front, last);
    if next.Going? {
      forall name
        ensures name in next.taken <==> name in existing || exists row | row in rows :: row.name == Given(name)
      {
        TakenNow(existing, front, last, p.taken, next.taken, name);
      }
      forall i | 0 <= i < |rows| && IsNew(existing, rows, i)
        ensures exists c | c in next.tables.connections :: IsRead(cipher, key, owner, rows[i], c)
      {
        if i < |front| {
          var c :| c in p.tables.connections && IsRead(cipher, key, owner, front[i], c);
          assert c in next.tables.connections;
        } else {
          var c := ReadConnection(cipher, key, p.tables.nextId, owner, last).value;
          assert c in next.tables.connections;
        }
      }
    }
  }

  lemma TakenNow(existing: set<string>, front: seq<ConnectionRow>, last: ConnectionRow, was: set<string>, now: set<string>,
                 name: string)
    requires forall name :: name in was <==> name in existing || exists row | row in front :: row.name == Given(name)
    requires last.name.Given? && now == was + {last.name.value}
    ensures name in now <==> name in existing || exists row | row in front + [last] :: row.name == Given(name)
  {
    if name in now {
      if name in was && name !in existing {
        var row :| row in front && row.name == Given(name);
        assert row in front + [last];
      } else if name !in existing {
        assert last in front + [last] && last.name == Given(name);
      }
    }
  }

  lemma NewIffNotTaken(existing: set<string>, front: seq<ConnectionRow>, last: ConnectionRow, taken: set<string>)
    requires forall name :: name in taken <==> name in existing || exists row | row in front :: row.name == Given(name)
    ensures IsNew(existing, front + [last], |front|) <==> !(last.name.Given? && last.name.value in taken)
  {
    var rows := front + [last];
    if last.name.Given? && last.name.value in taken && last.name.value !in existing {
      var row :| row in front && row.name == last.name;
      var j :| 0 <= j < |front| && front[j] == row;
      assert rows[j].name == last.name;
    }
  }

  /** An import of connections ends at the first row that has no name key, or that is new
      and has a secret that the passphrase does not open or a column without a value,
      with the error of that row; without one, every new row is read as it says. */
  lemma {:induction false} ConnectionsOutcome(cipher: Cipher, key: Key, owner: int, t: Tables, rows: seq<ConnectionRow>)
    ensures var p, existing := ImportedConnections(cipher, key, owner, t, rows), ConnectionNames(t.connections, owner);
            && (p.Going? <==> forall i | 0 <= i < |rows| :: Passes(cipher, key, existing, rows, i))
            && (p.Failed? ==> exists i: nat :: EndsAt(cipher, key, existing, rows, i, p.error))
            && (p.Going? ==> AllRead(cipher, key, owner, t, rows, p))
  {
    hide AllRead, Passes, EndsWith, ConnectionStep, ConnectionNames, IsNew;
    var existing := ConnectionNames(t.connections, owner);
    if rows == [] {
      NothingRead(cipher, key, owner, t);
    } else {
      var front, last := rows[..|rows| - 1], rows[|rows| - 1];
      ConnectionsOutcome(cipher, key, owner, t, front);
      assert rows == front + [last];
      var p := ImportedConnections(cipher, key, owner, t, front);
      EarlierRowsAlike(cipher, key, existing, front, last);
      if p.Going? {
        StepOutcome(cipher, key, owner, t, front, last, p);
        var next := ConnectionStep(cipher, key, owner, p, last);
        assert ImportedConnections(cipher, key, owner, t, rows) == next;
        if next.Failed? { assert EndsAt(cipher, key, existing, rows, |front|, next.error); }
      } else {
        FailedStays(cipher, key, owner, p, last);
        var i: nat :| EndsAt(cipher, key, existing, front, i, p.error);
        EndedRowBlocks(cipher, key, existing, rows, i, p.error);
      }
    }
  }

  lemma NothingRead(cipher: Cipher, key: Key, owner: int, t: Tables)
    ensures AllRead(cipher, key, owner, t, [], Going(t, ConnectionNames(t.connections, owner), NOTHING))
  {
    assert Skipped(ConnectionNames(t.connections, owner), []) == {};
  }

  lemma FailedStays(cipher: Cipher, key: Key, owner: int, p: Progress, row: ConnectionRow)
    requires p.Failed?
    ensures ConnectionStep(cipher, key, owner, p, row) == p
  {
  }

  lemma EndedRowBlocks(cipher: Cipher, key: Key, existing: set<string>, rows: seq<ConnectionRow>, i: nat, error: Error)
    requires EndsAt(cipher, key, existing, rows, i, error)
    ensures !Passes(cipher, key, existing, rows, i)
  {
  }

  // ------------------------------------------------------------------ flow rows

  /** Both ends are names of the importer's connections. */
  predicate Resolves(ids: map<string, nat>, row: FlowRow)
  {
    row.sourceConn.Given? && row.sourceConn.value in ids && row.destConn.Given? && row.destConn.value in ids
  }

  /** The row is not skipped: its name is neither taken nor that of an earlier row that
      was resolved. */
  predicate IsNewFlow(existing: set<string>, ids: map<string, nat>, rows: seq<FlowRow>, i: nat)
    requires i < |rows|
  {
    var name := rows[i].name;
    !(name.Given? && (name.value in existing || exists j | 0 <= j < i :: rows[j].name == name && Resolves(ids, rows[j])))
  }

  /** A name, both paths, and no null for the flag. */
  predicate IsWholeFlow(row: FlowRow)
  {
    row.name.Given? && row.sourcePath.Given? && row.destPath.Given? && !row.verifyChecksum.NullCell?
  }

  /** Row `i` ends the import: a key is missing that is looked up, or the database would
      refuse the flow. */
  predicate EndsFlows(existing: set<string>, ids: map<string, nat>, rows: seq<FlowRow>, i: nat)
    requires i < |rows|
  {
    var row := rows[i];
    || row.name.Missing?
    || (IsNewFlow(existing, ids, rows, i)
        && (row.sourceConn.Missing? || row.destConn.Missing? || (Resolves(ids, row) && !IsWholeFlow(row))))
  }

  /** `f` is what the row says, between the connections of those names. */
  predicate IsReadFlow(owner: int, ids: map<string, nat>, row: FlowRow, f: Flow)
    requires Resolves(ids, row)
  {
    && f.owner == owner && row.name == Given(f.name)
    && f.source == ids[row.sourceConn.value] && f.dest == ids[row.destConn.value]
    && row.sourcePath == Given(f.sourcePath) && row.destPath == Given(f.destPath)
    && (f.verifyChecksum <==> row.verifyChecksum == Given(true))
  }

  function SkippedFlows(existing: set<string>, ids: map<string, nat>, rows: seq<FlowRow>): set<nat>
  {
    set i: nat | i < |rows| && !IsNewFlow(existing, ids, rows, i)
  }

  function UnresolvedFlows(existing: set<string>, ids: map<string, nat>, rows: seq<FlowRow>): set<nat>
  {
    set i: nat | i < |rows| && IsNewFlow(existing, ids, rows, i) && !Resolves(ids, rows[i])
  }

  /** What an import of flows leaves while no row has ended it. */
  ghost predicate AllFlowsRead(owner: int, ids: map<string, nat>, t: Tables, rows: seq<FlowRow>, p: Progress)
    requires p.Going?
  {
    var existing := FlowNames(t.flows, owner);
    && p.counts.skipped == |SkippedFlows(existing, ids, rows)|
    && p.counts.unresolved == |UnresolvedFlows(existing, ids, rows)|
    && (forall name :: name in p.taken <==>
          name in existing || exists row | row in rows :: row.name == Given(name) && Resolves(ids, row))
    && forall i | 0 <= i < |rows| && IsNewFlow(existing, ids, rows, i) && Resolves(ids, rows[i]) ::
         exists f | f in p.tables.flows :: IsReadFlow(owner, ids, rows[i], f)
  }

  lemma EarlierFlowsAlike(existing: set<string>, ids: map<string, nat>, front: seq<FlowRow>, last: FlowRow)
    ensures forall i: nat | i < |front| ::
              && (IsNewFlow(existing, ids, front + [last], i) <==> IsNewFlow(existing, ids, front, i))
              && (EndsFlows(existing, ids, front + [last], i) <==> EndsFlows(existing, ids, front, i))
  {
    hide Resolves, IsWholeFlow;
    assert forall i: nat | i < |front| :: (front + [last])[i] == front[i];
  }

  lemma SkippedFlowsSnoc(existing: set<string>, ids: map<string, nat>, front: seq<FlowRow>, last: FlowRow)
    requires forall i: nat | i < |front| :: IsNewFlow(existing, ids, front + [last], i) <==> IsNewFlow(existing, ids, front, i)
    ensures var n, rows := |front|, front + [last];
            |SkippedFlows(existing, ids, rows)|
            == |SkippedFlows(existing, ids, front)| + if IsNewFlow(existing, ids, rows, n) then 0 else 1
  {
    hide IsNewFlow;
    var n, rows := |front|, front + [last];
    assert SkippedFlows(existing, ids, rows)
        == SkippedFlows(existing, ids, front) + if IsNewFlow(existing, ids, rows, n) then {} else {n};
  }

  lemma UnresolvedFlowsSnoc(existing: set<string>, ids: map<string, nat>, front: seq<FlowRow>, last: FlowRow)
    requires forall i: nat | i < |front| :: IsNewFlow(existing, ids, front + [last], i) <==> IsNewFlow(existing, ids, front, i)
    ensures var n, rows := |front|, front + [last];
            |UnresolvedFlows(existing, ids, rows)|
            == |UnresolvedFlows(existing, ids, front)|
               + if IsNewFlow(existing, ids, rows, n) && !Resolves(ids, last) then 1 else 0
  {
    hide IsNewFlow, Resolves;
    var n, rows := |front|, front + [last];
    var was, now := UnresolvedFlows(existing, ids, front), UnresolvedFlows(existing, ids, rows);
    assert forall i: nat | i < n :: rows[i] == front[i];
    assert forall i: nat | i < n :: i in now <==> i in was;
    assert now == was + if IsNewFlow(existing, ids, rows, n) && !Resolves(ids, last) then {n} else {};
  }

  lemma NewFlowIffNotTaken(existing: set<string>, ids: map<string, nat>, front: seq<FlowRow>, last: FlowRow, taken: set<string>)
    requires forall name :: name in taken <==>
               name in existing || exists row | row in front :: row.name == Given(name) && Resolves(ids, row)
    ensures IsNewFlow(existing, ids, front + [last], |front|) <==> !(last.name.Given? && last.name.value in taken)
  {
    hide Resolves;
    var rows := front + [last];
    if last.name.Given? && last.name.value in taken && last.name.value !in existing {
      var row :| row in front && row.name == last.name && Resolves(ids, row);
      var j :| 0 <= j < |front| && front[j] == row;
      assert rows[j].name == last.name;
    }
  }

  /** One row, seen from the names that are taken. */
  lemma FlowRowOutcome(owner: int, ids: map<string, nat>, p: Progress, row: FlowRow)
    requires p.Going?
    ensures var next, isNew := FlowStep(owner, ids, p, row), !(row.name.Given? && row.name.value in p.taken);
            && (next.Failed? <==>
                  || row.name.Missing?
                  || (isNew && (row.sourceConn.Missing? || row.destConn.Missing? || (Resolves(ids, row) && !IsWholeFlow(row)))))
            && (next.Failed? ==> next.error == Refused)
            && (next.Going? ==>
                  && p.tables.flows <= next.tables.flows
                  && next.counts.skipped == p.counts.skipped + (if isNew then 0 else 1)
                  && next.counts.unresolved == p.counts.unresolved + (if isNew && !Resolves(ids, row) then 1 else 0)
                  && (isNew && Resolves(ids, row) ==>
                        && row.name.Given? && next.taken == p.taken + {row.name.value}
                        && exists f | f in next.tables.flows :: IsReadFlow(owner, ids, row, f))
                  && (!(isNew && Resolves(ids, row)) ==> next.taken == p.taken))
  {
    var next := FlowStep(owner, ids, p, row);
    if next.Going? && next.tables != p.tables {
      var f := next.tables.flows[|p.tables.flows|];
      assert f in next.tables.flows;
    }
  }

  lemma FlowStepOutcome(owner: int, ids: map<string, nat>, t: Tables, front: seq<FlowRow>, last: FlowRow, p: Progress)
    requires p.Going? && AllFlowsRead(owner, ids, t, front, p)
    ensures var next, rows, n := FlowStep(owner, ids, p, last), front + [last], |front|;
            var existing := FlowNames(t.flows, owner);
            && (next.Failed? <==> EndsFlows(existing, ids, rows, n)) && (next.Failed? ==> next.error == Refused)
            && (next.Going? ==> AllFlowsRead(owner, ids, t, rows, next))
  {
    hide FlowStep, IsReadFlow, Resolves, IsWholeFlow, FlowNames, SkippedFlows, UnresolvedFlows;
    var next, rows := FlowStep(owner, ids, p, last), front + [last];
    var existing := FlowNames(t.flows, owner);
    FlowRowOutcome(owner, ids, p, last);
    EarlierFlowsAlike(existing, ids, front, last);
    SkippedFlowsSnoc(existing, ids, front, last);
    UnresolvedFlowsSnoc(existing, ids, front, last);
    NewFlowIffNotTaken(existing, ids, front, last, p.taken);
    if next.Going? {
      forall name
        ensures name in next.taken <==>
                name in existing || exists row | row in rows :: row.name == Given(name) && Resolves(ids, row)
      {
        FlowTakenNow(existing, ids, front, last, p.taken, next.taken, name);
      }
      forall i | 0 <= i < |rows| && IsNewFlow(existing, ids, rows, i) && Resolves(ids, rows[i])
        ensures exists f | f in next.tables.flows :: IsReadFlow(owner, ids, rows[i], f)
      {
        if i < |front| {
          var f :| f in p.tables.flows && IsReadFlow(owner, ids, front[i], f);
          assert f in next.tables.flows;
        }
      }
    }
  }

  lemma FlowTakenNow(existing: set<string>, ids: map<string, nat>, front: seq<FlowRow>, last: FlowRow,
                     was: set<string>, now: set<string>, name: string)
    requires forall name :: name in was <==>
               name in existing || exists row | row in front :: row.name == Given(name) && Resolves(ids, row)
    requires if !(last.name.Given? && last.name.value in was) && Resolves(ids, last)
             then last.name.Given? && now == was + {last.name.value} else now == was
    ensures name in now <==>
            name in existing || exists row | row in front + [last] :: row.name == Given(name) && Resolves(ids, row)
  {
    hide Resolves;
    if name in now && name !in existing {
      if name in was {
        var row :| row in front && row.name == Given(name) && Resolves(ids, row);
        assert row in front + [last];
      } else {
        assert last in front + [last] && last.name == Given(name);
      }
    }
  }

  /** An import of flows is refused exactly when a row ends it; otherwise every row that
      is new and resolved is read as it says, and the counts are those of the rows that
      are not new and of those that are not resolved. */
  lemma {:induction false} FlowsOutcome(owner: int, ids: map<string, nat>, t: Tables, rows: seq<FlowRow>)
    ensures var p, existing := ImportedFlows(owner, ids, t, rows), FlowNames(t.flows, owner);
            && (p.Failed? <==> exists i: nat :: i < |rows| && EndsFlows(existing, ids, rows, i))
            && (p.Failed? ==> p.error == Refused)
            && (p.Going? ==> AllFlowsRead(owner, ids, t, rows, p))
  {
    hide AllFlowsRead, EndsFlows, FlowStep, FlowNames, IsNewFlow;
    var existing := FlowNames(t.flows, owner);
    if rows == [] {
      NoFlowsRead(owner, ids, t);
    } else {
      var front, last := rows[..|rows| - 1], rows[|rows| - 1];
      FlowsOutcome(owner, ids, t, front);
      assert rows == front + [last];
      var p := ImportedFlows(owner, ids, t, front);
      EarlierFlowsAlike(existing, ids, front, last);
      if p.Going? {
        FlowStepOutcome(owner, ids, t, front, last, p);
        assert ImportedFlows(owner, ids, t, rows) == FlowStep(owner, ids, p, last);
      } else {
        FailedFlowsStay(owner, ids, p, last);
        var i: nat :| i < |front| && EndsFlows(existing, ids, front, i);
        assert EndsFlows(existing, ids, rows, i);
      }
    }
  }

  lemma NoFlowsRead(owner: int, ids: map<string, nat>, t: Tables)
    ensures AllFlowsRead(owner, ids, t, [], Going(t, FlowNames(t.flows, owner), NOTHING))
  {
    assert SkippedFlows(FlowNames(t.flows, owner), ids, []) == {};
    assert UnresolvedFlows(FlowNames(t.flows, owner), ids, []) == {};
  }

  lemma FailedFlowsStay(owner: int, ids: map<string, nat>, p: Progress, row: FlowRow)
    requires p.Failed?
    ensures FlowStep(owner, ids, p, row) == p
  {
  }

  // -------------------------------------------------------------- the whole import

  /** How any import ends: a file of another format or version is no file at all; a
      passphrase that does not open its check is wrong; then the first connection row
      that ends the import decides, then the flow rows; and otherwise it succeeds. */
  lemma ImportOutcome(cipher: Cipher, t: Tables, owner: int, file: File, passphrase: string)
    ensures var r, key := Imported(cipher, t, owner, file, passphrase), cipher.derive(passphrase, file.salt, file.iterations);
            var existing := ConnectionNames(t.connections, owner);
            if file.format != "tmask-transporter-config" || file.version != 1 then r == Err(BadFormat)
            else if cipher.open(key, file.check) == None then r == Err(BadPassphrase)
            else if exists i: nat :: i < |file.connections| && !Passes(cipher, key, existing, file.connections, i) then
              r.Err? && exists first: nat :: EndsAt(cipher, key, existing, file.connections, first, r.error)
            else
              var p := ImportedConnections(cipher, key, owner, t, file.connections);
              && p.Going?
              && var ids, names := Ids(p.tables, owner), FlowNames(t.flows, owner);
                 if exists i: nat :: i < |file.flows| && EndsFlows(names, ids, file.flows, i) then r == Err(Refused)
                 else
                   && r.Ok?
                   && r.value.connections.skipped == |Skipped(existing, file.connections)|
                   && r.value.flows.skipped == |SkippedFlows(names, ids, file.flows)|
                   && r.value.flows.unresolved == |UnresolvedFlows(names, ids, file.flows)|
  {
    hide Passes, EndsAt, EndsFlows, SkippedFlows, UnresolvedFlows, Skipped, ConnectionNames, FlowNames, ImportedConnections,
      ImportedFlows, ConnectionMap, Extends;
    var key := cipher.derive(passphrase, file.salt, file.iterations);
    ConnectionsOutcome(cipher, key, owner, t, file.connections);
    ConnectionsAccounted(cipher, key, owner, t, file.connections);
    var p := ImportedConnections(cipher, key, owner, t, file.connections);
    if p.Going? { FlowsOutcome(owner, Ids(p.tables, owner), p.tables, file.flows); }
  }
}
