/** One attempt of a SQL Server transfer: the script, then extract, mask and load
    table by table, over temporary files. */
module MssqlTransfer {
  import opened Text
  import opened Masking
  import opened TextFiles
  import opened MssqlDdl
  import opened MssqlFiles
  import opened MssqlRows

  // ------------------------------------------------------------------ the plan

  /** The external steps of an attempt. Files are named by number. */
  datatype Step =
    | RunScript(file: nat)
    | Extract(table: string, file: nat, native: bool)
    | MaskFile(table: string, file: nat)
    | Load(table: string, file: nat, native: bool)

  function TablePlan(p: Profile, table: string, file: nat): seq<Step>
  {
    if p.RulesFor(table) == map[] then [Extract(table, file, true), Load(table, file, true)]
    else [Extract(table, file, false), MaskFile(table, file), Load(table, file, false)]
  }

  function TablesPlan(p: Profile, tables: seq<string>, file: nat): seq<Step>
  {
    if tables == [] then []
    else TablesPlan(p, tables[..|tables| - 1], file) + TablePlan(p, tables[|tables| - 1], file + |tables| - 1)
  }

  /** All steps of a successful attempt, the first temporary file being `file`. */
  function Plan(p: Profile, tables: seq<string>, file: nat): seq<Step>
  {
    [RunScript(file)] + TablesPlan(p, tables, file + 1)
  }

  lemma {:induction false} PlanGrows(p: Profile, tables: seq<string>, n: nat, file: nat)
    requires n <= |tables|
    ensures TablesPlan(p, tables[..n], file) <= TablesPlan(p, tables, file)
    decreases |tables|
  {
    if n < |tables| {
      PlanGrows(p, tables[..|tables| - 1], n, file);
      assert tables[..|tables| - 1][..n] == tables[..n];
    } else {
      assert tables[..n] == tables;
    }
  }

  lemma PlanSnoc(p: Profile, tables: seq<string>, n: nat, file: nat)
    requires n < |tables|
    ensures TablesPlan(p, tables[..n + 1], file) == TablesPlan(p, tables[..n], file) + TablePlan(p, tables[n], file + n)
  {
    hide TablePlan;
    assert tables[..n + 1][..n] == tables[..n];
  }

  lemma {:induction false} PlanOf(p: Profile, tables: seq<string>, n: nat, file: nat)
    requires n < |tables|
    ensures TablesPlan(p, tables[..n], file) + TablePlan(p, tables[n], file + n) <= TablesPlan(p, tables, file)
  {
    hide TablesPlan, TablePlan;
    PlanGrows(p, tables, n + 1, file);
    PlanSnoc(p, tables, n, file);
  }

  // ------------------------------------------------------- the outside world

  datatype Outcome = Succeeded | Exited | Raised

  /** What the outside answers. Calls are numbered; `exit(n)` is the exit code of
      the program started by call `n`, `raises(n)` an exception it raised. The
      rows of a table are given field by field; what `bcp` writes in native mode
      is a text about which nothing is assumed. */
  datatype World = World(
    raises: nat -> bool,
    exit: nat -> int,
    schemaOf: string -> Schema,
    rows: string -> seq<seq<string>>,
    native: string -> string)
  {
    function Answer(n: nat): Outcome {
      if raises(n) then Raised else if exit(n) != 0 then Exited else Succeeded
    }

    /** What an extract writes: in character mode the rows, field by field. */
    function Extracted(table: string, nativeMode: bool): string {
      if nativeMode then native(table) else FileText(rows(table))
    }
  }

  /** What an attempt is to deliver for the first tables: the rows as extracted,
      masked where the table has rules. */
  function Delivery(p: Profile, w: World, tables: seq<string>, k: nat): seq<(string, string)>
  {
    if tables == [] then []
    else
      var init, table := tables[..|tables| - 1], tables[|tables| - 1];
      Delivery(p, w, init, k) + [(table, Content(p, w, table, k + DeliveryDraws(p, w, init)))]
  }

  function Content(p: Profile, w: World, table: string, k: nat): string
  {
    if p.RulesFor(table) == map[] then w.native(table)
    else
      var schema := w.schemaOf(table);
      MaskedText(WithSchema(p, table, schema), table, Names(schema), FileText(w.rows(table)), k)
  }

  function ContentDraws(p: Profile, w: World, table: string): nat
  {
    if p.RulesFor(table) == map[] then 0
    else TextDraws(p, table, Names(w.schemaOf(table)), FileText(w.rows(table)))
  }

  function DeliveryDraws(p: Profile, w: World, tables: seq<string>): nat
  {
    if tables == [] then 0
    else DeliveryDraws(p, w, tables[..|tables| - 1]) + ContentDraws(p, w, tables[|tables| - 1])
  }

  /** What was loaded: the planned content of the first tables, of all of them after
      a success. */
  predicate Delivered(p: Profile, w: World, was: seq<(string, string)>, now: seq<(string, string)>,
                      tables: seq<string>, k: nat, result: Outcome)
  {
    exists n | 0 <= n <= |tables| ::
      now == was + Delivery(p, w, tables[..n], k) && (result == Succeeded ==> n == |tables|)
  }

  /** The scripts that ran during an attempt: none, if nothing did, and otherwise
      the CREATE statements of all tables. */
  function ScriptsRun(w: World, tables: seq<string>, done: seq<(Step, Outcome)>): seq<string>
  {
    if done == [] then [] else [Script(Described(w, tables))]
  }

  /** `done` is what ran of a plan: a prefix of it, in which nothing follows a
      step that did not succeed. The attempt succeeds exactly when the whole plan
      ran well, and returns False exactly when its last step exited badly. */
  predicate Ran(done: seq<(Step, Outcome)>, plan: seq<Step>, result: Outcome)
  {
    && |done| <= |plan|
    && (forall i | 0 <= i < |done| :: done[i].0 == plan[i])
    && (forall i | 0 <= i < |done| - 1 :: done[i].1 == Succeeded)
    && (result == Succeeded <==> |done| == |plan| && forall i | 0 <= i < |done| :: done[i].1 == Succeeded)
    && (result == Exited <==> done != [] && done[|done| - 1].1 == Exited)
  }

  /** The part of a plan that ran well so far. */
  predicate Going(done: seq<(Step, Outcome)>, plan: seq<Step>)
  {
    |done| <= |plan| && forall i | 0 <= i < |done| :: done[i] == (plan[i], Succeeded)
  }

  lemma RanSoFar(done: seq<(Step, Outcome)>, plan: seq<Step>)
    requires Going(done, plan)
    ensures Ran(done, plan, if |done| == |plan| then Succeeded else Raised)
  {
  }

  lemma RanInto(done: seq<(Step, Outcome)>, plan: seq<Step>, outcome: Outcome)
    requires Going(done, plan) && |done| < |plan|
    ensures var now := done + [(plan[|done|], outcome)];
            if outcome == Succeeded then Going(now, plan) else Ran(now, plan, outcome)
  {
  }

  /** Everything an attempt changes: the files of the machine, the steps it ran,
      the data it loaded, the scripts it ran, its masks and its calls to the
      outside. */
  class Session {
    const profile: Profile
    const world: World
    var files: map<nat, string>
    var next: nat
    var trace: seq<(Step, Outcome)>
    var loaded: seq<(string, string)>
    var scripts: seq<string>
    var draws: nat
    var calls: nat

    /** New file numbers are unused. */
    ghost predicate Valid()
      reads this
    {
      forall f | f in files :: f < next
    }

    constructor (profile: Profile, world: World, files: map<nat, string>, next: nat)
      requires forall f | f in files :: f < next
      ensures Valid() && this.profile == profile && this.world == world
      ensures this.files == files && this.next == next
      ensures trace == [] && loaded == [] && scripts == [] && draws == 0 && calls == 0
    {
      this.profile, this.world, this.files, this.next := profile, world, files, next;
      trace, loaded, scripts, draws, calls := [], [], [], 0, 0;
    }

    /** A call that yields nothing but can raise: listing tables, reading a schema. */
    method Ask() returns (ok: bool)
      modifies this`calls
      ensures ok <==> !world.raises(old(calls))
      ensures calls == old(calls) + 1
    {
      ok := !world.raises(calls);
      calls := calls + 1;
    }

    /** `mkstemp`: a new empty file, or an exception and no file. */
    method MakeTemp() returns (file: nat, ok: bool)
      requires Valid()
      modifies this`calls, this`files, this`next
      ensures Valid() && file == old(next) && file !in old(files)
      ensures files == if ok then old(files)[file := ""] else old(files)
      ensures next == if ok then old(next) + 1 else old(next)
    {
      ok := Ask();
      file := next;
      if ok {
        files, next := files[file := ""], next + 1;
      }
    }

    /** Starts a program and waits for it. */
    method Launch(step: Step) returns (outcome: Outcome)
      modifies this`calls, this`trace
      ensures trace == old(trace) + [(step, outcome)] && calls == old(calls) + 1
      ensures outcome == Raised <==> world.raises(old(calls))
      ensures outcome == Succeeded <==> !world.raises(old(calls)) && world.exit(old(calls)) == 0
    {
      outcome := world.Answer(calls);
      calls := calls + 1;
      trace := trace + [(step, outcome)];
    }

    /** Masks a data file in place. The schema is read again first; a provider
        the generator does not know raises. */
    method MaskData(table: string, file: nat) returns (outcome: Outcome)
      requires file in files
      modifies this`files, this`trace, this`draws, this`calls
      ensures outcome != Exited
      ensures trace == old(trace) || trace == old(trace) + [(MaskFile(table, file), outcome)]
      ensures outcome == Succeeded ==> trace == old(trace) + [(MaskFile(table, file), Succeeded)]
      ensures files.Keys == old(files.Keys)
      ensures forall f | f in old(files) && f != file :: files[f] == old(files)[f]
      ensures var schema := world.schemaOf(table);
              outcome == Succeeded ==>
                && files[file] == MaskedText(WithSchema(profile, table, schema), table, Names(schema),
                                             old(files)[file], old(draws))
                && draws == old(draws) + TextDraws(profile, table, Names(schema), old(files)[file])
    {
      var known := Ask();
      if !known { return Raised; }
      var schema := world.schemaOf(table);
      var p := WithSchema(profile, table, schema);
      hide MaskedText, TextDraws, Names;
      var masked, used, ok := MaskDatFile(p, table, Names(schema), files[file], draws);
      outcome := if ok then Succeeded else Raised;
      trace := trace + [(MaskFile(table, file), outcome)];
      if ok {
        SameDraws(profile, p, table, Names(schema), files[file]);
        files, draws := files[file := masked], used;
      }
    }

    /** Loads a data file into the destination. */
    method LoadData(table: string, file: nat, native: bool) returns (outcome: Outcome)
      requires file in files
      modifies this`trace, this`loaded, this`calls
      ensures trace == old(trace) + [(Load(table, file, native), outcome)]
      ensures loaded == if outcome == Succeeded then old(loaded) + [(table, files[file])] else old(loaded)
    {
      outcome := Launch(Load(table, file, native));
      if outcome == Succeeded {
        loaded := loaded + [(table, files[file])];
      }
    }

    /** Runs a script file at the destination. */
    method RunScriptFile(file: nat) returns (outcome: Outcome)
      requires file in files
      modifies this`trace, this`scripts, this`calls
      ensures trace == old(trace) + [(RunScript(file), outcome)]
      ensures scripts == old(scripts) + [files[file]]
    {
      scripts := scripts + [files[file]];
      outcome := Launch(RunScript(file));
    }

    /** Extracts a table into a new data file. */
    method ExtractData(table: string, file: nat, native: bool) returns (outcome: Outcome)
      requires file in files
      modifies this`trace, this`files, this`calls
      ensures trace == old(trace) + [(Extract(table, file, native), outcome)]
      ensures files == if outcome == Succeeded then old(files)[file := world.Extracted(table, native)] else old(files)
    {
      outcome := Launch(Extract(table, file, native));
      if outcome == Succeeded {
        files := files[file := world.Extracted(table, native)];
      }
    }

    /** Extract, mask if the table has rules, and load, over one data file.
        Succeeded: carry on; Exited: a program failed, so the attempt returns
        False; Raised: an exception left it. */
    method MoveTable(table: string, file: nat) returns (result: Outcome, ghost done: seq<(Step, Outcome)>)
      requires file in files
      modifies this`files, this`trace, this`loaded, this`draws, this`calls
      ensures files.Keys == old(files.Keys)
      ensures forall f | f in old(files) && f != file :: files[f] == old(files)[f]
      ensures trace == old(trace) + done && Ran(done, TablePlan(profile, table, file), result)
      ensures if result == Succeeded
              then loaded == old(loaded) + [(table, Content(profile, world, table, old(draws)))]
                && draws == old(draws) + ContentDraws(profile, world, table)
              else loaded == old(loaded)
    {
      hide Ran, Going, TablePlan, Content, ContentDraws;
      ghost var plan := TablePlan(profile, table, file);
      var native := profile.RulesFor(table) == map[];
      PlanOfOne(profile, table, file);
      NothingGone(plan);
      UnruledContent(profile, world, table, draws);
      result := ExtractData(table, file, native);
      done := [] + [(plan[0], result)];
      RanInto([], plan, result);
      if result != Succeeded { return; }
      if native {
        result := LoadData(table, file, native);
        RanInto(done, plan, result);
        done := done + [(plan[1], result)];
        if result == Succeeded { RanSoFar(done, plan); }
        assert trace == old(trace) + done;
      } else {
        ghost var rest;
        result, rest := MaskAndLoad(table, file, done);
        done := done + rest;
      }
    }

    /** The rest of a ruled table's steps after its extract `done`. */
    method MaskAndLoad(table: string, file: nat, ghost done: seq<(Step, Outcome)>)
      returns (result: Outcome, ghost rest: seq<(Step, Outcome)>)
      requires file in files && profile.RulesFor(table) != map[]
      requires files[file] == FileText(world.rows(table))
      requires done == [(Extract(table, file, false), Succeeded)]
      modifies this`files, this`trace, this`loaded, this`draws, this`calls
      ensures files.Keys == old(files.Keys)
      ensures forall f | f in old(files) && f != file :: files[f] == old(files)[f]
      ensures trace == old(trace) + rest && Ran(done + rest, TablePlan(profile, table, file), result)
      ensures if result == Succeeded
              then loaded == old(loaded) + [(table, Content(profile, world, table, old(draws)))]
                && draws == old(draws) + ContentDraws(profile, world, table)
              else loaded == old(loaded)
    {
      hide Ran, Going, TablePlan, MaskedText, TextDraws, FileText;
      ghost var plan, was := TablePlan(profile, table, file), trace;
      PlanOfOne(profile, table, file);
      OneGone(done, plan);
      result := MaskData(table, file);
      if result != Succeeded {
        rest := if trace == was then [] else [(plan[1], result)];
        assert done + [] == done;
        RanSoFar(done, plan);
        RanInto(done, plan, result);
        return;
      }
      RanInto(done, plan, result);
      ghost var gone := done + [(plan[1], result)];
      result := LoadData(table, file, false);
      rest := [(plan[1], Succeeded), (plan[2], result)];
      assert gone + [(plan[2], result)] == done + rest;
      RanInto(gone, plan, result);
      if result == Succeeded { RanSoFar(done + rest, plan); }
    }

    /** Writes the CREATE statements of all tables into the script file. */
    method WriteDdl(tables: seq<string>, file: nat) returns (ok: bool)
      requires file in files
      modifies this`files, this`calls
      ensures files.Keys == old(files.Keys)
      ensures forall f | f in old(files) && f != file :: files[f] == old(files)[f]
      ensures ok ==> files[file] == Script(Described(world, tables))
    {
      hide Script, CreateTableSql;
      ghost var described := Described(world, tables);
      var text := "";
      assert described[..0] == [];
      ScriptSnoc([]);
      for i := 0 to |tables|
        invariant files == old(files)
        invariant text == Script(described[..i])
      {
        ok := Ask();
        if !ok { return; }
        var statement := BuildCreateTableSql(tables[i], world.schemaOf(tables[i]));
        assert described[..i + 1] == described[..i] + [described[i]];
        ScriptSnoc(described[..i + 1]);
        text := text + statement;
      }
      assert described[..|tables|] == described;
      files := files[file := text];
      ok := true;
    }

    /** The protected part of `_transfer_once`: everything up to the clean-up.
        `tmpPaths` are the files it registered. */
    method Attempt(tables: seq<string>)
      returns (result: Outcome, tmpPaths: seq<nat>, ghost done: seq<(Step, Outcome)>)
      requires Valid()
      modifies this`files, this`next, this`trace, this`loaded, this`scripts, this`draws, this`calls
      ensures Valid() && Registered(old(files), files, tmpPaths)
      ensures trace == old(trace) + done && Ran(done, Plan(profile, tables, old(next)), result)
      ensures scripts == old(scripts) + ScriptsRun(world, tables, done)
      ensures Delivered(profile, world, old(loaded), loaded, tables, old(draws), result)
    {
      hide Ran, Going, TablePlan, Content, ContentDraws, Script;
      ghost var first := next;
      result, tmpPaths, done := RunDdl(tables);
      if result != Succeeded {
        assert tables[..0] == [] && loaded + [] == loaded;
        return;
      }
      ghost var moved;
      result, tmpPaths, moved := MoveTables(tables, tmpPaths, first, old(files), done);
      done := done + moved;
    }

    /** The first phase: the script is written and run. */
    method RunDdl(tables: seq<string>)
      returns (result: Outcome, tmpPaths: seq<nat>, ghost done: seq<(Step, Outcome)>)
      requires Valid()
      modifies this`files, this`next, this`trace, this`scripts, this`calls
      ensures Valid() && Registered(old(files), files, tmpPaths)
      ensures trace == old(trace) + done
      ensures scripts == old(scripts) + ScriptsRun(world, tables, done)
      ensures if result == Succeeded then next == old(next) + 1 && done == [(RunScript(old(next)), Succeeded)]
              else Ran(done, Plan(profile, tables, old(next)), result)
    {
      hide Ran, Going, TablesPlan, Script;
      ghost var plan := Plan(profile, tables, next);
      tmpPaths, done := [], [];
      NothingGone(plan);
      RanSoFar([], plan);
      var script, made := MakeTemp();
      if !made { return Raised, tmpPaths, done; }
      tmpPaths := [script];
      var written := WriteDdl(tables, script);
      if !written { return Raised, tmpPaths, done; }
      result := RunScriptFile(script);
      RanInto([], plan, result);
      done := [] + [(plan[0], result)];
    }

    /** The loop over the tables, after the script `first` ran. */
    method MoveTables(tables: seq<string>, registered: seq<nat>, ghost first: nat,
                      ghost before: map<nat, string>, ghost script: seq<(Step, Outcome)>)
      returns (result: Outcome, tmpPaths: seq<nat>, ghost moved: seq<(Step, Outcome)>)
      requires Valid() && next == first + 1
      requires Registered(before, files, registered) && forall f | f in before :: f < next
      requires script == [(RunScript(first), Succeeded)]
      modifies this`files, this`next, this`trace, this`loaded, this`draws, this`calls
      ensures Valid() && Registered(before, files, tmpPaths)
      ensures trace == old(trace) + moved && Ran(script + moved, Plan(profile, tables, first), result)
      ensures Delivered(profile, world, old(loaded), loaded, tables, old(draws), result)
    {
      hide Ran, Going, TablePlan, Content, ContentDraws, Registered, Plan, TablesPlan, Delivery, DeliveryDraws, Delivered;
      ghost var plan := Plan(profile, tables, first);
      tmpPaths, moved := registered, [];
      NothingYet(profile, world, tables, first + 1, draws);
      ScriptRan(profile, tables, first);
      assert script + [] == script;
      for i := 0 to |tables|
        invariant Valid() && next == first + 1 + i
        invariant Registered(before, files, tmpPaths)
        invariant trace == old(trace) + moved
        invariant Going(script + moved, plan)
        invariant |moved| == |TablesPlan(profile, tables[..i], first + 1)|
        invariant loaded == old(loaded) + Delivery(profile, world, tables[..i], old(draws))
        invariant draws == old(draws) + DeliveryDraws(profile, world, tables[..i])
      {
        RanSoFar(script + moved, plan);
        ghost var gone := moved;
        result, tmpPaths, moved := MoveNext(tables[i], tmpPaths, before);
        MovedOn(profile, tables, i, first, script, gone, moved, result);
        moved := gone + moved;
        if result != Succeeded {
          DeliveredFirst(profile, world, old(loaded), loaded, tables, old(draws), i, result);
          return;
        }
        DeliverySnoc(profile, world, tables, i, old(draws));
      }
      assert tables[..|tables|] == tables;
      PlanLength(profile, tables, first);
      RanSoFar(script + moved, plan);
      result := Succeeded;
      DeliveredFirst(profile, world, old(loaded), loaded, tables, old(draws), |tables|, result);
    }

    /** The loop body: a new data file, registered at once, then the steps over it. */
    method MoveNext(table: string, registered: seq<nat>, ghost before: map<nat, string>)
      returns (result: Outcome, tmpPaths: seq<nat>, ghost moved: seq<(Step, Outcome)>)
      requires Valid() && Registered(before, files, registered) && forall f | f in before :: f < next
      modifies this`files, this`next, this`trace, this`loaded, this`draws, this`calls
      ensures Valid() && Registered(before, files, tmpPaths)
      ensures next == old(next) + 1 || (next == old(next) && result == Raised)
      ensures trace == old(trace) + moved && Ran(moved, TablePlan(profile, table, old(next)), result)
      ensures if result == Succeeded
              then loaded == old(loaded) + [(table, Content(profile, world, table, old(draws)))]
                && draws == old(draws) + ContentDraws(profile, world, table)
              else loaded == old(loaded)
    {
      hide Ran, Going, TablePlan, Content, ContentDraws, Registered;
      tmpPaths := registered;
      var file, made := MakeTemp();
      if !made {
        PlanOfOne(profile, table, file);
        NothingGone(TablePlan(profile, table, file));
        RanSoFar([], TablePlan(profile, table, file));
        return Raised, tmpPaths, [];
      }
      NewFile(before, old(files), files, registered, file);
      ghost var made' := files;
      tmpPaths := tmpPaths + [file];
      result, moved := MoveTable(table, file);
      FileChanged(before, made', files, tmpPaths, file);
    }

    /** `_transfer_once`. Whatever the outside answers, and also when an exception
        leaves it, every file it made is gone and every other file is as it was. */
    method TransferOnce(tables: seq<string>) returns (result: Outcome, ghost done: seq<(Step, Outcome)>)
      requires Valid()
      modifies this`files, this`next, this`trace, this`loaded, this`scripts, this`draws, this`calls
      ensures Valid() && files == old(files)
      ensures trace == old(trace) + done
      ensures exists first :: Ran(done, Plan(profile, tables, first), result)
      ensures scripts == old(scripts) + ScriptsRun(world, tables, done)
      ensures Delivered(profile, world, old(loaded), loaded, tables, old(draws), result)
    {
      hide Script;
      var listed := Ask();
      if !listed {
        RanSoFar([], Plan(profile, tables, next));
        assert tables[..0] == [] && loaded + [] == loaded;
        return Raised, [];
      }
      var tmpPaths;
      result, tmpPaths, done := Attempt(tables);
      Unlink(tmpPaths, old(files));
    }

    /** The clean-up: registered files that still exist are deleted. */
    method Unlink(tmpPaths: seq<nat>, ghost before: map<nat, string>)
      requires Registered(before, files, tmpPaths)
      modifies this`files
      ensures files == before
    {
      for i := 0 to |tmpPaths|
        invariant files.Keys == before.Keys + set f | f in tmpPaths[i..]
        invariant forall f | f in before :: files[f] == before[f]
      {
        RestOfPaths(tmpPaths, i);
        if tmpPaths[i] in files {
          files := files - {tmpPaths[i]};
        }
      }
    }
  }

  /** The tables with the schemas the source database reports. */
  function Described(w: World, tables: seq<string>): (described: seq<Table>)
    ensures |described| == |tables|
    ensures forall i | 0 <= i < |tables| :: described[i] == Table(tables[i], w.schemaOf(tables[i]))
  {
    seq(|tables|, i requires 0 <= i < |tables| => Table(tables[i], w.schemaOf(tables[i])))
  }

  lemma {:induction false} ScriptSnoc(tables: seq<Table>)
    ensures tables == [] ==> Script(tables) == ""
    ensures tables != [] ==>
              var last := tables[|tables| - 1];
              Script(tables) == Script(tables[..|tables| - 1]) + CreateTableSql(last.name, last.schema)
  {
    hide CreateTableSql;
    if tables != [] {
      var init, last := tables[..|tables| - 1], tables[|tables| - 1];
      if init == [] {
        assert tables == [last] && Script(tables[1..]) == "";
      } else {
        ScriptSnoc(tables[1..]);
        assert tables[1..][..|tables| - 2] == init[1..];
        Associative(CreateTableSql(tables[0].name, tables[0].schema), Script(init[1..]), CreateTableSql(last.name, last.schema));
      }
    }
  }

  /** The files grew by the registered ones, which are all new and distinct. */
  ghost predicate Registered(before: map<nat, string>, after: map<nat, string>, tmpPaths: seq<nat>)
  {
    && after.Keys == before.Keys + (set f | f in tmpPaths)
    && (forall f | f in before :: after[f] == before[f])
    && (forall f | f in tmpPaths :: f !in before)
    && (forall i, j | 0 <= i < j < |tmpPaths| :: tmpPaths[i] != tmpPaths[j])
  }

  lemma PlanLength(p: Profile, tables: seq<string>, first: nat)
    ensures |Plan(p, tables, first)| == 1 + |TablesPlan(p, tables, first + 1)|
  {
  }

  lemma DeliveredFirst(p: Profile, w: World, was: seq<(string, string)>, now: seq<(string, string)>,
                       tables: seq<string>, k: nat, n: nat, result: Outcome)
    requires n <= |tables| && now == was + Delivery(p, w, tables[..n], k)
    requires result == Succeeded ==> n == |tables|
    ensures Delivered(p, w, was, now, tables, k, result)
  {
  }

  lemma NewFile(before: map<nat, string>, was: map<nat, string>, now: map<nat, string>,
                tmpPaths: seq<nat>, file: nat)
    requires Registered(before, was, tmpPaths) && file !in was && now == was[file := ""]
    ensures Registered(before, now, tmpPaths + [file])
    ensures file in now && file !in before
  {
  }

  lemma FileChanged(before: map<nat, string>, was: map<nat, string>, now: map<nat, string>,
                    tmpPaths: seq<nat>, file: nat)
    requires Registered(before, was, tmpPaths) && file !in before && now.Keys == was.Keys
    requires forall f | f in was && f != file :: now[f] == was[f]
    ensures Registered(before, now, tmpPaths)
  {
  }

  lemma PlanOfOne(p: Profile, table: string, file: nat)
    ensures var plan := TablePlan(p, table, file);
            if p.RulesFor(table) == map[] then plan == [Extract(table, file, true), Load(table, file, true)]
            else plan == [Extract(table, file, false), MaskFile(table, file), Load(table, file, false)]
  {
  }

  lemma NothingGone(plan: seq<Step>)
    ensures Going([], plan)
  {
  }

  lemma OneGone(done: seq<(Step, Outcome)>, plan: seq<Step>)
    requires |done| == 1 && plan != [] && done[0] == (plan[0], Succeeded)
    ensures Going(done, plan)
  {
  }

  lemma UnruledContent(p: Profile, w: World, table: string, k: nat)
    ensures p.RulesFor(table) == map[] ==>
              Content(p, w, table, k) == w.native(table) && ContentDraws(p, w, table) == 0
  {
  }

  /** The paths from `i` on, of paths that are all different. */
  lemma RestOfPaths(tmpPaths: seq<nat>, i: nat)
    requires i < |tmpPaths| && forall j, k | 0 <= j < k < |tmpPaths| :: tmpPaths[j] != tmpPaths[k]
    ensures var rest := tmpPaths[i + 1..];
            (set f | f in tmpPaths[i..]) == {tmpPaths[i]} + (set f | f in rest) && tmpPaths[i] !in rest
  {
    assert tmpPaths[i..] == [tmpPaths[i]] + tmpPaths[i + 1..];
  }

  lemma ScriptRan(p: Profile, tables: seq<string>, first: nat)
    ensures Going([(RunScript(first), Succeeded)], Plan(p, tables, first))
  {
  }

  lemma NextTable(p: Profile, tables: seq<string>, i: nat, start: nat)
    requires i < |tables|
    ensures var before := TablesPlan(p, tables[..i], start + 1);
            var plan, table := Plan(p, tables, start), TablePlan(p, tables[i], start + 1 + i);
            && table != [] && 1 + |before| + |table| <= |plan|
            && plan[1 + |before|..1 + |before| + |table|] == table
            && |TablesPlan(p, tables[..i + 1], start + 1)| == |before| + |table|
  {
    hide TablesPlan;
    var before := TablesPlan(p, tables[..i], start + 1);
    var table := TablePlan(p, tables[i], start + 1 + i);
    PlanOf(p, tables, i, start + 1);
    PlanSnoc(p, tables, i, start + 1);
    MiddleOf(RunScript(start), before, table, TablesPlan(p, tables, start + 1));
  }

  lemma MiddleOf<T>(x: T, a: seq<T>, b: seq<T>, c: seq<T>)
    requires a + b <= c
    ensures |a| + |b| <= |c| && ([x] + c)[1 + |a|..1 + |a| + |b|] == b
  {
    assert a + b == c[..|a| + |b|];
    assert b == (a + b)[|a|..];
  }

  lemma JoinedRuns(gone: seq<(Step, Outcome)>, now: seq<(Step, Outcome)>, part: seq<Step>, plan: seq<Step>)
    requires Going(gone, plan) && |gone| + |part| <= |plan| && plan[|gone|..|gone| + |part|] == part
    requires |now| <= |part| && forall i | 0 <= i < |now| :: now[i].0 == part[i]
    ensures forall i | 0 <= i < |gone| + |now| :: (gone + now)[i].0 == plan[i]
    ensures forall i | 0 <= i < |gone| :: (gone + now)[i].1 == Succeeded
    ensures forall i | |gone| <= i < |gone| + |now| :: (gone + now)[i].1 == now[i - |gone|].1
  {
    forall i | |gone| <= i < |gone| + |now| ensures (gone + now)[i] == now[i - |gone|] && plan[i] == now[i - |gone|].0 {
      assert plan[i] == plan[|gone|..|gone| + |part|][i - |gone|];
    }
  }

  /** Running the plan of one table continues the run of the whole plan. */
  lemma RanThrough(gone: seq<(Step, Outcome)>, now: seq<(Step, Outcome)>, part: seq<Step>, plan: seq<Step>, result: Outcome)
    requires Going(gone, plan) && |gone| + |part| <= |plan| && plan[|gone|..|gone| + |part|] == part
    requires part != [] && Ran(now, part, result)
    ensures if result == Succeeded then Going(gone + now, plan) && |now| == |part|
            else Ran(gone + now, plan, result)
  {
    JoinedRuns(gone, now, part, plan);
    if result == Succeeded {
      RanWell(gone, now, part, plan);
    } else {
      RanBadly(gone, now, part, plan, result);
    }
  }

  lemma RanWell(gone: seq<(Step, Outcome)>, now: seq<(Step, Outcome)>, part: seq<Step>, plan: seq<Step>)
    requires |gone| + |part| <= |plan| && Ran(now, part, Succeeded)
    requires forall i | 0 <= i < |gone| + |now| :: (gone + now)[i].0 == plan[i]
    requires forall i | 0 <= i < |gone| :: (gone + now)[i].1 == Succeeded
    requires forall i | |gone| <= i < |gone| + |now| :: (gone + now)[i].1 == now[i - |gone|].1
    ensures Going(gone + now, plan) && |now| == |part|
  {
    var all := gone + now;
    forall i | 0 <= i < |all| ensures all[i] == (plan[i], Succeeded) {
      if i >= |gone| { assert now[i - |gone|].1 == Succeeded; }
    }
  }

  lemma RanBadly(gone: seq<(Step, Outcome)>, now: seq<(Step, Outcome)>, part: seq<Step>, plan: seq<Step>, result: Outcome)
    requires |gone| + |part| <= |plan| && Ran(now, part, result) && result != Succeeded && part != []
    requires forall i | 0 <= i < |gone| + |now| :: (gone + now)[i].0 == plan[i]
    requires forall i | 0 <= i < |gone| :: (gone + now)[i].1 == Succeeded
    requires forall i | |gone| <= i < |gone| + |now| :: (gone + now)[i].1 == now[i - |gone|].1
    ensures Ran(gone + now, plan, result)
  {
    var all := gone + now;
    forall i | 0 <= i < |all| - 1 ensures all[i].1 == Succeeded {
      if i >= |gone| { assert now[i - |gone|].1 == Succeeded; }
    }
    if |now| == |part| {
      var i :| 0 <= i < |now| && now[i].1 != Succeeded;
      assert i == |now| - 1;
    }
    if now != [] {
      assert all[|all| - 1].1 == now[|now| - 1].1;
    } else if gone != [] {
      assert all[|all| - 1].1 == Succeeded;
    }
  }

  /** One more table of the plan. */
  lemma MovedOn(p: Profile, tables: seq<string>, i: nat, first: nat, script: seq<(Step, Outcome)>,
                gone: seq<(Step, Outcome)>, now: seq<(Step, Outcome)>, result: Outcome)
    requires i < |tables| && |script| == 1 && Going(script + gone, Plan(p, tables, first))
    requires |gone| == |TablesPlan(p, tables[..i], first + 1)|
    requires Ran(now, TablePlan(p, tables[i], first + 1 + i), result)
    ensures var plan := Plan(p, tables, first);
            if result == Succeeded
            then Going(script + (gone + now), plan) && |gone + now| == |TablesPlan(p, tables[..i + 1], first + 1)|
            else Ran(script + (gone + now), plan, result)
  {
    hide Ran, Going, Plan, TablesPlan, TablePlan;
    NextTable(p, tables, i, first);
    RanThrough(script + gone, now, TablePlan(p, tables[i], first + 1 + i), Plan(p, tables, first), result);
    assert script + gone + now == script + (gone + now);
  }

  lemma NothingYet(p: Profile, w: World, tables: seq<string>, file: nat, k: nat)
    ensures TablesPlan(p, tables[..0], file) == [] && Delivery(p, w, tables[..0], k) == []
    ensures DeliveryDraws(p, w, tables[..0]) == 0
  {
    assert tables[..0] == [];
  }

  lemma DeliverySnoc(p: Profile, w: World, tables: seq<string>, i: nat, k: nat)
    requires i < |tables|
    ensures Delivery(p, w, tables[..i + 1], k) ==
            Delivery(p, w, tables[..i], k) + [(tables[i], Content(p, w, tables[i], k + DeliveryDraws(p, w, tables[..i])))]
    ensures DeliveryDraws(p, w, tables[..i + 1]) == DeliveryDraws(p, w, tables[..i]) + ContentDraws(p, w, tables[i])
  {
    hide Content, ContentDraws;
    assert tables[..i + 1][..i] == tables[..i];
  }

  lemma SameDraws(p: Profile, q: Profile, table: string, columns: seq<string>, text: string)
    requires p.rules == q.rules
    ensures TextDraws(p, table, columns, text) == TextDraws(q, table, columns, text)
  {
    SameRowDraws(p, q, table, columns, RowsSeen(text));
  }

  lemma {:induction false} SameRowDraws(p: Profile, q: Profile, table: string, columns: seq<string>, rows: seq<seq<string>>)
    requires p.rules == q.rules
    ensures RowDraws(p, table, columns, rows) == RowDraws(q, table, columns, rows)
  {
    if rows != [] { SameRowDraws(p, q, table, columns, rows[..|rows| - 1]); }
  }

  // -------------------------------------------------------- noninterference

  /** The rows of the tables with rules are rows of real tables without a tab, a
      newline or a carriage return in a field. */
  predicate CleanTables(p: Profile, w: World, tables: seq<string>)
  {
    forall table | table in tables && p.RulesFor(table) != map[] ::
      w.schemaOf(table).columns != [] && Clean(w.rows(table))
      && Rectangular(w.rows(table), |w.schemaOf(table).columns|)
  }

  /** What is delivered for a table with rules are its masked rows. */
  lemma DeliveredRowsAreMasked(p: Profile, w: World, tables: seq<string>, table: string, k: nat)
    requires CleanTables(p, w, tables) && table in tables && p.RulesFor(table) != map[]
    ensures var schema := w.schemaOf(table);
            var q := WithSchema(p, table, schema);
            && Content(p, w, table, k) == FileText(MaskRows(q, table, Names(schema), w.rows(table), k))
            && ContentDraws(p, w, table) == RowDraws(p, table, Names(schema), w.rows(table))
  {
    hide FileText, MaskRows, RowDraws, MaskedText, TextDraws, Clean;
    var schema := w.schemaOf(table);
    assert Wide(w.rows(table));
    CleanFileIsMasked(WithSchema(p, table, schema), table, Names(schema), w.rows(table), k);
    CleanFileIsMasked(p, table, Names(schema), w.rows(table), k);
  }

  /** Two outsides that behave alike, and whose databases differ only in columns
      that the profile names. */
  ghost predicate AlikeOutside(p: Profile, v: World, w: World, tables: seq<string>)
  {
    && v.raises == w.raises && v.exit == w.exit
    && forall table | table in tables ::
         && v.schemaOf(table) == w.schemaOf(table)
         && if p.RulesFor(table) == map[] then v.native(table) == w.native(table)
            else SameOutsideColumns(p, table, Names(v.schemaOf(table)), v.rows(table), w.rows(table))
  }

  lemma ContentNoninterference(p: Profile, v: World, w: World, tables: seq<string>, table: string, k: nat)
    requires AlikeOutside(p, v, w, tables) && CleanTables(p, v, tables) && CleanTables(p, w, tables) && table in tables
    ensures Content(p, v, table, k) == Content(p, w, table, k)
    ensures ContentDraws(p, v, table) == ContentDraws(p, w, table)
  {
    hide SameOutsideColumns, MaskedText, TextDraws, FileText, Clean, Rectangular;
    if p.RulesFor(table) != map[] {
      var schema := v.schemaOf(table);
      var q, columns := WithSchema(p, table, schema), Names(schema);
      SameForSchema(p, q, table, columns, v.rows(table), w.rows(table));
      MaskedFileNoninterference(q, table, columns, v.rows(table), w.rows(table), k);
      SameDraws(p, q, table, columns, FileText(v.rows(table)));
      SameDraws(p, q, table, columns, FileText(w.rows(table)));
    }
  }

  lemma SameForSchema(p: Profile, q: Profile, table: string, columns: seq<string>, a: seq<seq<string>>, b: seq<seq<string>>)
    requires p.rules == q.rules && SameOutsideColumns(p, table, columns, a, b)
    ensures SameOutsideColumns(q, table, columns, a, b)
  {
  }

  /** Values of the columns that the profile names never reach the destination, if the
      tables with rules are clean: what an attempt is to deliver does not depend on
      them. */
  lemma {:induction false} DeliveryNoninterference(p: Profile, v: World, w: World, tables: seq<string>, k: nat)
    requires AlikeOutside(p, v, w, tables) && CleanTables(p, v, tables) && CleanTables(p, w, tables)
    ensures Delivery(p, v, tables, k) == Delivery(p, w, tables, k)
    ensures DeliveryDraws(p, v, tables) == DeliveryDraws(p, w, tables)
  {
    hide Content, ContentDraws, SameOutsideColumns, Clean, Rectangular;
    if tables != [] {
      var init, table := tables[..|tables| - 1], tables[|tables| - 1];
      assert table in tables && forall t | t in init :: t in tables;
      DeliveryNoninterference(p, v, w, init, k);
      ContentNoninterference(p, v, w, tables, table, k + DeliveryDraws(p, v, init));
    }
  }

  /** And so does not what it did deliver, whichever step it stopped at, nor the
      script it ran. */
  lemma AttemptNoninterference(p: Profile, v: World, w: World, tables: seq<string>, k: nat,
                               was: seq<(string, string)>, now: seq<(string, string)>,
                               done: seq<(Step, Outcome)>, result: Outcome)
    requires AlikeOutside(p, v, w, tables) && CleanTables(p, v, tables) && CleanTables(p, w, tables)
    ensures Delivered(p, v, was, now, tables, k, result) <==> Delivered(p, w, was, now, tables, k, result)
    ensures ScriptsRun(v, tables, done) == ScriptsRun(w, tables, done)
  {
    hide AlikeOutside, Delivery, CleanTables;
    forall n | 0 <= n <= |tables| ensures Delivery(p, v, tables[..n], k) == Delivery(p, w, tables[..n], k) {
      AlikeOnPrefix(p, v, w, tables, n);
      CleanPrefix(p, v, tables, n);
      CleanPrefix(p, w, tables, n);
      DeliveryNoninterference(p, v, w, tables[..n], k);
    }
    SameDescriptions(p, v, w, tables);
  }

  lemma AlikeOnPrefix(p: Profile, v: World, w: World, tables: seq<string>, n: nat)
    requires AlikeOutside(p, v, w, tables) && n <= |tables|
    ensures AlikeOutside(p, v, w, tables[..n])
  {
    hide SameOutsideColumns;
  }

  lemma CleanPrefix(p: Profile, w: World, tables: seq<string>, n: nat)
    requires CleanTables(p, w, tables) && n <= |tables|
    ensures CleanTables(p, w, tables[..n])
  {
    hide Clean, Rectangular;
  }

  lemma SameDescriptions(p: Profile, v: World, w: World, tables: seq<string>)
    requires AlikeOutside(p, v, w, tables)
    ensures Described(v, tables) == Described(w, tables)
  {
    hide SameOutsideColumns;
    forall i | 0 <= i < |tables| ensures Described(v, tables)[i] == Described(w, tables)[i] {
      assert tables[i] in tables;
    }
  }

  // ---------------------------------------------------------------- step discipline

  lemma {:induction false} TablesPlanShape(p: Profile, tables: seq<string>, file: nat, i: nat)
    requires i < |TablesPlan(p, tables, file)|
    ensures var plan := TablesPlan(p, tables, file);
            && !plan[i].RunScript?
            && (plan[i].Load? && p.RulesFor(plan[i].table) != map[] ==>
                && i >= 2 && !plan[i].native
                && plan[i - 1] == MaskFile(plan[i].table, plan[i].file)
                && plan[i - 2] == Extract(plan[i].table, plan[i].file, false))
            && (plan[i].Load? && p.RulesFor(plan[i].table) == map[] ==>
                i >= 1 && plan[i - 1] == Extract(plan[i].table, plan[i].file, plan[i].native))
  {
    var init := TablesPlan(p, tables[..|tables| - 1], file);
    if i < |init| { TablesPlanShape(p, tables[..|tables| - 1], file, i); }
  }

  /** Step discipline, for any tables and any answers: nothing runs before a
      script run that succeeded, nothing runs after a step that did not, and
      every load of a table with rules follows an extract in character mode and
      a mask of that same file, both of which succeeded. */
  lemma StepDiscipline(p: Profile, tables: seq<string>, first: nat, done: seq<(Step, Outcome)>, result: Outcome, i: nat)
    requires Ran(done, Plan(p, tables, first), result) && 0 < i < |done|
    ensures done[0] == (RunScript(first), Succeeded) && !done[i].0.RunScript?
    ensures forall j | 0 <= j < i :: done[j].1 == Succeeded
    ensures var step := done[i].0;
            step.Load? && p.RulesFor(step.table) != map[] ==>
              && i >= 3 && !step.native
              && done[i - 1] == (MaskFile(step.table, step.file), Succeeded)
              && done[i - 2] == (Extract(step.table, step.file, false), Succeeded)
  {
    hide TablesPlan;
    TablesPlanShape(p, tables, first + 1, i - 1);
    var plan, tail := Plan(p, tables, first), TablesPlan(p, tables, first + 1);
    assert forall j | 1 <= j < |plan| :: plan[j] == tail[j - 1];
  }
}
