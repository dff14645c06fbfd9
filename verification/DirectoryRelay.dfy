/** Copying a file or a directory from one server to another through the worker. */
module DirectoryRelay {
  import opened Text

  /** Files above this size, 100 MB, go through a temporary file. */
  const STREAM_THRESHOLD := 100 * 1024 * 1024

  class Server {
    var files: map<string, string>

    constructor (files: map<string, string>)
      ensures this.files == files
    {
      this.files := files;
    }
  }

  /** The worker's temporary files. */
  class TempDir {
    var files: map<string, string>

    constructor ()
      ensures files == map[]
    {
      files := map[];
    }
  }

  /** How an operation on a file or a connection fails. */
  datatype Trouble = OsError | ChecksumMismatch | OtherError

  /** What goes wrong during one file. A failing `put` may leave anything at its
      path; `name` is the name that the temporary file gets. */
  datatype Weather = Weather(
    name: string, temp: Option<Trouble>, get: Option<Trouble>,
    put: Option<Trouble>, left: Option<string>, verify: Option<Trouble>
  )

  datatype Outcome = Done | SourceError | DestError | ChecksumError | Raised

  datatype Entry = Entry(filename: string, regular: bool, size: Option<nat>)

  /** The exception handlers around one file. */
  function Reported(trouble: Trouble): Outcome
  {
    match trouble
    case OsError => DestError
    case ChecksumMismatch => ChecksumError
    case OtherError => Raised
  }

  predicate IsBig(size: Option<nat>)
  {
    size.Some? && size.value > STREAM_THRESHOLD
  }

  /** A source file that is missing is reported like a failing destination. */
  function FileOutcome(present: bool, big: bool, verify: bool, w: Weather): Outcome
  {
    if big && w.temp.Some? then Reported(w.temp.value)
    else if w.get.Some? then Reported(w.get.value)
    else if !present then DestError
    else if w.put.Some? then Reported(w.put.value)
    else if verify && w.verify.Some? then Reported(w.verify.value)
    else Done
  }

  /** What can go wrong with one file, in the order in which it shows: the temporary
      file of a big one, the download, a missing source file, the upload, and the
      comparison of checksums if one is asked for. */
  function Troubles(present: bool, size: Option<nat>, verify: bool, w: Weather): (troubles: seq<Option<Trouble>>)
    ensures |troubles| == 5
  {
    [if size.Some? && size.value > 104_857_600 then w.temp else None,
     w.get,
     if present then None else Some(OsError),
     w.put,
     if verify then w.verify else None]
  }

  /** A file is done exactly when nothing went wrong, a checksum that was asked for
      included; otherwise the first trouble decides how the relay ends. */
  lemma FirstTroubleDecides(present: bool, size: Option<nat>, verify: bool, w: Weather)
    ensures var troubles, outcome := Troubles(present, size, verify, w), FileOutcome(present, IsBig(size), verify, w);
            && (outcome == Done <==> forall i | 0 <= i < 5 :: troubles[i] == None)
            && (outcome == Done && verify ==> w.verify == None)
            && (forall i | 0 <= i < 5 && troubles[i].Some? && forall j | 0 <= j < i :: troubles[j] == None ::
                  && (troubles[i] == Some(OsError) ==> outcome == DestError)
                  && (troubles[i] == Some(ChecksumMismatch) ==> outcome == ChecksumError)
                  && (troubles[i] == Some(OtherError) ==> outcome == Raised))
  {
    var t := Troubles(present, size, verify, w);
    assert t[0] == None && t[1] == None && t[2] == None && t[3] == None && t[4] == None
      ==> forall i | 0 <= i < 5 :: t[i] == None;
  }

  /** What one file leaves at the destination: the file, whatever a failing `put`
      left, or nothing new. */
  function FileLeft(source: map<string, string>, dest: map<string, string>, from: string, to: string,
                    big: bool, w: Weather): map<string, string>
  {
    if (big && w.temp.Some?) || w.get.Some? || from !in source then dest
    else if w.put == None then dest[to := source[from]]
    else if w.left.Some? then dest[to := w.left.value]
    else dest
  }

  method TransferFile(source: Server, dest: Server, temps: TempDir, sourcePath: string, destPath: string,
                      size: Option<nat>, verify: bool, w: Weather) returns (outcome: Outcome)
    requires w.name !in temps.files
    modifies dest`files, temps`files
    ensures temps.files == old(temps.files)
    ensures outcome == FileOutcome(sourcePath in old(source.files), IsBig(size), verify, w)
    ensures dest.files == FileLeft(old(source.files), old(dest.files), sourcePath, destPath, IsBig(size), w)
    ensures outcome == Done ==>
      && sourcePath in old(source.files)
      && dest.files == old(dest.files)[destPath := old(source.files)[sourcePath]]
    ensures dest.files - {destPath} == old(dest.files) - {destPath}
  {
    hide STREAM_THRESHOLD, IsBig;
    var tmp: Option<string> := None;
    outcome := Done;
    if IsBig(size) {
      if w.temp.Some? {
        outcome := Reported(w.temp.value);
      } else {
        tmp := Some(w.name);
        temps.files := temps.files[w.name := ""];
        outcome := Fetch(source, sourcePath, w);
        if outcome == Done {
          temps.files := temps.files[w.name := source.files[sourcePath]];
          outcome := Put(dest, destPath, temps.files[w.name], w);
        }
      }
    } else {
      outcome := Fetch(source, sourcePath, w);
      if outcome == Done {
        outcome := Put(dest, destPath, source.files[sourcePath], w);
      }
    }
    if outcome == Done && verify && w.verify.Some? {
      outcome := Reported(w.verify.value);
    }
    if tmp.Some? && tmp.value in temps.files {
      temps.files := temps.files - {tmp.value};
    }
  }

  method Fetch(source: Server, path: string, w: Weather) returns (outcome: Outcome)
    ensures outcome == if w.get.Some? then Reported(w.get.value)
                       else if path in source.files then Done else DestError
  {
    outcome := if w.get.Some? then Reported(w.get.value)
               else if path in source.files then Done else DestError;
  }

  method Put(dest: Server, path: string, content: string, w: Weather) returns (outcome: Outcome)
    modifies dest`files
    ensures outcome == if w.put.Some? then Reported(w.put.value) else Done
    ensures dest.files == if w.put == None then old(dest.files)[path := content]
                          else if w.left.Some? then old(dest.files)[path := w.left.value] else old(dest.files)
  {
    if w.put.Some? {
      dest.files := if w.left.Some? then dest.files[path := w.left.value] else dest.files;
      outcome := Reported(w.put.value);
    } else {
      dest.files := dest.files[path := content];
      outcome := Done;
    }
  }

  // -------------------------------------------------------------- directories

  /** `s.rstrip('/')`. */
  function RstripSlashes(s: string): (r: string)
    ensures r <= s && (r == "" || r[|r| - 1] != '/')
    ensures forall i | |r| <= i < |s| :: s[i] == '/'
  {
    if s != "" && s[|s| - 1] == '/' then RstripSlashes(s[..|s| - 1]) else s
  }

  function Within(dir: string, name: string): string
  {
    dir + "/" + name
  }

  function Regular(entries: seq<Entry>): (files: seq<Entry>)
    ensures forall e | e in files :: e in entries && e.regular
    ensures forall e | e in entries && e.regular :: e in files
  {
    if entries == [] then []
    else Regular(entries[..|entries| - 1])
           + (if entries[|entries| - 1].regular then [entries[|entries| - 1]] else [])
  }

  /** The regular files, in the order of the listing. */
  lemma {:induction false} RegularKeepsOrder(a: seq<Entry>, b: seq<Entry>)
    ensures Regular(a + b) == Regular(a) + Regular(b)
  {
    hide Regular;
    if b == [] {
      NoRegular();
      assert a + b == a;
    } else {
      var front, last := b[..|b| - 1], b[|b| - 1];
      RegularKeepsOrder(a, front);
      RegularSnoc(a + front, last);
      RegularSnoc(front, last);
      assert a + b == a + front + [last] && b == front + [last];
    }
  }

  lemma NoRegular()
    ensures Regular([]) == []
  {
  }

  lemma RegularSnoc(a: seq<Entry>, e: Entry)
    ensures Regular(a + [e]) == Regular(a) + if e.regular then [e] else []
  {
    assert (a + [e])[..|a|] == a;
  }

  predicate AllPresent(source: map<string, string>, dir: string, files: seq<Entry>)
  {
    forall e | e in files :: Within(dir, e.filename) in source
  }

  /** `dest` with each of these files of `source` copied over. */
  function Overlay(dest: map<string, string>, source: map<string, string>,
                   from: string, to: string, files: seq<Entry>): map<string, string>
    requires AllPresent(source, from, files)
  {
    if files == [] then dest
    else
      var front, last := files[..|files| - 1], files[|files| - 1];
      assert last in files && forall e | e in front :: e in files;
      Overlay(dest, source, from, to, front)[Within(to, last.filename) := source[Within(from, last.filename)]]
  }

  /** The name of the listed file that a path of the target directory stands for. */
  predicate IsTarget(to: string, files: seq<Entry>, path: string)
  {
    exists e | e in files :: path == Within(to, e.filename)
  }

  lemma {:induction false} OverlayIsPointwise(dest: map<string, string>, source: map<string, string>,
                                              from: string, to: string, files: seq<Entry>)
    requires AllPresent(source, from, files)
    ensures var after := Overlay(dest, source, from, to, files);
            && (forall e | e in files ::
                  Within(to, e.filename) in after
                  && after[Within(to, e.filename)] == source[Within(from, e.filename)])
            && (forall path | !IsTarget(to, files, path) ::
                  (path in after <==> path in dest) && (path in dest ==> after[path] == dest[path]))
            && (forall path | path in after :: path in dest || IsTarget(to, files, path))
  {
    if files != [] {
      var front, last := files[..|files| - 1], files[|files| - 1];
      assert last in files && files == front + [last];
      OverlayIsPointwise(dest, source, from, to, front);
      forall e | e in files && Within(to, e.filename) == Within(to, last.filename)
        ensures e.filename == last.filename
      {
        SameDirSameName(to, e.filename, last.filename);
      }
    }
  }

  lemma SameDirSameName(dir: string, a: string, b: string)
    requires Within(dir, a) == Within(dir, b)
    ensures a == b
  {
    assert a == Within(dir, a)[|dir| + 1..] == Within(dir, b)[|dir| + 1..] == b;
  }

  /** A path of two listed names is a path of one directory. */
  lemma SamePathSameDir(d: string, e: string, a: string, b: string)
    requires Within(d, a) == Within(e, b) && '/' !in a && '/' !in b
    ensures d == e && a == b
  {
    LastSlash(d, a);
    LastSlash(e, b);
    var p := Within(d, a);
    assert d == p[..|d|] && e == p[..|e|];
    SameDirSameName(d, a, b);
  }

  lemma LastSlash(dir: string, name: string)
    requires '/' !in name
    ensures var p := Within(dir, name);
            p[|dir|] == '/' && forall i | |dir| < i < |p| :: p[i] != '/'
  {
    var p := Within(dir, name);
    forall i | |dir| < i < |p| ensures p[i] != '/' {
      assert p[i] == name[i - |dir| - 1];
    }
  }

  /** Copying within one server does not disturb the files still to be read. */
  lemma OverlayKeepsSources(files: map<string, string>, from: string, to: string, copied: seq<Entry>, e: Entry)
    requires AllPresent(files, from, copied)
    requires '/' !in e.filename && forall c | c in copied :: '/' !in c.filename
    ensures var after := Overlay(files, files, from, to, copied);
            var path := Within(from, e.filename);
            && (path in after <==> path in files)
            && (path in files ==> after[path] == files[path])
  {
    OverlayIsPointwise(files, files, from, to, copied);
    var path := Within(from, e.filename);
    if IsTarget(to, copied, path) {
      var c :| c in copied && path == Within(to, c.filename);
      SamePathSameDir(from, to, e.filename, c.filename);
    }
  }

  /** Listed names are plain names; needed only when both ends are one server. */
  predicate PlainNames(entries: seq<Entry>)
  {
    forall e | e in entries :: '/' !in e.filename
  }

  /** The first `n` files were copied, and nothing but the target of the next one
      may differ from that. */
  predicate Stopped(before: map<string, string>, source: map<string, string>, from: string, to: string,
                    files: seq<Entry>, n: nat, now: map<string, string>)
  {
    && n < |files| && AllPresent(source, from, files[..n])
    && var target := Within(to, files[n].filename);
       now - {target} == Overlay(before, source, from, to, files[..n]) - {target}
  }

  predicate StoppedEarly(before: map<string, string>, source: map<string, string>, from: string, to: string,
                         files: seq<Entry>, now: map<string, string>)
  {
    exists n | 0 <= n < |files| :: Stopped(before, source, from, to, files, n, now)
  }

  /** The relay of the first `n` files, one after the other: how it stands, and what
      is at the destination. With one server at both ends, a file is read from
      what the files before it left. */
  function DirectoryRun(same: bool, source: map<string, string>, dest: map<string, string>, from: string, to: string,
                        files: seq<Entry>, verify: bool, weather: nat -> Weather, n: nat)
    : (run: (Outcome, map<string, string>))
    requires n <= |files|
  {
    if n == 0 then (Done, dest)
    else
      var (outcome, now) := DirectoryRun(same, source, dest, from, to, files, verify, weather, n - 1);
      if outcome != Done then (outcome, now)
      else
        var name, big, w := files[n - 1].filename, IsBig(files[n - 1].size), weather(n - 1);
        var here := if same then now else source;
        (FileOutcome(Within(from, name) in here, big, verify, w),
         FileLeft(here, now, Within(from, name), Within(to, name), big, w))
  }

  lemma {:induction false} StoppedRunStays(same: bool, source: map<string, string>, dest: map<string, string>,
                                           from: string, to: string, files: seq<Entry>, verify: bool,
                                           weather: nat -> Weather, i: nat, n: nat)
    requires i <= n <= |files|
    requires DirectoryRun(same, source, dest, from, to, files, verify, weather, i).0 != Done
    ensures DirectoryRun(same, source, dest, from, to, files, verify, weather, n)
         == DirectoryRun(same, source, dest, from, to, files, verify, weather, i)
  {
    if i < n { StoppedRunStays(same, source, dest, from, to, files, verify, weather, i, n - 1); }
  }

  /** `None` for a listing that fails. */
  method TransferDirectory(source: Server, dest: Server, temps: TempDir, listing: Option<seq<Entry>>,
                           sourceDir: string, destDir: string, verify: bool, weather: nat -> Weather)
    returns (outcome: Outcome, count: nat)
    requires forall i :: weather(i).name !in temps.files
    requires source == dest && listing.Some? ==> PlainNames(listing.value)
    modifies dest`files, temps`files
    ensures temps.files == old(temps.files)
    ensures listing == None ==> outcome == SourceError && dest.files == old(dest.files)
    ensures listing.Some? ==>
      var files, from, to := Regular(listing.value), RstripSlashes(sourceDir), RstripSlashes(destDir);
      && (outcome, dest.files) == DirectoryRun(source == dest, old(source.files), old(dest.files), from, to, files,
                                               verify, weather, |files|)
      && (outcome == Done ==>
            && count == |files| && AllPresent(old(source.files), from, files)
            && dest.files == Overlay(old(dest.files), old(source.files), from, to, files))
      && (outcome != Done ==> StoppedEarly(old(dest.files), old(source.files), from, to, files, dest.files))
  {
    hide Overlay, DirectoryRun, AllPresent, FileOutcome, FileLeft, Stopped, StoppedEarly, Within, IsBig, Regular;
    if listing == None { return SourceError, 0; }
    var files := Regular(listing.value);
    NothingCopied(source == dest, source.files, dest.files, RstripSlashes(sourceDir), RstripSlashes(destDir), files,
                  verify, weather);
    if |files| == 0 {
      assert files[..0] == files;
      return Done, 0;
    }
    var from, to := RstripSlashes(sourceDir), RstripSlashes(destDir);
    for i := 0 to |files|
      invariant temps.files == old(temps.files)
      invariant AllPresent(old(source.files), from, files[..i])
      invariant dest.files == Overlay(old(dest.files), old(source.files), from, to, files[..i])
      invariant source != dest ==> source.files == old(source.files)
      invariant (Done, dest.files) == DirectoryRun(source == dest, old(source.files), old(dest.files), from, to, files,
                                                   verify, weather, i)
    {
      var name := files[i].filename;
      assert files[i] in files;
      ghost var here := source.files;
      if source == dest { OverlayKeepsSources(old(dest.files), from, to, files[..i], files[i]); }
      OneFileMore(source == dest, old(source.files), old(dest.files), from, to, files, verify, weather, i, here);
      outcome := TransferFile(source, dest, temps, Within(from, name), Within(to, name),
                              files[i].size, verify, weather(i));
      if outcome != Done {
        StoppedRunStays(source == dest, old(source.files), old(dest.files), from, to, files, verify, weather, i + 1, |files|);
        StoppedHere(old(dest.files), old(source.files), from, to, files, i, dest.files);
        return outcome, 0;
      }
    }
    assert files[..|files|] == files;
    outcome, count := Done, |files|;
  }

  lemma NothingCopied(same: bool, source: map<string, string>, dest: map<string, string>, from: string, to: string,
                      files: seq<Entry>, verify: bool, weather: nat -> Weather)
    ensures AllPresent(source, from, files[..0]) && Overlay(dest, source, from, to, files[..0]) == dest
    ensures DirectoryRun(same, source, dest, from, to, files, verify, weather, 0) == (Done, dest)
  {
  }

  /** The next file of the relay, when `here` is what it is read from. */
  lemma OneFileMore(same: bool, source: map<string, string>, dest: map<string, string>, from: string, to: string,
                    files: seq<Entry>, verify: bool, weather: nat -> Weather, i: nat, here: map<string, string>)
    requires i < |files| && AllPresent(source, from, files[..i])
    requires var now := Overlay(dest, source, from, to, files[..i]);
             && DirectoryRun(same, source, dest, from, to, files, verify, weather, i) == (Done, now)
             && here == if same then now else source
    ensures var now, path := Overlay(dest, source, from, to, files[..i]), Within(from, files[i].filename);
            && DirectoryRun(same, source, dest, from, to, files, verify, weather, i + 1)
               == (FileOutcome(path in here, IsBig(files[i].size), verify, weather(i)),
                   FileLeft(here, now, path, Within(to, files[i].filename), IsBig(files[i].size), weather(i)))
            && (path in source ==>
                  && AllPresent(source, from, files[..i + 1])
                  && Overlay(dest, source, from, to, files[..i + 1])
                     == now[Within(to, files[i].filename) := source[path]])
  {
    hide FileOutcome, FileLeft, Within, IsBig;
    assert files[..i + 1][..i] == files[..i] && files[..i + 1] == files[..i] + [files[i]];
  }

  lemma StoppedHere(before: map<string, string>, source: map<string, string>, from: string, to: string,
                    files: seq<Entry>, n: nat, now: map<string, string>)
    requires n < |files| && AllPresent(source, from, files[..n])
    requires var target := Within(to, files[n].filename);
             now - {target} == Overlay(before, source, from, to, files[..n]) - {target}
    ensures StoppedEarly(before, source, from, to, files, now)
  {
    hide Overlay, Within, AllPresent;
    assert Stopped(before, source, from, to, files, n, now);
  }

  /** What a relay of a directory that stopped early leaves alone: every path that
      is not the target of a listed file, and the targets of the files after the
      failing one. */
  lemma StoppedTouchesAPrefix(before: map<string, string>, source: map<string, string>, from: string, to: string,
                              files: seq<Entry>, n: nat, now: map<string, string>, path: string)
    requires Stopped(before, source, from, to, files, n, now)
    requires !IsTarget(to, files[..n + 1], path)
    ensures path in now <==> path in before
    ensures path in before ==> now[path] == before[path]
  {
    var target := Within(to, files[n].filename);
    OverlayIsPointwise(before, source, from, to, files[..n]);
    assert files[n] in files[..n + 1];
    assert forall e | e in files[..n] :: e in files[..n + 1];
    assert !IsTarget(to, files[..n], path);
    var overlay := Overlay(before, source, from, to, files[..n]);
    assert path in now <==> path in now - {target};
    assert path in overlay <==> path in overlay - {target};
    assert path in now ==> now[path] == (now - {target})[path];
    assert path in overlay ==> overlay[path] == (overlay - {target})[path];
  }

  /** Listings that agree in everything but the sizes. */
  predicate SameButSizes(a: seq<Entry>, b: seq<Entry>)
  {
    |a| == |b| && forall i | 0 <= i < |a| :: a[i].filename == b[i].filename && a[i].regular == b[i].regular
  }

  lemma {:induction false} RegularSameButSizes(a: seq<Entry>, b: seq<Entry>)
    requires SameButSizes(a, b)
    ensures SameButSizes(Regular(a), Regular(b))
  {
    hide SameButSizes;
    SameAt(a, b);
    if a != [] {
      var n := |a| - 1;
      RegularSameButSizes(a[..n], b[..n]);
      SameButSizesSnoc(Regular(a[..n]), Regular(b[..n]), a[n], b[n]);
    }
  }

  lemma SameAt(a: seq<Entry>, b: seq<Entry>)
    requires SameButSizes(a, b)
    ensures |a| == |b|
    ensures a != [] ==>
              var n := |a| - 1;
              && a[n].filename == b[n].filename && a[n].regular == b[n].regular && SameButSizes(a[..n], b[..n])
    ensures a == [] ==> SameButSizes([], [])
  {
  }

  lemma SameButSizesSnoc(a: seq<Entry>, b: seq<Entry>, x: Entry, y: Entry)
    requires SameButSizes(a, b) && x.filename == y.filename && x.regular == y.regular
    ensures SameButSizes(a + [x], b + [y]) && SameButSizes(a + [], b + [])
  {
  }

  lemma {:induction false} RunsAlike(same: bool, source: map<string, string>, dest: map<string, string>,
                                     from: string, to: string, a: seq<Entry>, b: seq<Entry>, verify: bool,
                                     weather: nat -> Weather, n: nat)
    requires SameButSizes(a, b) && n <= |a| && forall i :: weather(i).temp == None
    ensures DirectoryRun(same, source, dest, from, to, a, verify, weather, n)
         == DirectoryRun(same, source, dest, from, to, b, verify, weather, n)
  {
    hide FileOutcome, FileLeft, IsBig, Within;
    if n > 0 {
      RunsAlike(same, source, dest, from, to, a, b, verify, weather, n - 1);
      var now := DirectoryRun(same, source, dest, from, to, a, verify, weather, n - 1).1;
      var name, here := a[n - 1].filename, if same then now else source;
      SizeDoesNotMatter(here, now, Within(from, name), Within(to, name), IsBig(a[n - 1].size), IsBig(b[n - 1].size),
                        verify, weather(n - 1));
    }
  }

  /** Whether files go through memory or through temporary files matters neither to
      the outcome nor to what is at the destination, also when the relay stops
      early and also within one server, as long as temporary files can be
      created. */
  lemma ThresholdDoesNotMatter(same: bool, source: map<string, string>, dest: map<string, string>, from: string, to: string,
                               a: seq<Entry>, b: seq<Entry>, verify: bool, weather: nat -> Weather)
    requires SameButSizes(a, b) && forall i :: weather(i).temp == None
    ensures |Regular(a)| == |Regular(b)|
    ensures DirectoryRun(same, source, dest, from, to, Regular(a), verify, weather, |Regular(a)|)
         == DirectoryRun(same, source, dest, from, to, Regular(b), verify, weather, |Regular(b)|)
  {
    RegularSameButSizes(a, b);
    RunsAlike(same, source, dest, from, to, Regular(a), Regular(b), verify, weather, |Regular(a)|);
  }

  lemma SizeDoesNotMatter(source: map<string, string>, dest: map<string, string>, from: string, to: string,
                          big: bool, large: bool, verify: bool, w: Weather)
    requires w.temp == None
    ensures FileOutcome(from in source, big, verify, w) == FileOutcome(from in source, large, verify, w)
    ensures FileLeft(source, dest, from, to, big, w) == FileLeft(source, dest, from, to, large, w)
  {
  }

  datatype SourceStat = Absent | Unreadable | Directory | File(size: Option<nat>)

  /** The relay once both connections are open. */
  method Execute(source: Server, dest: Server, temps: TempDir, stat: SourceStat, listing: Option<seq<Entry>>,
                 sourcePath: string, destPath: string, verify: bool, weather: nat -> Weather)
    returns (outcome: Outcome)
    requires forall i :: weather(i).name !in temps.files
    requires source == dest && listing.Some? ==> PlainNames(listing.value)
    modifies dest`files, temps`files
    ensures temps.files == old(temps.files)
    ensures stat.Absent? || stat.Unreadable? ==> outcome == SourceError && dest.files == old(dest.files)
    ensures stat.File? ==>
      && outcome == FileOutcome(sourcePath in old(source.files), IsBig(stat.size), verify, weather(0))
      && dest.files == FileLeft(old(source.files), old(dest.files), sourcePath, destPath, IsBig(stat.size), weather(0))
    ensures stat.File? && outcome == Done ==>
      && sourcePath in old(source.files)
      && dest.files == old(dest.files)[destPath := old(source.files)[sourcePath]]
    ensures stat.File? ==> dest.files - {destPath} == old(dest.files) - {destPath}
    ensures stat.Directory? && listing == None ==> outcome == SourceError && dest.files == old(dest.files)
    ensures stat.Directory? && listing.Some? ==>
      var files, from, to := Regular(listing.value), RstripSlashes(sourcePath), RstripSlashes(destPath);
      && (outcome, dest.files) == DirectoryRun(source == dest, old(source.files), old(dest.files), from, to, files,
                                               verify, weather, |files|)
      && (outcome == Done ==>
            && AllPresent(old(source.files), from, files)
            && dest.files == Overlay(old(dest.files), old(source.files), from, to, files))
      && (outcome != Done ==> StoppedEarly(old(dest.files), old(source.files), from, to, files, dest.files))
  {
    match stat {
      case Absent => outcome := SourceError;
      case Unreadable => outcome := SourceError;
      case Directory =>
        var copied: nat;
        outcome, copied := TransferDirectory(source, dest, temps, listing, sourcePath, destPath, verify, weather);
      case File(size) =>
        outcome := TransferFile(source, dest, temps, sourcePath, destPath, size, verify, weather(0));
    }
  }
}
