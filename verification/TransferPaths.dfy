/** Path checks of the transfer form, and the batch that joins what they accept. */
module TransferPaths {
  import opened Text

  const TRANSFERS_DIR := "/transfers"

  const MAX_UPLOAD_BYTES := 100 * 1024 * 1024

  predicate HasControl(s: string)
  {
    exists c | c in s :: c <= '\U{1F}'
  }

  /** `s.replace('\\', '/')`. */
  function Slashes(s: string): (r: string)
    ensures |r| == |s|
    ensures forall i | 0 <= i < |s| :: r[i] == if s[i] == '\\' then '/' else s[i]
  {
    seq(|s|, i requires 0 <= i < |s| => if s[i] == '\\' then '/' else s[i])
  }

  function Components(path: string): seq<string>
  {
    Split('/', Slashes(path))
  }

  predicate StartsWithDash(s: string)
  {
    s != "" && s[0] == '-'
  }

  predicate ValidPath(path: string)
  {
    !StartsWithDash(path) && !HasControl(path) && ".." !in Components(path)
  }

  predicate ValidName(name: string)
  {
    && name != "" && name != "." && name != ".."
    && '/' !in name && '\\' !in name
    && !StartsWithDash(name) && !HasControl(name)
  }

  // ------------------------------------------------------ what the checks accept

  /** The text stands in `s` at `i`, between separators or the ends. */
  predicate StandsAt(sep: char, s: string, part: string, i: nat)
  {
    && i + |part| <= |s| && s[i..i + |part|] == part
    && (i == 0 || s[i - 1] == sep) && (i + |part| == |s| || s[i + |part|] == sep)
  }

  /** The parts of a split are the texts that stand between separators. */
  lemma {:induction false} PartIff(sep: char, s: string, part: string)
    requires sep !in part
    ensures part in Split(sep, s) <==> exists i: nat :: StandsAt(sep, s, part, i)
    decreases |s|
  {
    hide StandsAt;
    var n := IndexOf(sep, s);
    if n == |s| {
      assert sep !in s;
      SplitWithoutSeparator(sep, s);
      OnlyPart(sep, s, part);
    } else {
      var head, tail := s[..n], s[n + 1..];
      assert s == head + [sep] + tail && sep !in head;
      SplitOfConcat(sep, head, tail);
      SplitWithoutSeparator(sep, head);
      PartIff(sep, tail, part);
      FirstOrLater(sep, s, part, n, tail);
    }
  }

  lemma OnlyPart(sep: char, s: string, part: string)
    requires sep !in s
    ensures part == s <==> exists i: nat :: StandsAt(sep, s, part, i)
  {
    if part == s { assert StandsAt(sep, s, part, 0); }
    if i: nat :| StandsAt(sep, s, part, i) {
      assert i == 0;
      assert s[..|part|] == part;
    }
  }

  lemma FirstOrLater(sep: char, s: string, part: string, n: nat, tail: string)
    requires sep !in part && n < |s| && s[n] == sep && tail == s[n + 1..] && forall i | 0 <= i < n :: s[i] != sep
    ensures (exists i: nat :: StandsAt(sep, s, part, i)) <==>
            part == s[..n] || exists i: nat :: StandsAt(sep, tail, part, i)
  {
    if part == s[..n] { assert StandsAt(sep, s, part, 0); }
    if i: nat :| StandsAt(sep, tail, part, i) {
      assert s[n + 1 + i..n + 1 + i + |part|] == tail[i..i + |part|];
      assert StandsAt(sep, s, part, n + 1 + i);
    }
    if i: nat :| StandsAt(sep, s, part, i) {
      if i <= n {
        assert i == 0 && s[..|part|] == part;
      } else {
        assert tail[i - n - 1..i - n - 1 + |part|] == s[i..i + |part|];
        assert StandsAt(sep, tail, part, i - n - 1);
      }
    }
  }

  predicate IsSeparator(c: char)
  {
    c == '/' || c == '\\'
  }

  /** Two dots that are a whole component of the path. */
  predicate ClimbsAt(path: string, i: nat)
  {
    && i + 2 <= |path| && path[i] == '.' && path[i + 1] == '.'
    && (i == 0 || IsSeparator(path[i - 1])) && (i + 2 == |path| || IsSeparator(path[i + 2]))
  }

  lemma ClimbsIff(path: string)
    ensures ".." in Components(path) <==> exists i: nat :: ClimbsAt(path, i)
  {
    var s := Slashes(path);
    PartIff('/', s, "..");
    forall i: nat ensures StandsAt('/', s, "..", i) <==> ClimbsAt(path, i) {
      if i + 2 <= |s| { assert s[i..i + 2] == [s[i], s[i + 1]]; }
    }
  }

  /** A path is accepted exactly when it does not begin with a dash, holds no control
      character, and has no component of two dots, whichever slash it is written with. */
  lemma PathIsAcceptedIff(path: string)
    ensures ValidPath(path) <==>
            && (path == "" || path[0] != '-')
            && (forall i | 0 <= i < |path| :: path[i] >= ' ')
            && !exists i: nat :: ClimbsAt(path, i)
  {
    ClimbsIff(path);
    hide Components;
    assert forall i | 0 <= i < |path| :: path[i] in path;
  }

  /** A name is accepted exactly when it is not empty nor one of the two dot names,
      does not begin with a dash, and holds neither slash nor control character. */
  lemma NameIsAcceptedIff(name: string)
    ensures ValidName(name) <==>
            && name !in {"", ".", ".."} && name[0] != '-'
            && forall i | 0 <= i < |name| :: name[i] >= ' ' && !IsSeparator(name[i])
  {
    assert forall i | 0 <= i < |name| :: name[i] in name;
  }

  predicate IsDirectory(path: string)
  {
    path != "" && path[|path| - 1] == '/'
  }

  lemma SlashesOfConcat(a: string, b: string)
    ensures Slashes(a + b) == Slashes(a) + Slashes(b)
  {
  }

  /** The parts with `c` in front of the first one. */
  function Prepended(c: char, parts: seq<string>): seq<string>
    requires parts != []
  {
    [[c] + parts[0]] + parts[1..]
  }

  lemma PrependToExtended(c: char, parts: seq<string>, b: string)
    requires parts != []
    ensures var n, more := |parts| - 1, Prepended(c, parts);
            Prepended(c, parts[..n] + [parts[n] + b]) == more[..n] + [more[n] + b]
  {
    var n := |parts| - 1;
    if n == 0 {
      assert [c] + (parts[0] + b) == [c] + parts[0] + b;
    } else {
      assert (parts[..n] + [parts[n] + b])[0] == parts[0];
    }
  }

  lemma {:induction false} SplitOfSuffix(a: string, b: string)
    requires '/' !in b
    ensures var parts := Split('/', a);
            Split('/', a + b) == parts[..|parts| - 1] + [parts[|parts| - 1] + b]
  {
    if a == "" {
      assert a + b == b;
      SplitWithoutSeparator('/', b);
    } else {
      assert (a + b)[1..] == a[1..] + b && (a + b)[0] == a[0];
      SplitOfSuffix(a[1..], b);
      var tail := Split('/', a[1..]);
      if a[0] == '/' {
        assert Split('/', a) == [""] + tail;
      } else {
        assert Split('/', a) == Prepended(a[0], tail);
        PrependToExtended(a[0], tail, b);
      }
    }
  }

  /** Appending a name without separators changes the last component only. */
  lemma ComponentsOfJoin(dest: string, name: string)
    requires '/' !in name && '\\' !in name
    ensures var parts := Components(dest);
            Components(dest + name) == parts[..|parts| - 1] + [parts[|parts| - 1] + name]
  {
    SlashesOfConcat(dest, name);
    assert Slashes(name) == name;
    SplitOfSuffix(Slashes(dest), name);
  }

  /** A destination and a file name that pass their checks join to a destination
      that passes; the name need not follow a slash. */
  lemma JoinIsValid(dest: string, name: string)
    requires ValidPath(dest) && ValidName(name)
    ensures ValidPath(dest + name)
  {
    ComponentsOfJoin(dest, name);
    var parts := Components(dest);
    var last := parts[|parts| - 1];
    NoDotDot(last, name);
    NoControl(dest, name);
  }

  lemma NoDotDot(front: string, name: string)
    requires name != "" && name != "." && name != ".."
    ensures front + name != ".."
  {
    assert name == (front + name)[|front|..];
    if |front| == 0 { assert front + name == name; }
  }

  lemma NoControl(a: string, b: string)
    ensures HasControl(a + b) <==> HasControl(a) || HasControl(b)
  {
    if HasControl(a) {
      var c :| c in a && c <= '\U{1F}';
      assert c in a + b;
    }
    if HasControl(b) {
      var c :| c in b && c <= '\U{1F}';
      assert c in a + b;
    }
  }

  /** On a directory the last component is the file name and the others are the
      directory's, so that the join passes exactly when both parts have no control
      character, the directory passes and the name is not "..". */
  lemma JoinOnDirectory(dest: string, name: string)
    requires IsDirectory(dest) && '/' !in name && '\\' !in name
    ensures var parts := Components(dest);
            && parts[|parts| - 1] == "" && Components(dest + name) == parts[..|parts| - 1] + [name]
    ensures ValidPath(dest + name) <==> ValidPath(dest) && !HasControl(name) && name != ".."
  {
    ComponentsOfJoin(dest, name);
    var parts := Components(dest);
    LastComponentOfDirectory(dest);
    assert "" + name == name;
    NoControl(dest, name);
    assert parts == parts[..|parts| - 1] + [""];
  }

  lemma LastComponentOfDirectory(dest: string)
    requires IsDirectory(dest)
    ensures var parts := Components(dest); parts[|parts| - 1] == ""
  {
    var s := Slashes(dest);
    var front := s[..|s| - 1];
    assert s == front + ['/'] + "";
    SplitOfConcat('/', front, "");
  }

  lemma JoinIsInjective(dest: string, a: string, b: string)
    requires dest + a == dest + b
    ensures a == b
  {
    assert a == (dest + a)[|dest|..] == (dest + b)[|dest|..] == b;
  }

  // ------------------------------------------------------------ transfer_create

  datatype Upload = Upload(name: string, content: string)
  datatype NewJob = NewJob(sourcePath: string, destinationPath: string)

  /** What the form accepts: plain names, a destination, and for several files a
      destination that is a directory. */
  predicate FormValid(uploads: seq<Upload>, dest: string)
  {
    && uploads != [] && dest != ""
    && (forall u | u in uploads :: |u.content| <= MAX_UPLOAD_BYTES && ValidName(u.name))
    && ValidPath(dest)
    && (|uploads| > 1 ==> IsDirectory(dest))
  }

  function LocalPath(name: string): string
  {
    TRANSFERS_DIR + "/" + name
  }

  function JobFor(uploads: seq<Upload>, dest: string, i: nat): NewJob
    requires i < |uploads|
  {
    NewJob(LocalPath(uploads[i].name), if |uploads| == 1 then dest else dest + uploads[i].name)
  }

  /** The local files after writing these uploads in order. */
  function Written(files: map<string, string>, uploads: seq<Upload>): map<string, string>
  {
    if uploads == [] then files
    else
      var last := uploads[|uploads| - 1];
      Written(files, uploads[..|uploads| - 1])[LocalPath(last.name) := last.content]
  }

  lemma NothingWritten(files: map<string, string>, uploads: seq<Upload>)
    ensures Written(files, uploads[..0]) == files
  {
  }

  lemma OneMoreUpload(files: map<string, string>, uploads: seq<Upload>, dest: string, i: nat)
    requires i < |uploads|
    ensures Written(files, uploads[..i + 1]) == Written(files, uploads[..i])[LocalPath(uploads[i].name) := uploads[i].content]
    ensures JobFor(uploads, dest, i)
         == NewJob(LocalPath(uploads[i].name), if |uploads| == 1 then dest else dest + uploads[i].name)
  {
    hide LocalPath;
    assert uploads[..i + 1][..i] == uploads[..i];
  }

  lemma JobPaths(uploads: seq<Upload>, dest: string, i: nat)
    requires i < |uploads|
    ensures var job, name := JobFor(uploads, dest, i), uploads[i].name;
            && job.sourcePath == "/transfers/" + name
            && job.destinationPath == if |uploads| == 1 then dest else dest + name
  {
    assert TRANSFERS_DIR + "/" == "/transfers/";
  }

  /** The numbers of `n` new jobs. */
  function Numbers(first: nat, n: nat): (numbers: seq<nat>)
    ensures |numbers| == n && forall i | 0 <= i < n :: numbers[i] == first + i
  {
    seq(n, i => first + i)
  }

  lemma NoNumbers(sent: seq<nat>, first: nat)
    ensures sent + Numbers(first, 0) == sent
  {
  }

  lemma NextNumber(first: nat, n: nat)
    ensures Numbers(first, n + 1) == Numbers(first, n) + [first + n]
  {
  }

  /** Jobs, the local files, and the job numbers sent to the queue. */
  class Transfers {
    var files: map<string, string>
    var jobs: seq<NewJob>
    var sent: seq<nat>

    constructor ()
      ensures files == map[] && jobs == [] && sent == []
    {
      files, jobs, sent := map[], [], [];
    }

    /** `failing` is the first upload that cannot be written, if any; what is left
        at its path is unknown. Jobs are created for all uploads or for none, and
        each is sent to the queue once, after it was created. */
    method Create(uploads: seq<Upload>, dest: string, failing: Option<nat>, left: Option<string>) returns (ok: bool)
      modifies this
      ensures ok <==>
        && 0 < |uploads| && (failing.Some? ==> failing.value >= |uploads|)
        && dest != "" && ValidPath(dest) && (|uploads| > 1 ==> dest[|dest| - 1] == '/')
        && forall u | u in uploads :: |u.content| <= 104_857_600 && ValidName(u.name)
      ensures ok ==>
        && |jobs| == |old(jobs)| + |uploads| && old(jobs) <= jobs
        && (forall i | 0 <= i < |uploads| ::
              && jobs[|old(jobs)| + i] == JobFor(uploads, dest, i)
              && jobs[|old(jobs)| + i].sourcePath == "/transfers/" + uploads[i].name
              && jobs[|old(jobs)| + i].destinationPath == (if |uploads| == 1 then dest else dest + uploads[i].name))
        && files == Written(old(files), uploads)
        && sent == old(sent) + Numbers(|old(jobs)|, |uploads|)
      ensures !ok ==> jobs == old(jobs) && sent == old(sent)
      ensures !FormValid(uploads, dest) ==> files == old(files)
    {
      hide LocalPath, JobFor, Written, Numbers, ValidPath, ValidName;
      if !FormValid(uploads, dest) { return false; }
      NothingWritten(files, uploads);
      var toCreate: seq<NewJob> := [];
      for i := 0 to |uploads|
        invariant |toCreate| == i && forall j | 0 <= j < i :: toCreate[j] == JobFor(uploads, dest, j)
        invariant files == Written(old(files), uploads[..i])
        invariant jobs == old(jobs) && sent == old(sent)
        invariant failing.Some? ==> i <= failing.value
      {
        var upload := uploads[i];
        var localPath := LocalPath(upload.name);
        if failing == Some(i) {
          if left.Some? { files := files[localPath := left.value]; }
          return false;
        }
        OneMoreUpload(old(files), uploads, dest, i);
        files := files[localPath := upload.content];
        toCreate := toCreate + [NewJob(localPath, if |uploads| == 1 then dest else dest + upload.name)];
      }
      assert uploads[..|uploads|] == uploads;
      var first := |jobs|;
      jobs := jobs + toCreate;
      NoNumbers(sent, first);
      for i := 0 to |uploads|
        invariant sent == old(sent) + Numbers(first, i)
        invariant jobs == old(jobs) + toCreate && files == Written(old(files), uploads)
      {
        NextNumber(first, i);
        Associative(old(sent), Numbers(first, i), [first + i]);
        sent := sent + [first + i];
      }
      forall i | 0 <= i < |uploads| { JobPaths(uploads, dest, i); }
      ok := true;
    }
  }

  /** Every job that a form creates has a destination that passes the path check;
      in a batch, uploads of different names get different destinations and
      different local files, and each job's local file holds its own upload. */
  lemma CreatedJobs(files: map<string, string>, uploads: seq<Upload>, dest: string, i: nat)
    requires FormValid(uploads, dest) && i < |uploads|
    ensures ValidPath(JobFor(uploads, dest, i).destinationPath)
    ensures forall j | 0 <= j < |uploads| && uploads[j].name != uploads[i].name ::
              && JobFor(uploads, dest, i).destinationPath != JobFor(uploads, dest, j).destinationPath
              && JobFor(uploads, dest, i).sourcePath != JobFor(uploads, dest, j).sourcePath
    ensures (forall j | i < j < |uploads| :: uploads[j].name != uploads[i].name) ==>
              var path := JobFor(uploads, dest, i).sourcePath;
              path in Written(files, uploads) && Written(files, uploads)[path] == uploads[i].content
  {
    var name := uploads[i].name;
    assert uploads[i] in uploads;
    if |uploads| > 1 { JoinIsValid(dest, name); }
    forall j | 0 <= j < |uploads| && uploads[j].name != name
      ensures dest + name != dest + uploads[j].name && LocalPath(name) != LocalPath(uploads[j].name)
    {
      if dest + name == dest + uploads[j].name { JoinIsInjective(dest, name, uploads[j].name); }
      if LocalPath(name) == LocalPath(uploads[j].name) {
        JoinIsInjective(TRANSFERS_DIR + "/", name, uploads[j].name);
      }
    }
    if forall j | i < j < |uploads| :: uploads[j].name != name {
      LatestWriteStays(files, uploads, i);
    }
  }

  lemma {:induction false} LatestWriteStays(files: map<string, string>, uploads: seq<Upload>, i: nat)
    requires i < |uploads| && forall j | i < j < |uploads| :: uploads[j].name != uploads[i].name
    ensures var path := LocalPath(uploads[i].name);
            path in Written(files, uploads) && Written(files, uploads)[path] == uploads[i].content
  {
    if i < |uploads| - 1 {
      LatestWriteStays(files, uploads[..|uploads| - 1], i);
      if LocalPath(uploads[i].name) == LocalPath(uploads[|uploads| - 1].name) {
        JoinIsInjective(TRANSFERS_DIR + "/", uploads[i].name, uploads[|uploads| - 1].name);
      }
    }
  }
}
