/** Which tables a relay names as copied without a profile. */
module Warnings {

  /** The named tables after some lines: none twice, and exactly those that `passes`
      holds of for some line, unless the relay was cut short. */
  ghost predicate WarnedRightly(passes: (string, string) -> bool, lines: seq<string>, named: seq<string>, cut: bool)
  {
    && (forall i, j | 0 <= i < j < |named| :: named[i] != named[j])
    && (forall t | t in named :: exists line :: line in lines && passes(line, t))
    && (!cut ==> forall line, t | line in lines && passes(line, t) :: t in named)
  }

  /** A line names the table that it passes, unless that was named before. */
  ghost predicate WarnsOnce(passes: (string, string) -> bool, line: string, was: seq<string>, now: seq<string>)
  {
    || (now == was && forall t | passes(line, t) :: t in was)
    || exists t :: t !in was && passes(line, t) && now == was + [t]
  }

  lemma NothingNamed(passes: (string, string) -> bool)
    ensures WarnedRightly(passes, [], [], false)
  {
  }

  lemma NamedOnce(passes: (string, string) -> bool, lines: seq<string>, line: string, was: seq<string>, now: seq<string>,
                  cut: bool)
    requires forall t, u | passes(line, t) && passes(line, u) :: t == u
    requires WarnedRightly(passes, lines, was, false) && WarnsOnce(passes, line, was, now)
    ensures WarnedRightly(passes, lines + [line], now, cut)
  {
    forall t | t in now ensures exists l :: l in lines + [line] && passes(l, t) {
      if t in was {
        var l :| l in lines && passes(l, t);
        assert l in lines + [line];
      } else {
        assert line in lines + [line];
      }
    }
  }

  lemma CutStaysRight(passes: (string, string) -> bool, lines: seq<string>, line: string, named: seq<string>)
    requires WarnedRightly(passes, lines, named, true)
    ensures WarnedRightly(passes, lines + [line], named, true)
  {
    forall t | t in named ensures exists l :: l in lines + [line] && passes(l, t) {
      var l :| l in lines && passes(l, t);
      assert l in lines + [line];
    }
  }
}
