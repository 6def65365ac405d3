/**
 * The plain-text report of a BLeak run: one section per ranking metric,
 * each listing the leak roots from the highest score down with their heap
 * paths and (up to ten frames of) their allocation stacks.
 */
module TextReports {
  import opened Wrappers
  import opened JsStrings
  import opened ReportTypes
  import opened LeakRoots
  import opened PathPrinting
  import Results
  import Sequences

  /** `l.scores[metric]`. */
  function Score(l: LeakRoot, m: Metric): int {
    match m
    case RetainedSize => l.scores.retainedSize
    case LeakShare => l.scores.leakShare
    case TransitiveClosureSize => l.scores.transitiveClosureSize
  }

  // ---------------------------------------------------------------------
  // Ranking: the stable sort with comparator `b.score - a.score`
  // ---------------------------------------------------------------------

  predicate SortedDesc(ls: seq<LeakRoot>, m: Metric) {
    forall i, j :: 0 <= i < j < |ls| ==> Score(ls[i], m) >= Score(ls[j], m)
  }

  /** `l` goes after every leak scoring at least as much, before the first scoring less. */
  function Insert(ls: seq<LeakRoot>, l: LeakRoot, m: Metric): (r: seq<LeakRoot>)
    ensures multiset(r) == multiset(ls) + multiset{l} && |r| == |ls| + 1
  {
    if ls == [] then [l]
    else if Score(ls[0], m) < Score(l, m) then [l] + ls
    else
      assert ls == [ls[0]] + ls[1..];
      [ls[0]] + Insert(ls[1..], l, m)
  }

  lemma SortedTail(ls: seq<LeakRoot>, m: Metric)
    requires ls != [] && SortedDesc(ls, m)
    ensures SortedDesc(ls[1..], m)
    ensures forall k :: 0 <= k < |ls| ==> Score(ls[k], m) <= Score(ls[0], m)
  {
  }

  lemma {:induction false} InsertSorted(ls: seq<LeakRoot>, l: LeakRoot, m: Metric)
    requires SortedDesc(ls, m)
    ensures SortedDesc(Insert(ls, l, m), m)
    ensures Insert(ls, l, m)[0] == l || (ls != [] && Insert(ls, l, m)[0] == ls[0])
    decreases |ls|
  {
    if ls == [] || Score(ls[0], m) < Score(l, m) {
      InsertSortedFront(ls, l, m);
    } else {
      SortedTail(ls, m);
      InsertSorted(ls[1..], l, m);
      SortedCons(ls[0], Insert(ls[1..], l, m), m);
      assert Insert(ls, l, m) == [ls[0]] + Insert(ls[1..], l, m);
    }
  }

  lemma InsertSortedFront(ls: seq<LeakRoot>, l: LeakRoot, m: Metric)
    requires SortedDesc(ls, m) && (ls == [] || Score(ls[0], m) < Score(l, m))
    ensures SortedDesc(Insert(ls, l, m), m) && Insert(ls, l, m)[0] == l
  {
    if ls != [] {
      SortedCons(l, ls, m);
    }
  }

  /** A leak scoring at least as much as the head of a sorted list may go in front of it. */
  lemma SortedCons(x: LeakRoot, rest: seq<LeakRoot>, m: Metric)
    requires SortedDesc(rest, m) && rest != [] && Score(rest[0], m) <= Score(x, m)
    ensures SortedDesc([x] + rest, m)
  {
    var r := [x] + rest;
    forall i, j | 0 <= i < j < |r|
      ensures Score(r[i], m) >= Score(r[j], m)
    {
      if i == 0 && j > 1 {
        assert Score(rest[0], m) >= Score(rest[j - 1], m);
      }
    }
  }

  /** `leaks.sort((a, b) => b.scores[m] - a.scores[m])`: a stable sort, highest score first. */
  function SortByScore(ls: seq<LeakRoot>, m: Metric): (r: seq<LeakRoot>)
    ensures multiset(r) == multiset(ls) && |r| == |ls|
  {
    if ls == [] then []
    else
      assert ls == ls[..|ls| - 1] + [ls[|ls| - 1]];
      Insert(SortByScore(ls[..|ls| - 1], m), ls[|ls| - 1], m)
  }

  /** The sort orders the leaks from the highest score down. */
  lemma {:induction false} SortByScoreSorted(ls: seq<LeakRoot>, m: Metric)
    ensures SortedDesc(SortByScore(ls, m), m)
    decreases |ls|
  {
    if ls != [] {
      SortByScoreSorted(ls[..|ls| - 1], m);
      InsertSorted(SortByScore(ls[..|ls| - 1], m), ls[|ls| - 1], m);
    }
  }

  /** A leak of the sorted list is one of the original leaks. */
  lemma SortByScoreMembers(ls: seq<LeakRoot>, m: Metric)
    ensures forall i :: 0 <= i < |SortByScore(ls, m)| ==> SortByScore(ls, m)[i] in ls
  {
    var r := SortByScore(ls, m);
    forall i | 0 <= i < |r|
      ensures r[i] in ls
    {
      assert r[i] in multiset(r);
    }
  }

  /** The leaks scoring exactly `v`, in order. */
  function WithScore(ls: seq<LeakRoot>, m: Metric, v: int): seq<LeakRoot> {
    if ls == [] then []
    else (if Score(ls[0], m) == v then [ls[0]] else []) + WithScore(ls[1..], m, v)
  }

  lemma {:induction false} WithScoreNone(ls: seq<LeakRoot>, m: Metric, v: int)
    requires forall k :: 0 <= k < |ls| ==> Score(ls[k], m) < v
    ensures WithScore(ls, m, v) == []
    decreases |ls|
  {
    if ls != [] {
      WithScoreNone(ls[1..], m, v);
    }
  }

  lemma {:induction false} WithScoreLast(ls: seq<LeakRoot>, m: Metric, v: int)
    requires ls != []
    ensures WithScore(ls, m, v)
      == WithScore(ls[..|ls| - 1], m, v) + (if Score(ls[|ls| - 1], m) == v then [ls[|ls| - 1]] else [])
    decreases |ls|
  {
    if |ls| > 1 {
      WithScoreLast(ls[1..], m, v);
      assert ls[1..][..|ls| - 2] == ls[..|ls| - 1][1..];
    }
  }

  /** Inserting a leak that outscores the whole (sorted) list puts it in front. */
  lemma InsertStableFront(ls: seq<LeakRoot>, l: LeakRoot, m: Metric, v: int)
    requires ls != [] && SortedDesc(ls, m) && Score(ls[0], m) < Score(l, m)
    ensures WithScore(Insert(ls, l, m), m, v) == WithScore(ls, m, v) + (if Score(l, m) == v then [l] else [])
  {
    var r := [l] + ls;
    assert r[1..] == ls;
    if Score(l, m) == v {
      SortedTail(ls, m);
      WithScoreNone(ls, m, v);
    }
  }

  lemma {:induction false} InsertStable(ls: seq<LeakRoot>, l: LeakRoot, m: Metric, v: int)
    requires SortedDesc(ls, m)
    ensures WithScore(Insert(ls, l, m), m, v) == WithScore(ls, m, v) + (if Score(l, m) == v then [l] else [])
    decreases |ls|
  {
    if ls == [] {
      assert WithScore([l], m, v) == (if Score(l, m) == v then [l] else []) + WithScore([], m, v);
    } else if Score(ls[0], m) < Score(l, m) {
      InsertStableFront(ls, l, m, v);
    } else {
      SortedTail(ls, m);
      InsertStable(ls[1..], l, m, v);
      InsertStableBehind(ls, l, m, v);
    }
  }

  /** Inserting behind the head: the head keeps its place before the leaks inserted into the rest. */
  lemma InsertStableBehind(ls: seq<LeakRoot>, l: LeakRoot, m: Metric, v: int)
    requires ls != [] && Score(ls[0], m) >= Score(l, m)
    requires WithScore(Insert(ls[1..], l, m), m, v) == WithScore(ls[1..], m, v) + (if Score(l, m) == v then [l] else [])
    ensures WithScore(Insert(ls, l, m), m, v) == WithScore(ls, m, v) + (if Score(l, m) == v then [l] else [])
  {
    var tail := ls[1..];
    var rest := Insert(tail, l, m);
    assert Insert(ls, l, m) == [ls[0]] + rest;
    assert ([ls[0]] + rest)[1..] == rest;
    var x := if Score(l, m) == v then [l] else [];
    var y := if Score(ls[0], m) == v then [ls[0]] else [];
    assert WithScore(Insert(ls, l, m), m, v) == y + (WithScore(tail, m, v) + x);
    Sequences.AppendAssoc(y, WithScore(tail, m, v), x);
  }

  /** The sort is stable: leaks of equal score keep their relative order. */
  lemma {:induction false} SortByScoreStable(ls: seq<LeakRoot>, m: Metric, v: int)
    ensures WithScore(SortByScore(ls, m), m, v) == WithScore(ls, m, v)
    decreases |ls|
  {
    if ls != [] {
      var init := ls[..|ls| - 1];
      SortByScoreStable(init, m, v);
      SortByScoreSorted(init, m);
      InsertStable(SortByScore(init, m), ls[|ls| - 1], m, v);
      WithScoreLast(ls, m, v);
    }
  }

  // ---------------------------------------------------------------------
  // The text
  // ---------------------------------------------------------------------

  /** All of the texts, or None if one of them is missing (its computation throws in the source). */
  function Collect(xs: seq<Option<string>>): (r: Option<seq<string>>)
    ensures r.Some? <==> forall k :: 0 <= k < |xs| ==> xs[k].Some?
    ensures r.Some? ==> |r.value| == |xs| && forall k :: 0 <= k < |xs| ==> r.value[k] == xs[k].value
  {
    if xs == [] then Some([])
    else
      match Collect(xs[..|xs| - 1])
      case None => None
      case Some(init) => if xs[|xs| - 1].None? then None else Some(init + [xs[|xs| - 1].value])
  }

  /** `[j] fn url:line:col` for frame id `f`, indented; None for an id naming no frame. */
  function FrameLine(frames: seq<StackFrame>, f: nat, j: nat): (r: Option<string>)
    ensures r.Some? <==> f < |frames|
  {
    if f < |frames| then
      var frame := frames[f];
      Some("        [" + NatToString(j) + "] " + frame.functionName + " " + frame.url + ":"
        + IntToString(frame.line) + ":" + IntToString(frame.col))
    else None
  }

  /** The number of frames of a stack the report shows. */
  function Shown(st: Stack): nat {
    if |st| < 10 then |st| else 10
  }

  /** The trailer of a stack longer than ten frames. */
  function MoreText(st: Stack): string {
    if |st| > 10 then "\n        (" + NatToString(|st| - 10) + " more...)" else ""
  }

  /** The lines of the frames a stack shows, one per frame id. */
  function FrameLines(frames: seq<StackFrame>, st: Stack): (r: seq<Option<string>>)
    ensures |r| == Shown(st) && forall j :: 0 <= j < |r| ==> r[j] == FrameLine(frames, st[j], j)
  {
    seq(Shown(st), j requires 0 <= j < Shown(st) => FrameLine(frames, st[j], j))
  }

  /** One stack of the report: a line for each of its first ten frames, then the count of the rest. */
  function StackText(frames: seq<StackFrame>, st: Stack): (r: Option<string>)
    ensures r.None? <==> exists j :: 0 <= j < Shown(st) && st[j] >= |frames|
  {
    var lines := Collect(FrameLines(frames, st));
    if lines.None? then
      var xs := FrameLines(frames, st);
      var j :| 0 <= j < |xs| && xs[j].None?;
      None
    else Some("\n" + Join(lines.value, "\n") + MoreText(st) + "\n")
  }

  /**
   * A stack's text shows at most ten frames: line `j` names the frame of
   * id `st[j]`, and a stack of more than ten frames ends with the number
   * left out.
   */
  lemma StackTextShape(frames: seq<StackFrame>, st: Stack)
    requires StackText(frames, st).Some?
    ensures exists lines: seq<string> ::
      |lines| <= 10 && |lines| == Shown(st)
      && (forall j :: 0 <= j < |lines| ==> st[j] < |frames| && lines[j] == FrameLine(frames, st[j], j).value)
      && StackText(frames, st).value == "\n" + Join(lines, "\n") + MoreText(st) + "\n"
  {
    var lines := Collect(FrameLines(frames, st)).value;
    assert |lines| <= 10 && |lines| == Shown(st);
    assert forall j :: 0 <= j < |lines| ==> st[j] < |frames| && lines[j] == FrameLine(frames, st[j], j).value;
    assert StackText(frames, st).value == "\n" + Join(lines, "\n") + MoreText(st) + "\n";
  }

  function PathTexts(paths: seq<seq<PathSegment>>): (r: seq<Option<string>>)
    ensures |r| == |paths| && forall i :: 0 <= i < |r| ==> r[i] == PathText(paths[i])
  {
    seq(|paths|, i requires 0 <= i < |paths| => PathText(paths[i]))
  }

  function StackTexts(frames: seq<StackFrame>, stacks: seq<Stack>): (r: seq<Option<string>>)
    ensures |r| == |stacks| && forall i :: 0 <= i < |r| ==> r[i] == StackText(frames, stacks[i])
  {
    seq(|stacks|, i requires 0 <= i < |stacks| => StackText(frames, stacks[i]))
  }

  function LeakHeader(rank: nat, score: int): string {
    "## LeakRoot Ranked " + NatToString(rank) + " [Score: " + IntToString(score) + "]"
  }

  /** `leakToString`: the header with rank and score, the heap paths, then the stacks. */
  function LeakText(frames: seq<StackFrame>, l: LeakRoot, m: Metric, rank: nat): (r: Option<string>)
    reads l
    ensures r.Some? ==> StartsWith(r.value, LeakHeader(rank, Score(l, m)) + "\n")
    ensures r.Some? <==>
      ((forall i :: 0 <= i < |l.paths| ==> PathText(l.paths[i]).Some?)
       && (forall i :: 0 <= i < |l.stacks| ==> StackText(frames, l.stacks[i]).Some?))
  {
    var paths := Collect(PathTexts(l.paths));
    var stacks := Collect(StackTexts(frames, l.stacks));
    if paths.None? || stacks.None? then None
    else
      var header := LeakHeader(rank, Score(l, m)) + "\n";
      var r := header + "\n### GC Paths\n\n* " + Join(paths.value, "\n* ")
        + "\n\n### Stack Traces Responsible\n\n" + Join(stacks.value, "\n") + "\n";
      assert r[..|header|] == header;
      Some(r)
  }

  function LeakTexts(frames: seq<StackFrame>, ls: seq<LeakRoot>, m: Metric): (r: seq<Option<string>>)
    reads ls
    ensures |r| == |ls| && forall i :: 0 <= i < |r| ==> r[i] == LeakText(frames, ls[i], m, i + 1)
  {
    seq(|ls|, i requires 0 <= i < |ls| reads ls => LeakText(frames, ls[i], m, i + 1))
  }

  /** `leaksToString`: the leaks in the given order, ranked 1, 2, ... */
  function LeaksText(frames: seq<StackFrame>, ls: seq<LeakRoot>, m: Metric): Option<string>
    reads ls
  {
    var texts := Collect(LeakTexts(frames, ls, m));
    if texts.None? then None else Some(Join(texts.value, "\n"))
  }

  /** Leak number `i` of a section appears as its part `i`, under rank `i + 1` with its own score. */
  lemma LeaksTextRanks(frames: seq<StackFrame>, ls: seq<LeakRoot>, m: Metric)
    requires LeaksText(frames, ls, m).Some?
    ensures exists parts: seq<string> ::
      |parts| == |ls| && LeaksText(frames, ls, m).value == Join(parts, "\n")
      && forall i :: 0 <= i < |ls| ==> StartsWith(parts[i], LeakHeader(i + 1, Score(ls[i], m)) + "\n")
  {
    var texts := LeakTexts(frames, ls, m);
    var parts := Collect(texts).value;
    forall i | 0 <= i < |ls|
      ensures StartsWith(parts[i], LeakHeader(i + 1, Score(ls[i], m)) + "\n")
    {
      assert parts[i] == LeakText(frames, ls[i], m, i + 1).value;
    }
  }

  function SectionHeading(name: string): string {
    "# LeakRoots Ranked By " + name + "\n"
  }

  /**
   * One section: its heading, then the leaks sorted by metric `m` from the
   * order `prev` the previous section left.
   */
  function SectionText(frames: seq<StackFrame>, name: string, prev: seq<LeakRoot>, m: Metric): (r: Option<string>)
    reads prev
    ensures r.Some? ==> StartsWith(r.value, SectionHeading(name))
  {
    SortByScoreMembers(prev, m);
    var body := LeaksText(frames, SortByScore(prev, m), m);
    if body.None? then None
    else
      StartsWithConcat(SectionHeading(name), body.value + "\n\n");
      Some(SectionHeading(name) + (body.value + "\n\n"))
  }

  /**
   * The leaks in the order each section lists them: the sort of each
   * section starts from the order the previous one left.
   */
  function SectionOrders(ls: seq<LeakRoot>): (r: seq<seq<LeakRoot>>)
    ensures |r| == 3
    ensures forall i :: 0 <= i < |r[0]| ==> r[0][i] in ls
    ensures forall i :: 0 <= i < |r[1]| ==> r[1][i] in ls
    ensures forall i :: 0 <= i < |r[2]| ==> r[2][i] in ls
  {
    var first := SortByScore(ls, LeakShare);
    var second := SortByScore(first, RetainedSize);
    var third := SortByScore(second, TransitiveClosureSize);
    SortByScoreMembers(ls, LeakShare);
    SortByScoreMembers(first, RetainedSize);
    SortByScoreMembers(second, TransitiveClosureSize);
    [first, second, third]
  }

  /** `TextReporter`: "No leaks found." without leaks, else the three sections joined by newlines. */
  function ReportText(frames: seq<StackFrame>, ls: seq<LeakRoot>): (r: Option<string>)
    reads ls, SectionOrders(ls)[0], SectionOrders(ls)[1] // the same leaks, reordered
    ensures ls == [] ==> r == Some("No leaks found.")
  {
    if ls == [] then Some("No leaks found.")
    else
      var a := SectionText(frames, "LeakShare", ls, LeakShare);
      var b := SectionText(frames, "Retained Size", SectionOrders(ls)[0], RetainedSize);
      var c := SectionText(frames, "Transitive Closure Size", SectionOrders(ls)[1], TransitiveClosureSize);
      if a.None? || b.None? || c.None? then None
      else Some(a.value + "\n" + b.value + "\n" + c.value)
  }

  /**
   * A report with leaks is made of three sections, headed for LeakShare,
   * Retained Size and Transitive Closure Size in that order; each lists
   * every leak once, from the highest score for its metric down, leaks of
   * equal score in the order the previous section left them.
   */
  lemma ReportSections(frames: seq<StackFrame>, ls: seq<LeakRoot>, v: int)
    requires ls != [] && ReportText(frames, ls).Some?
    ensures exists a, b, c ::
      ReportText(frames, ls).value == a + "\n" + b + "\n" + c
      && StartsWith(a, SectionHeading("LeakShare")) && StartsWith(b, SectionHeading("Retained Size"))
      && StartsWith(c, SectionHeading("Transitive Closure Size"))
    ensures var o := SectionOrders(ls);
      (multiset(o[0]) == multiset(ls) && SortedDesc(o[0], LeakShare)
       && WithScore(o[0], LeakShare, v) == WithScore(ls, LeakShare, v)
       && multiset(o[1]) == multiset(ls) && SortedDesc(o[1], RetainedSize)
       && WithScore(o[1], RetainedSize, v) == WithScore(o[0], RetainedSize, v)
       && multiset(o[2]) == multiset(ls) && SortedDesc(o[2], TransitiveClosureSize)
       && WithScore(o[2], TransitiveClosureSize, v) == WithScore(o[1], TransitiveClosureSize, v))
  {
    var o := SectionOrders(ls);
    var a := SectionText(frames, "LeakShare", ls, LeakShare).value;
    var b := SectionText(frames, "Retained Size", o[0], RetainedSize).value;
    var c := SectionText(frames, "Transitive Closure Size", o[1], TransitiveClosureSize).value;
    SortByScoreSorted(ls, LeakShare);
    SortByScoreSorted(o[0], RetainedSize);
    SortByScoreSorted(o[1], TransitiveClosureSize);
    SortByScoreStable(ls, LeakShare, v);
    SortByScoreStable(o[0], RetainedSize, v);
    SortByScoreStable(o[1], TransitiveClosureSize, v);
  }

  /** `results.leaks.sort(...)` by metric `m`: only the order of the leaks changes. */
  method SortLeaks(results: Results.BLeakResults, m: Metric)
    modifies results
    ensures results.leaks == SortByScore(old(results.leaks), m)
    ensures results.stackFrames == old(results.stackFrames) && results.sourceFiles == old(results.sourceFiles)
  {
    results.leaks := SortByScore(results.leaks, m);
  }

  /**
   * `TextReporter` on the results: the report of the leaks as they were.
   * Each section sorts `results.leaks` in place before printing it, so the
   * leaks are left in the order of the last section printed (or of the
   * section whose printing throws). The sections read only the leaks
   * themselves, so they are computed here on the sorted orders first.
   */
  method TextReporter(results: Results.BLeakResults) returns (r: Option<string>)
    modifies results
    ensures r == old(ReportText(results.stackFrames, results.leaks))
    ensures multiset(results.leaks) == multiset(old(results.leaks))
    ensures old(results.leaks) != [] && r.Some? ==> results.leaks == SectionOrders(old(results.leaks))[2]
    ensures results.stackFrames == old(results.stackFrames) && results.sourceFiles == old(results.sourceFiles)
  {
    if results.leaks == [] {
      return Some("No leaks found.");
    }
    var first := SortByScore(results.leaks, LeakShare);
    var second := SortByScore(first, RetainedSize);
    var a := SectionText(results.stackFrames, "LeakShare", results.leaks, LeakShare);
    var b := SectionText(results.stackFrames, "Retained Size", first, RetainedSize);
    var c := SectionText(results.stackFrames, "Transitive Closure Size", second, TransitiveClosureSize);
    r := if a.None? || b.None? || c.None? then None else Some(a.value + "\n" + b.value + "\n" + c.value);
    SortLeaks(results, LeakShare);
    if a.Some? {
      SortLeaks(results, RetainedSize);
      if b.Some? {
        SortLeaks(results, TransitiveClosureSize);
      }
    }
  }
}
