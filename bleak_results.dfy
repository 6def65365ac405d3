/**
 * The results of a BLeak run: leak roots, the stack frames their
 * allocation stacks point into, the source files of those frames and
 * heap statistics; and `compact`, which deduplicates frames and stacks and
 * drops source files no frame refers to.
 */
module Results {
  import opened Wrappers
  import opened JsStrings
  import opened Sequences
  import opened ReportTypes
  import opened LeakRoots
  import GrowthTraversal

  /** `SnapshotSizeSummary`. */
  type SizeSummary = GrowthTraversal.SizeSummary

  /** The heap sizes of one ranking-evaluation run, one per snapshot. */
  type RunStats = seq<SizeSummary>

  /**
   * Per ranking metric, per number of fixed leaks, per run number. The
   * arrays can have holes (None): runs are stored at their run number.
   */
  type MetricStats = seq<Option<seq<Option<RunStats>>>>

  /** `RankingEvaluation`: heap sizes per ranking, per number of fixed leaks, per run. */
  datatype RankingEvaluation = RankingEvaluation(
    transitiveClosureSize: MetricStats,
    leakShare: MetricStats,
    retainedSize: MetricStats)

  const EmptyRankingEvaluation := RankingEvaluation([], [], [])

  /**
   * A source-file repository. A URL can be present with an undefined
   * entry (None), which `compact` creates for a frame whose URL had no file.
   */
  type SourceFiles = map<string, Option<SourceFileEntry>>

  function LookupFile(files: SourceFiles, url: string): Option<SourceFileEntry> {
    if url in files then files[url] else None
  }

  /** `IBLeakResults`: the JSON form of the results. */
  datatype ResultsRecord = ResultsRecord(
    leaks: seq<LeakRootRecord>,
    stackFrames: seq<StackFrame>,
    sourceFiles: SourceFiles,
    heapStats: seq<SizeSummary>,
    rankingEvaluation: RankingEvaluation)

  // ---------------------------------------------------------------------
  // Keys
  // ---------------------------------------------------------------------

  /** `sfKey`: the frame's five fields joined by ";". */
  function FrameKey(sf: StackFrame): string {
    Join([sf.url, IntToString(sf.line), IntToString(sf.col), sf.functionName, sf.source], ";")
  }

  /** `stackToString`: the frame ids joined by ",". */
  function StackKey(st: Stack): string {
    Join(NatStrings(st), ",")
  }

  /** Stacks of frame ids are told apart by their key. */
  lemma StackKeyInjective(a: Stack, b: Stack)
    ensures StackKey(a) == StackKey(b) <==> a == b
  {
    if StackKey(a) == StackKey(b) {
      JoinNatsInjective(a, b, ',');
    }
  }

  // ---------------------------------------------------------------------
  // Frame deduplication, as written: through the ";"-joined key
  // ---------------------------------------------------------------------

  /** The frames `compact` keeps as written: the first frame with each key. */
  function CompactFramesAsWritten(frames: seq<StackFrame>): (r: seq<StackFrame>)
    ensures Distinct(KeysOf(r, FrameKey))
  {
    DedupBy(frames, FrameKey)
  }

  /** `sfLookup` as written: the new id of the first kept frame with the same key. */
  function LookupAsWritten(frames: seq<StackFrame>, id: nat): (r: nat)
    requires id < |frames|
    ensures r < |CompactFramesAsWritten(frames)|
    ensures FrameKey(CompactFramesAsWritten(frames)[r]) == FrameKey(frames[id])
  {
    DedupByKeys(frames, FrameKey);
    FirstIndexOf(KeysOf(CompactFramesAsWritten(frames), FrameKey), FrameKey(frames[id]))
  }

  lemma JoinFive(a: string, b: string, c: string, d: string, e: string, sep: string)
    ensures Join([a, b, c, d, e], sep) == a + sep + b + sep + c + sep + d + sep + e
  {
    assert [a, b][..1] == [a];
    assert [a, b, c][..2] == [a, b];
    assert [a, b, c, d][..3] == [a, b, c];
    assert [a, b, c, d, e][..4] == [a, b, c, d];
    assert Join([a, b], sep) == a + sep + b;
    assert Join([a, b, c], sep) == a + sep + b + sep + c;
    assert Join([a, b, c, d], sep) == a + sep + b + sep + c + sep + d;
  }

  /** Two different frames whose fields join to the same key "a;1;2;3;f;s". */
  const CollidingA := StackFrame("a;1", 2, 3, "f", "s")
  const CollidingB := StackFrame("a", 1, 2, "3;f", "s")

  lemma FrameKeyCollision()
    ensures CollidingA != CollidingB
    ensures FrameKey(CollidingA) == FrameKey(CollidingB)
  {
    CollidingAKey();
    CollidingBKey();
  }

  lemma CollidingAKey()
    ensures FrameKey(CollidingA) == "a;1;2;3;f;s"
  {
    assert IntToString(2) == "2" && IntToString(3) == "3";
    JoinFive("a;1", "2", "3", "f", "s", ";");
    assert "a;1" + ";" + "2" + ";" + "3" + ";" + "f" + ";" + "s" == "a;1;2;3;f;s";
  }

  lemma CollidingBKey()
    ensures FrameKey(CollidingB) == "a;1;2;3;f;s"
  {
    assert IntToString(1) == "1" && IntToString(2) == "2";
    JoinFive("a", "1", "2", "3;f", "s", ";");
    assert "a" + ";" + "1" + ";" + "2" + ";" + "3;f" + ";" + "s" == "a;1;2;3;f;s";
  }

  /**
   * As written, compacting [CollidingA, CollidingB] keeps only the first
   * frame, and a stack that pointed at the second now points at the first:
   * the remapped frame differs from the original.
   */
  lemma CompactAsWrittenMisattributes()
    ensures var frames := [CollidingA, CollidingB];
      CompactFramesAsWritten(frames) == [CollidingA]
      && LookupAsWritten(frames, 1) == 0
      && CompactFramesAsWritten(frames)[LookupAsWritten(frames, 1)] != frames[1]
  {
    FrameKeyCollision();
    var frames := [CollidingA, CollidingB];
    assert frames[..1] == [CollidingA];
    assert DedupBy(frames[..1], FrameKey) == [CollidingA] by {
      assert frames[..1][..0] == [];
    }
    assert KeysOf([CollidingA], FrameKey) == [FrameKey(CollidingA)];
  }

  // ---------------------------------------------------------------------
  // Frame deduplication, corrected: by the frame itself
  // ---------------------------------------------------------------------

  /** The new id of old frame `id`: the position of an equal frame among the kept ones. */
  function NewFrameId(frames: seq<StackFrame>, id: nat): (r: nat)
    requires id < |frames|
    ensures r < |Dedup(frames)| && Dedup(frames)[r] == frames[id]
  {
    DedupMembers(frames);
    FirstIndexOf(Dedup(frames), frames[id])
  }

  predicate StackInRange(frames: seq<StackFrame>, st: Stack) {
    forall k :: 0 <= k < |st| ==> st[k] < |frames|
  }

  /** `oldStack.map(sfLookup)`. */
  function RemapStack(frames: seq<StackFrame>, st: Stack): (r: Stack)
    requires StackInRange(frames, st)
    ensures |r| == |st| && StackInRange(Dedup(frames), r)
  {
    seq(|st|, k requires 0 <= k < |st| => NewFrameId(frames, st[k]))
  }

  function RemapStacks(frames: seq<StackFrame>, sts: seq<Stack>): (r: seq<Stack>)
    requires forall i :: 0 <= i < |sts| ==> StackInRange(frames, sts[i])
    ensures |r| == |sts| && forall i :: 0 <= i < |sts| ==> r[i] == RemapStack(frames, sts[i])
  {
    seq(|sts|, i requires 0 <= i < |sts| => RemapStack(frames, sts[i]))
  }

  /** `stackToFrames` over a frame array: each id's frame, undefined (None) past the end. */
  function FramesOf(frames: seq<StackFrame>, st: Stack): (r: seq<Option<StackFrame>>)
    ensures |r| == |st|
    ensures forall k :: 0 <= k < |st| ==> (r[k].Some? <==> st[k] < |frames|)
    ensures forall k :: 0 <= k < |st| && st[k] < |frames| ==> r[k] == Some(frames[st[k]])
  {
    seq(|st|, k requires 0 <= k < |st| => if st[k] < |frames| then Some(frames[st[k]]) else None)
  }

  /** A remapped stack shows the same frames, in the same order, as the original. */
  lemma CompactKeepsFrames(frames: seq<StackFrame>, st: Stack)
    requires StackInRange(frames, st)
    ensures FramesOf(Dedup(frames), RemapStack(frames, st)) == FramesOf(frames, st)
  {
  }

  /** The source files `compact` keeps: one per URL of a newly kept frame, looked up in the old repository. */
  function KeptSources(frames: seq<StackFrame>, files: SourceFiles): SourceFiles {
    if frames == [] then map[]
    else
      var init, sf := frames[..|frames| - 1], frames[|frames| - 1];
      var m := KeptSources(init, files);
      if sf in init then m else m[sf.url := LookupFile(files, sf.url)]
  }

  /** The kept repository is keyed by exactly the URLs of the frames, each with its old entry. */
  lemma {:induction false} KeptSourcesSpec(frames: seq<StackFrame>, files: SourceFiles)
    ensures forall u :: u in KeptSources(frames, files) <==> exists f :: f in frames && f.url == u
    ensures forall u :: u in KeptSources(frames, files) ==> KeptSources(frames, files)[u] == LookupFile(files, u)
    decreases |frames|
  {
    if frames != [] {
      var init, sf := frames[..|frames| - 1], frames[|frames| - 1];
      KeptSourcesSpec(init, files);
      assert frames == init + [sf];
      forall u | exists f :: f in frames && f.url == u
        ensures u in KeptSources(frames, files)
      {
        var f :| f in frames && f.url == u;
        if f != sf {
          assert f in init;
        } else if sf in init {
          assert exists g :: g in init && g.url == u;
        }
      }
    }
  }

  /** One more frame: `KeptSources` and `Dedup` extend only when the frame is new. */
  lemma KeptSourcesStep(frames: seq<StackFrame>, files: SourceFiles, i: nat)
    requires i < |frames|
    ensures KeptSources(frames[..i + 1], files) ==
      if frames[i] in frames[..i] then KeptSources(frames[..i], files)
      else KeptSources(frames[..i], files)[frames[i].url := LookupFile(files, frames[i].url)]
    ensures Dedup(frames[..i + 1]) ==
      if frames[i] in frames[..i] then Dedup(frames[..i]) else Dedup(frames[..i]) + [frames[i]]
  {
    assert frames[..i + 1][..i] == frames[..i] && frames[..i + 1][i] == frames[i];
    DedupMembers(frames[..i]);
  }

  /**
   * `sfMap` maps exactly the frames of `fs`, each to the index of an equal
   * frame in `kept`.
   */
  ghost predicate IndexesFrames(sfMap: map<StackFrame, nat>, fs: seq<StackFrame>, kept: seq<StackFrame>) {
    (forall f :: f in sfMap <==> f in fs)
    && (forall f :: f in sfMap ==> sfMap[f] < |kept| && kept[sfMap[f]] == f)
  }

  lemma IndexesFramesStep(sfMap: map<StackFrame, nat>, frames: seq<StackFrame>, kept: seq<StackFrame>, i: nat)
    requires i < |frames| && IndexesFrames(sfMap, frames[..i], kept)
    ensures frames[i] in sfMap <==> frames[i] in frames[..i]
    ensures frames[i] in sfMap ==> IndexesFrames(sfMap, frames[..i + 1], kept)
    ensures frames[i] !in sfMap ==>
      IndexesFrames(sfMap[frames[i] := |kept|], frames[..i + 1], kept + [frames[i]])
  {
    assert frames[..i + 1] == frames[..i] + [frames[i]];
  }

  /** Compacting a frame list, as the first loop of `compact` does (with the corrected key). */
  method CompactFrames(frames: seq<StackFrame>, files: SourceFiles)
    returns (newFrames: seq<StackFrame>, sfMap: map<StackFrame, nat>, newFiles: SourceFiles)
    ensures newFrames == Dedup(frames)
    ensures IndexesFrames(sfMap, frames, newFrames)
    ensures newFiles == KeptSources(frames, files)
  {
    newFrames, sfMap, newFiles := [], map[], map[];
    var i := 0;
    while i < |frames|
      invariant 0 <= i <= |frames|
      invariant newFrames == Dedup(frames[..i])
      invariant IndexesFrames(sfMap, frames[..i], newFrames)
      invariant newFiles == KeptSources(frames[..i], files)
    {
      var sf := frames[i];
      KeptSourcesStep(frames, files, i);
      IndexesFramesStep(sfMap, frames, newFrames, i);
      if sf !in sfMap {
        sfMap := sfMap[sf := |newFrames|];
        newFrames := newFrames + [sf];
        newFiles := newFiles[sf.url := LookupFile(files, sf.url)];
      }
      i := i + 1;
    }
    assert frames[..i] == frames;
  }

  /** `sfLookup` through the frame map equals the specified new id. */
  lemma LookupIsNewFrameId(frames: seq<StackFrame>, sfMap: map<StackFrame, nat>, id: nat)
    requires id < |frames|
    requires IndexesFrames(sfMap, frames, Dedup(frames))
    ensures frames[id] in sfMap && sfMap[frames[id]] == NewFrameId(frames, id)
  {
    FirstIndexOfDistinct(Dedup(frames), sfMap[frames[id]]);
  }

  /**
   * The stacks of one leak after `compact`: each remapped, and repeated
   * stacks (compared by their ","-joined key) dropped.
   */
  method CompactStacks(frames: seq<StackFrame>, sfMap: map<StackFrame, nat>, oldStacks: seq<Stack>)
    returns (newStacks: seq<Stack>)
    requires IndexesFrames(sfMap, frames, Dedup(frames))
    requires forall i :: 0 <= i < |oldStacks| ==> StackInRange(frames, oldStacks[i])
    ensures newStacks == Dedup(RemapStacks(frames, oldStacks))
  {
    newStacks := [];
    var foundStacks: set<string> := {};
    var i := 0;
    ghost var remapped := RemapStacks(frames, oldStacks);
    while i < |oldStacks|
      invariant 0 <= i <= |oldStacks|
      invariant newStacks == Dedup(remapped[..i])
      invariant foundStacks == StackKeys(newStacks)
    {
      var newStack := RemapWith(frames, sfMap, oldStacks[i]);
      var stackStr := StackKey(newStack);
      assert newStack == remapped[i];
      DedupStep(remapped, i);
      StackKeysMember(newStacks, newStack);
      if stackStr !in foundStacks {
        assert Dedup(remapped[..i + 1]) == newStacks + [newStack];
        foundStacks := foundStacks + {stackStr};
        newStacks := newStacks + [newStack];
      } else {
        assert Dedup(remapped[..i + 1]) == newStacks;
      }
      i := i + 1;
    }
    assert remapped[..i] == remapped;
  }

  /** The keys of a list of stacks: the `foundStacks` set. */
  function StackKeys(sts: seq<Stack>): set<string> {
    set st | st in sts :: StackKey(st)
  }

  /** A stack's key is among the keys of a list exactly when the stack is in the list. */
  lemma StackKeysMember(sts: seq<Stack>, st: Stack)
    ensures StackKey(st) in StackKeys(sts) <==> st in sts
    ensures StackKeys(sts + [st]) == StackKeys(sts) + {StackKey(st)}
  {
    if StackKey(st) in StackKeys(sts) {
      var t :| t in sts && StackKey(t) == StackKey(st);
      StackKeyInjective(t, st);
    }
  }

  /** `oldStack.map(sfLookup)` through the frame map. */
  function RemapWith(frames: seq<StackFrame>, sfMap: map<StackFrame, nat>, st: Stack): (r: Stack)
    requires IndexesFrames(sfMap, frames, Dedup(frames))
    requires StackInRange(frames, st)
    ensures r == RemapStack(frames, st)
  {
    var r := seq(|st|, k requires 0 <= k < |st| => sfMap[frames[st[k]]]);
    assert forall k :: 0 <= k < |st| ==> r[k] == NewFrameId(frames, st[k]) by {
      forall k | 0 <= k < |st|
        ensures r[k] == NewFrameId(frames, st[k])
      {
        LookupIsNewFrameId(frames, sfMap, st[k]);
      }
    }
    r
  }

  // ---------------------------------------------------------------------
  // BLeakResults
  // ---------------------------------------------------------------------

  class BLeakResults {
    var leaks: seq<LeakRoot>
    var stackFrames: seq<StackFrame>
    var sourceFiles: SourceFiles
    const heapStats: seq<SizeSummary>
    const rankingEvaluation: RankingEvaluation

    /** The constructor with every argument left out. */
    constructor Empty()
      ensures leaks == [] && stackFrames == [] && sourceFiles == map[] && heapStats == []
      ensures rankingEvaluation == EmptyRankingEvaluation
    {
      leaks := [];
      stackFrames := [];
      sourceFiles := map[];
      heapStats := [];
      rankingEvaluation := EmptyRankingEvaluation;
    }

    constructor(leaks: seq<LeakRoot>, stackFrames: seq<StackFrame>, sourceFiles: SourceFiles,
                heapStats: seq<SizeSummary>, rankingEvaluation: RankingEvaluation)
      ensures this.leaks == leaks && this.stackFrames == stackFrames && this.sourceFiles == sourceFiles
      ensures this.heapStats == heapStats && this.rankingEvaluation == rankingEvaluation
    {
      this.leaks := leaks;
      this.stackFrames := stackFrames;
      this.sourceFiles := sourceFiles;
      this.heapStats := heapStats;
      this.rankingEvaluation := rankingEvaluation;
    }

    /** Every stack id of every leak names a frame; `compact` reads each one. */
    predicate Valid()
      reads this, leaks
    {
      forall i :: 0 <= i < |leaks| ==> forall j :: 0 <= j < |leaks[i].stacks| ==>
        StackInRange(stackFrames, leaks[i].stacks[j])
    }

    /** `addStackFrame`: the frame goes last and its index is returned. */
    method AddStackFrame(url: string, line: int, col: int, functionName: string, source: string)
      returns (id: nat)
      modifies this
      ensures stackFrames == old(stackFrames) + [StackFrame(url, line, col, functionName, source)]
      ensures id == |old(stackFrames)| && stackFrames[id] == StackFrame(url, line, col, functionName, source)
      ensures sourceFiles == old(sourceFiles) && leaks == old(leaks)
    {
      id := |stackFrames|;
      stackFrames := stackFrames + [StackFrame(url, line, col, functionName, source)];
    }

    /** `addSourceFile`: sets or overwrites the entry for `url`; other URLs are unchanged. */
    method AddSourceFile(url: string, mimeType: MimeType, source: string)
      modifies this
      ensures sourceFiles == old(sourceFiles)[url := Some(SourceFileEntry(mimeType, source))]
      ensures forall u :: u != url ==> LookupFile(sourceFiles, u) == LookupFile(old(sourceFiles), u)
      ensures stackFrames == old(stackFrames) && leaks == old(leaks)
    {
      sourceFiles := sourceFiles[url := Some(SourceFileEntry(mimeType, source))];
    }

    /** `stackToFrames`: each id's frame, in order. */
    function StackToFrames(st: Stack): (r: seq<Option<StackFrame>>)
      reads this
      ensures r == FramesOf(stackFrames, st)
    {
      FramesOf(stackFrames, st)
    }

    /**
     * `compact`: frames deduplicated, every leak's stacks remapped and
     * deduplicated, the source files kept for the frames' URLs, the heap
     * statistics kept and the ranking evaluation reset.
     */
    method Compact() returns (r: BLeakResults)
      requires Valid()
      ensures fresh(r)
      ensures r.stackFrames == Dedup(stackFrames)
      ensures r.sourceFiles == KeptSources(stackFrames, sourceFiles)
      ensures r.heapStats == heapStats && r.rankingEvaluation == EmptyRankingEvaluation
      ensures |r.leaks| == |leaks|
      ensures forall i :: 0 <= i < |leaks| ==>
        fresh(r.leaks[i]) && r.leaks[i].id == leaks[i].id && r.leaks[i].paths == leaks[i].paths
        && r.leaks[i].scores == leaks[i].scores
        && r.leaks[i].stacks == Dedup(RemapStacks(stackFrames, leaks[i].stacks))
    {
      var newStackFrames, sfMap, newSourceFiles := CompactFrames(stackFrames, sourceFiles);
      var newLeaks: seq<LeakRoot> := [];
      var i := 0;
      while i < |leaks|
        invariant 0 <= i <= |leaks|
        invariant |newLeaks| == i
        invariant forall k :: 0 <= k < i ==>
          fresh(newLeaks[k]) && newLeaks[k].id == leaks[k].id && newLeaks[k].paths == leaks[k].paths
          && newLeaks[k].scores == leaks[k].scores
          && newLeaks[k].stacks == Dedup(RemapStacks(stackFrames, leaks[k].stacks))
      {
        var leak := leaks[i];
        var newStacks := CompactStacks(stackFrames, sfMap, leak.stacks);
        var newLeak := new LeakRoot(leak.id, leak.paths, leak.scores, newStacks);
        newLeaks := newLeaks + [newLeak];
        i := i + 1;
      }
      r := new BLeakResults(newLeaks, newStackFrames, newSourceFiles, heapStats, EmptyRankingEvaluation);
    }

    /** `toJSON`. */
    function ToJson(): (j: ResultsRecord)
      reads this, leaks
      ensures |j.leaks| == |leaks| && forall i :: 0 <= i < |leaks| ==> j.leaks[i] == leaks[i].ToJson()
      ensures j.stackFrames == stackFrames && j.sourceFiles == sourceFiles
      ensures j.heapStats == heapStats && j.rankingEvaluation == rankingEvaluation
    {
      var ls := leaks;
      ResultsRecord(seq(|ls|, i reads ls requires 0 <= i < |ls| => ls[i].ToJson()),
        stackFrames, sourceFiles, heapStats, rankingEvaluation)
    }
  }

  /** `FromJSON`: results whose JSON form is the record it was read from. */
  method FromJson(br: ResultsRecord) returns (r: BLeakResults)
    ensures fresh(r) && r.ToJson() == br
  {
    var leaks: seq<LeakRoot> := [];
    var i := 0;
    while i < |br.leaks|
      invariant 0 <= i <= |br.leaks|
      invariant |leaks| == i && forall k :: 0 <= k < i ==> fresh(leaks[k]) && leaks[k].ToJson() == br.leaks[k]
    {
      var l := LeakRoot.FromJson(br.leaks[i]);
      leaks := leaks + [l];
      i := i + 1;
    }
    r := new BLeakResults(leaks, br.stackFrames, br.sourceFiles, br.heapStats, br.rankingEvaluation);
  }
}
