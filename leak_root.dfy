/**
 * A leak root of a BLeak report: its id, the heap paths that reach it,
 * its scores, and the allocation stacks recorded for it.
 */
module LeakRoots {
  import opened ReportTypes

  class LeakRoot {
    const id: int
    const paths: seq<seq<PathSegment>>
    const scores: LeakScores
    var stacks: seq<Stack>

    constructor(id: int, paths: seq<seq<PathSegment>>, scores: LeakScores, stacks: seq<Stack>)
      ensures this.id == id && this.paths == paths && this.scores == scores && this.stacks == stacks
    {
      this.id := id;
      this.paths := paths;
      this.scores := scores;
      this.stacks := stacks;
    }

    /** The constructor with its `stacks` argument left out: no stacks yet. */
    constructor WithoutStacks(id: int, paths: seq<seq<PathSegment>>, scores: LeakScores)
      ensures this.id == id && this.paths == paths && this.scores == scores && stacks == []
    {
      this.id := id;
      this.paths := paths;
      this.scores := scores;
      stacks := [];
    }

    /** `FromJSON`: a leak root carrying the record's fields. */
    static method FromJson(lr: LeakRootRecord) returns (r: LeakRoot)
      ensures fresh(r)
      ensures r.ToJson() == lr
    {
      r := new LeakRoot(lr.id, lr.paths, lr.scores, lr.stacks);
    }

    /** `addStackTrace`: the stack goes last; earlier stacks, the id, paths and scores are unchanged. */
    method AddStackTrace(st: Stack)
      modifies this
      ensures stacks == old(stacks) + [st]
      ensures ToJson() == old(ToJson()).(stacks := old(stacks) + [st])
    {
      stacks := stacks + [st];
    }

    /** `toJSON`. */
    function ToJson(): (r: LeakRootRecord)
      reads this
      ensures r.id == id && r.paths == paths && r.scores == scores && r.stacks == stacks
    {
      LeakRootRecord(id, paths, scores, stacks)
    }
  }
}
