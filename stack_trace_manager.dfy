/**
 * The viewer's index of stack traces: for every stack frame, how often
 * leak stacks refer to it and which leaks do; for every file, the frames
 * located in it; and for every source location, a frame there.
 */
module StackTraces {
  import opened Wrappers
  import opened JsStrings
  import opened Sequences
  import opened ReportTypes
  import opened LeakRoots
  import Results

  /** One reference to a frame: the leak whose stack holds it, and the frame id. */
  datatype Occurrence = Occurrence(leak: LeakRoot, sf: nat)

  /** The frame references of a leak's stacks, stack by stack, in order. */
  function StackOccurrences(l: LeakRoot, sts: seq<Stack>): (r: seq<Occurrence>)
    ensures forall k :: 0 <= k < |r| ==> r[k].leak == l
  {
    if sts == [] then []
    else
      var st := sts[|sts| - 1];
      StackOccurrences(l, sts[..|sts| - 1]) + seq(|st|, k requires 0 <= k < |st| => Occurrence(l, st[k]))
  }

  /** The frame references of all leaks, leak by leak, in the order the constructor visits them. */
  ghost function LeakOccurrences(ls: seq<LeakRoot>): seq<Occurrence>
    reads ls
  {
    if ls == [] then []
    else LeakOccurrences(ls[..|ls| - 1]) + StackOccurrences(ls[|ls| - 1], ls[|ls| - 1].stacks)
  }

  /** One more leak of a list appends that leak's references. */
  lemma LeakOccurrencesStep(ls: seq<LeakRoot>, i: nat)
    requires i < |ls|
    ensures LeakOccurrences(ls[..i + 1]) == LeakOccurrences(ls[..i]) + StackOccurrences(ls[i], ls[i].stacks)
  {
    assert ls[..i + 1][..i] == ls[..i];
  }

  /** The location key "url:line:col". */
  function LocationKey(url: string, line: int, col: int): string {
    url + ":" + IntToString(line) + ":" + IntToString(col)
  }

  function FrameLocationKey(sf: StackFrame): string {
    LocationKey(sf.url, sf.line, sf.col)
  }

  predicate InRange(n: nat, occs: seq<Occurrence>) {
    forall k :: 0 <= k < |occs| ==> occs[k].sf < n
  }

  /** The url of each frame. */
  function Urls(frames: seq<StackFrame>): (r: seq<string>)
    ensures |r| == |frames| && forall i :: 0 <= i < |r| ==> r[i] == frames[i].url
  {
    seq(|frames|, i requires 0 <= i < |frames| => frames[i].url)
  }

  /** The location key of each frame. */
  function LocationKeys(frames: seq<StackFrame>): (r: seq<string>)
    ensures |r| == |frames| && forall i :: 0 <= i < |r| ==> r[i] == FrameLocationKey(frames[i])
  {
    seq(|frames|, i requires 0 <= i < |frames| => FrameLocationKey(frames[i]))
  }

  // ---------------------------------------------------------------------
  // What the index holds, as functions of the references seen
  // ---------------------------------------------------------------------

  /** The number of references to frame `f`. */
  function CountIn(occs: seq<Occurrence>, f: nat): nat {
    if occs == [] then 0
    else CountIn(occs[..|occs| - 1], f) + (if occs[|occs| - 1].sf == f then 1 else 0)
  }

  /** The leaks of the references to frame `f`, one entry per reference, in order. */
  function LeaksAt(occs: seq<Occurrence>, f: nat): seq<LeakRoot> {
    if occs == [] then []
    else
      var o := occs[|occs| - 1];
      LeaksAt(occs[..|occs| - 1], f) + (if o.sf == f then [o.leak] else [])
  }

  /**
   * The frame ids of the references to frames whose entry in `tags` (the
   * frames' urls) is `tag`, in order.
   */
  function TaggedFrames<K(==)>(tags: seq<K>, occs: seq<Occurrence>, tag: K): seq<nat>
    requires InRange(|tags|, occs)
  {
    if occs == [] then []
    else
      var o := occs[|occs| - 1];
      TaggedFrames(tags, occs[..|occs| - 1], tag) + (if tags[o.sf] == tag then [o.sf] else [])
  }

  /** The frame of the last reference whose entry in `tags` (the frames' location keys) is `tag`. */
  function LastAt<K(==)>(tags: seq<K>, occs: seq<Occurrence>, tag: K): Option<nat>
    requires InRange(|tags|, occs)
  {
    if occs == [] then None
    else
      var o := occs[|occs| - 1];
      if tags[o.sf] == tag then Some(o.sf) else LastAt(tags, occs[..|occs| - 1], tag)
  }

  lemma CountStep(occs: seq<Occurrence>, o: Occurrence)
    ensures forall f :: CountIn(occs + [o], f) == CountIn(occs, f) + (if o.sf == f then 1 else 0)
    ensures forall f :: LeaksAt(occs + [o], f) == LeaksAt(occs, f) + (if o.sf == f then [o.leak] else [])
  {
    assert (occs + [o])[..|occs|] == occs;
  }

  lemma TaggedStep<K>(tags: seq<K>, occs: seq<Occurrence>, o: Occurrence)
    requires InRange(|tags|, occs) && o.sf < |tags|
    ensures InRange(|tags|, occs + [o])
    ensures forall tag :: (TaggedFrames(tags, occs + [o], tag) ==
      TaggedFrames(tags, occs, tag) + (if tags[o.sf] == tag then [o.sf] else []))
    ensures forall tag :: (LastAt(tags, occs + [o], tag) ==
      if tags[o.sf] == tag then Some(o.sf) else LastAt(tags, occs, tag))
  {
    assert (occs + [o])[..|occs|] == occs;
  }

  /** Each reference counts once: a frame's count is the length of its per-reference leak list. */
  lemma {:induction false} CountIsReferences(occs: seq<Occurrence>, f: nat)
    ensures CountIn(occs, f) == |LeaksAt(occs, f)|
    decreases |occs|
  {
    if occs != [] {
      CountIsReferences(occs[..|occs| - 1], f);
    }
  }

  /** A leak listed for frame `f` has a reference to `f`. */
  lemma {:induction false} LeaksAtSound(occs: seq<Occurrence>, f: nat, l: LeakRoot)
    requires l in LeaksAt(occs, f)
    ensures Occurrence(l, f) in occs
    decreases |occs|
  {
    var init := occs[..|occs| - 1];
    if l in LeaksAt(init, f) {
      LeaksAtSound(init, f, l);
      assert Occurrence(l, f) in init;
    }
  }

  /** Frames listed for a tag carry that tag and have a reference. */
  lemma {:induction false} TaggedFramesSound<K>(tags: seq<K>, occs: seq<Occurrence>, tag: K, sf: nat)
    requires InRange(|tags|, occs) && sf in TaggedFrames(tags, occs, tag)
    ensures sf < |tags| && tags[sf] == tag && exists k :: 0 <= k < |occs| && occs[k].sf == sf
    decreases |occs|
  {
    var init := occs[..|occs| - 1];
    if sf in TaggedFrames(tags, init, tag) {
      TaggedFramesSound(tags, init, tag, sf);
      var k :| 0 <= k < |init| && init[k].sf == sf;
      assert occs[k] == init[k];
    }
  }

  /** The frame found for a tag carries it and has a reference; None means no reference does. */
  lemma {:induction false} LastAtSpec<K>(tags: seq<K>, occs: seq<Occurrence>, tag: K)
    requires InRange(|tags|, occs)
    ensures LastAt(tags, occs, tag).Some? ==>
      (LastAt(tags, occs, tag).value < |tags| && tags[LastAt(tags, occs, tag).value] == tag
       && exists k :: 0 <= k < |occs| && occs[k].sf == LastAt(tags, occs, tag).value)
    ensures LastAt(tags, occs, tag).None? ==> forall k :: 0 <= k < |occs| ==> tags[occs[k].sf] != tag
    decreases |occs|
  {
    if occs != [] {
      var init := occs[..|occs| - 1];
      LastAtSpec(tags, init, tag);
      assert forall k :: 0 <= k < |init| ==> occs[k] == init[k];
      if tags[occs[|occs| - 1].sf] != tag && LastAt(tags, init, tag).Some? {
        var k :| 0 <= k < |init| && init[k].sf == LastAt(tags, init, tag).value;
        assert occs[k].sf == LastAt(tags, occs, tag).value;
      }
    }
  }

  /** The reference with tag `tag` that no later reference shares decides the frame found. */
  lemma {:induction false} LastAtIsLast<K>(tags: seq<K>, occs: seq<Occurrence>, tag: K, k: nat)
    requires InRange(|tags|, occs) && k < |occs| && tags[occs[k].sf] == tag
    requires forall k' :: k < k' < |occs| ==> tags[occs[k'].sf] != tag
    ensures LastAt(tags, occs, tag) == Some(occs[k].sf)
    decreases |occs|
  {
    if k < |occs| - 1 {
      var init := occs[..|occs| - 1];
      assert forall k' :: 0 <= k' < |init| ==> occs[k'] == init[k'];
      LastAtIsLast(tags, init, tag, k);
    }
  }

  /** The references of the leaks are exactly those held in their stacks. */
  lemma {:induction false} LeakOccurrencesSound(ls: seq<LeakRoot>, o: Occurrence)
    requires o in LeakOccurrences(ls)
    ensures o.leak in ls && exists st :: st in o.leak.stacks && o.sf in st
    decreases |ls|
  {
    var init, l := ls[..|ls| - 1], ls[|ls| - 1];
    if o in LeakOccurrences(init) {
      LeakOccurrencesSound(init, o);
      assert o.leak in ls;
    } else {
      StackOccurrencesSound(l, l.stacks, o);
    }
  }

  lemma {:induction false} StackOccurrencesSound(l: LeakRoot, sts: seq<Stack>, o: Occurrence)
    requires o in StackOccurrences(l, sts)
    ensures o.leak == l && exists st :: st in sts && o.sf in st
    decreases |sts|
  {
    var init, st := sts[..|sts| - 1], sts[|sts| - 1];
    if o in StackOccurrences(l, init) {
      StackOccurrencesSound(l, init, o);
      var st' :| st' in init && o.sf in st';
      assert st' in sts;
    } else {
      var k :| 0 <= k < |st| && o == Occurrence(l, st[k]);
      assert st in sts;
    }
  }

  // ---------------------------------------------------------------------
  // The index, as values, against the references seen
  // ---------------------------------------------------------------------

  /** Per frame: the count of references and the distinct leaks, first reference first. */
  ghost predicate CountsMatch(n: nat, occs: seq<Occurrence>, counts: seq<nat>, frameLeaks: seq<seq<LeakRoot>>) {
    |counts| == n && |frameLeaks| == n
    && (forall f :: 0 <= f < n ==> counts[f] == CountIn(occs, f))
    && (forall f :: 0 <= f < n ==> frameLeaks[f] == Dedup(LeaksAt(occs, f)))
  }

  /** Per tag of a referenced frame: the distinct frames with that tag, first reference first. */
  ghost predicate TagsMatch<K(!new)>(tags: seq<K>, occs: seq<Occurrence>, index: map<K, seq<nat>>)
    requires InRange(|tags|, occs)
  {
    (forall tag :: tag in index <==> TaggedFrames(tags, occs, tag) != [])
    && (forall tag :: tag in index ==> index[tag] == Dedup(TaggedFrames(tags, occs, tag)))
  }

  /** Per tag of a referenced frame: the frame of its last reference. */
  ghost predicate LastMatch<K(!new)>(tags: seq<K>, occs: seq<Occurrence>, index: map<K, nat>)
    requires InRange(|tags|, occs)
  {
    forall tag :: (tag in index <==> LastAt(tags, occs, tag).Some?)
      && (tag in index ==> Some(index[tag]) == LastAt(tags, occs, tag))
  }

  lemma CountsStep(n: nat, occs: seq<Occurrence>, counts: seq<nat>, frameLeaks: seq<seq<LeakRoot>>, l: LeakRoot, sf: nat)
    requires sf < n && CountsMatch(n, occs, counts, frameLeaks)
    ensures CountsMatch(n, occs + [Occurrence(l, sf)], counts[sf := counts[sf] + 1],
      frameLeaks[sf := if l in frameLeaks[sf] then frameLeaks[sf] else frameLeaks[sf] + [l]])
  {
    var occs', counts', frameLeaks' := occs + [Occurrence(l, sf)], counts[sf := counts[sf] + 1],
      frameLeaks[sf := if l in frameLeaks[sf] then frameLeaks[sf] else frameLeaks[sf] + [l]];
    CountStep(occs, Occurrence(l, sf));
    forall f | 0 <= f < n
      ensures counts'[f] == CountIn(occs', f) && frameLeaks'[f] == Dedup(LeaksAt(occs', f))
    {
      if f == sf {
        assert LeaksAt(occs', f) == LeaksAt(occs, f) + [l];
        DedupStepAppend(LeaksAt(occs, sf), l);
      } else {
        assert LeaksAt(occs', f) == LeaksAt(occs, f) + [];
        assert LeaksAt(occs, f) + [] == LeaksAt(occs, f);
      }
    }
  }

  lemma TagsStep<K(!new)>(tags: seq<K>, occs: seq<Occurrence>, index: map<K, seq<nat>>, l: LeakRoot, sf: nat)
    requires InRange(|tags|, occs) && sf < |tags| && TagsMatch(tags, occs, index)
    ensures InRange(|tags|, occs + [Occurrence(l, sf)])
    ensures var prev := if tags[sf] in index then index[tags[sf]] else [];
      TagsMatch(tags, occs + [Occurrence(l, sf)], index[tags[sf] := if sf in prev then prev else prev + [sf]])
  {
    var occs' := occs + [Occurrence(l, sf)];
    var prev := if tags[sf] in index then index[tags[sf]] else [];
    var index' := index[tags[sf] := if sf in prev then prev else prev + [sf]];
    TaggedStep(tags, occs, Occurrence(l, sf));
    forall tag
      ensures (tag in index' <==> TaggedFrames(tags, occs', tag) != [])
      ensures tag in index' ==> index'[tag] == Dedup(TaggedFrames(tags, occs', tag))
    {
      if tag == tags[sf] {
        DedupStepAppend(TaggedFrames(tags, occs, tag), sf);
        if tag !in index {
          assert Dedup<nat>([] + [sf]) == [sf];
        }
      } else {
        assert TaggedFrames(tags, occs', tag) == TaggedFrames(tags, occs, tag) + [];
        assert TaggedFrames(tags, occs, tag) + [] == TaggedFrames(tags, occs, tag);
      }
    }
  }

  lemma LastStep<K(!new)>(tags: seq<K>, occs: seq<Occurrence>, index: map<K, nat>, l: LeakRoot, sf: nat)
    requires InRange(|tags|, occs) && sf < |tags| && LastMatch(tags, occs, index)
    ensures InRange(|tags|, occs + [Occurrence(l, sf)])
    ensures LastMatch(tags, occs + [Occurrence(l, sf)], index[tags[sf] := sf])
  {
    TaggedStep(tags, occs, Occurrence(l, sf));
  }

  /** The four parts of the index agree with the references `occs`. */
  ghost predicate Indexes(frames: seq<StackFrame>, occs: seq<Occurrence>, counts: seq<nat>,
                          frameLeaks: seq<seq<LeakRoot>>, files: map<string, seq<nat>>, locs: map<string, nat>)
  {
    InRange(|frames|, occs) && CountsMatch(|frames|, occs, counts, frameLeaks)
    && TagsMatch(Urls(frames), occs, files) && LastMatch(LocationKeys(frames), occs, locs)
  }

  /**
   * Tallying one more reference keeps the index in agreement: the count
   * grows, the leak and the file's frame are listed if new, and the
   * location now names this frame.
   */
  lemma IndexesStep(frames: seq<StackFrame>, occs: seq<Occurrence>, counts: seq<nat>,
                    frameLeaks: seq<seq<LeakRoot>>, files: map<string, seq<nat>>, locs: map<string, nat>,
                    l: LeakRoot, sf: nat, occs': seq<Occurrence>, counts': seq<nat>,
                    frameLeaks': seq<seq<LeakRoot>>, files': map<string, seq<nat>>, locs': map<string, nat>)
    requires Indexes(frames, occs, counts, frameLeaks, files, locs) && sf < |frames|
    requires occs' == occs + [Occurrence(l, sf)]
    requires (counts', frameLeaks', files', locs') == Tally(frames, counts, frameLeaks, files, locs, l, sf)
    ensures Indexes(frames, occs', counts', frameLeaks', files', locs')
  {
    var urls, keys := Urls(frames), LocationKeys(frames);
    CountsStep(|frames|, occs, counts, frameLeaks, l, sf);
    TagsStep(urls, occs, files, l, sf);
    LastStep(keys, occs, locs, l, sf);
    assert urls[sf] == frames[sf].url && keys[sf] == FrameLocationKey(frames[sf]);
  }

  /**
   * The updates of one reference to frame `sf` by leak `l`: its count grows,
   * the leak and the file's frame are appended if new, and the location
   * now names this frame.
   */
  function Tally(frames: seq<StackFrame>, counts: seq<nat>, frameLeaks: seq<seq<LeakRoot>>,
                 files: map<string, seq<nat>>, locs: map<string, nat>, l: LeakRoot, sf: nat)
    : (r: (seq<nat>, seq<seq<LeakRoot>>, map<string, seq<nat>>, map<string, nat>))
    requires sf < |frames| && sf < |counts| && sf < |frameLeaks|
  {
    var url := frames[sf].url;
    var fileFrames := if url in files then files[url] else [];
    (counts[sf := counts[sf] + 1],
     frameLeaks[sf := if l in frameLeaks[sf] then frameLeaks[sf] else frameLeaks[sf] + [l]],
     files[url := if sf in fileFrames then fileFrames else fileFrames + [sf]],
     locs[FrameLocationKey(frames[sf]) := sf])
  }

  /** Before any reference, every count is zero and every list and map is empty. */
  lemma IndexesEmpty(frames: seq<StackFrame>)
    ensures Indexes(frames, [], seq(|frames|, _ => 0), seq(|frames|, _ => []), map[], map[])
  {
    assert forall f :: CountIn([], f) == 0 && LeaksAt([], f) == [];
    assert Dedup<LeakRoot>([]) == [];
  }

  // ---------------------------------------------------------------------
  // StackTraceManager
  // ---------------------------------------------------------------------

  class StackTraceManager {
    const frames: seq<StackFrame>
    const leaks: seq<LeakRoot>
    /** The `count` of each frame's `StackFrameStats`. */
    var counts: seq<nat>
    /** The `leaks` of each frame's `StackFrameStats`. */
    var frameLeaks: seq<seq<LeakRoot>>
    var fileStackFrames: map<string, seq<nat>>
    var locationToId: map<string, nat>
    /** The frame references processed so far. */
    ghost var seen: seq<Occurrence>

    /** The index reflects exactly the references processed so far. */
    ghost predicate Tallied()
      reads this
    {
      Indexes(frames, seen, counts, frameLeaks, fileStackFrames, locationToId)
    }

    /**
     * The constructor: the references of every stack of every leak, in
     * order, are tallied. A frame id past the end of `frames` makes the
     * source read a missing `StackFrameStats` and throw; `New` models that
     * case, and the constructor is its successful path.
     */
    constructor(frames: seq<StackFrame>, leaks: seq<LeakRoot>)
      requires StacksInRange(frames, leaks)
      ensures this.frames == frames && this.leaks == leaks
      ensures seen == LeakOccurrences(leaks) && Tallied()
    {
      this.frames := frames;
      this.leaks := leaks;
      counts := seq(|frames|, _ => 0);
      frameLeaks := seq(|frames|, _ => []);
      fileStackFrames := map[];
      locationToId := map[];
      seen := [];
      new;
      IndexesEmpty(frames);
      var i := 0;
      while i < |leaks|
        invariant 0 <= i <= |leaks|
        invariant seen == LeakOccurrences(leaks[..i]) && Tallied()
      {
        LeakOccurrencesStep(leaks, i);
        AddLeak(leaks[i]);
        i := i + 1;
      }
      assert leaks[..i] == leaks;
    }

    /** The references of one leak's stacks. */
    method AddLeak(l: LeakRoot)
      requires Tallied()
      requires forall j :: 0 <= j < |l.stacks| ==> Results.StackInRange(frames, l.stacks[j])
      modifies this
      ensures seen == old(seen) + StackOccurrences(l, l.stacks) && Tallied()
    {
      var j := 0;
      ghost var start := seen;
      while j < |l.stacks|
        invariant 0 <= j <= |l.stacks|
        invariant seen == start + StackOccurrences(l, l.stacks[..j]) && Tallied()
      {
        assert l.stacks[..j + 1][..j] == l.stacks[..j];
        AddStack(l, l.stacks[j]);
        j := j + 1;
      }
      assert l.stacks[..j] == l.stacks;
    }

    /** The references of one stack, frame by frame. */
    method AddStack(l: LeakRoot, st: Stack)
      requires Tallied() && Results.StackInRange(frames, st)
      modifies this
      ensures seen == old(seen) + seq(|st|, k requires 0 <= k < |st| => Occurrence(l, st[k])) && Tallied()
    {
      var k := 0;
      ghost var start := seen;
      while k < |st|
        invariant 0 <= k <= |st|
        invariant seen == start + seq(k, m requires 0 <= m < k => Occurrence(l, st[m])) && Tallied()
      {
        AddFrame(l, st[k]);
        k := k + 1;
      }
    }

    /**
     * One reference, the body of the innermost loop of the constructor:
     * count it, list the leak and the file's frame if new, and record the
     * location.
     */
    method AddFrame(l: LeakRoot, sf: nat)
      requires Tallied() && sf < |frames|
      modifies this
      ensures seen == old(seen) + [Occurrence(l, sf)] && Tallied()
    {
      ghost var (occs, cs, fl, fs, ls) := (seen, counts, frameLeaks, fileStackFrames, locationToId);
      var t := Tally(frames, counts, frameLeaks, fileStackFrames, locationToId, l, sf);
      counts, frameLeaks, fileStackFrames, locationToId := t.0, t.1, t.2, t.3;
      seen := seen + [Occurrence(l, sf)];
      IndexesStep(frames, occs, cs, fl, fs, ls, l, sf, seen, counts, frameLeaks, fileStackFrames, locationToId);
    }

    /** `_getFrameForLocation`: the frame last recorded at the location, if any. */
    function GetFrameForLocation(url: string, line: int, column: int): (r: Option<nat>)
      reads this
      requires Tallied()
      ensures r.Some? <==> LocationKey(url, line, column) in locationToId
      ensures r.Some? ==> r.value < |frames| && FrameLocationKey(frames[r.value]) == LocationKey(url, line, column)
    {
      var key := LocationKey(url, line, column);
      LastAtSpec(LocationKeys(frames), seen, key);
      if key in locationToId then Some(locationToId[key]) else None
    }

    /**
     * `getLeaksForLocation`: the leak list of the frame recorded for the
     * location; None where the source reads the stats of an unknown location.
     */
    function GetLeaksForLocation(url: string, line: int, column: int): (r: Option<seq<LeakRoot>>)
      reads this
      requires Tallied()
      ensures r.Some? <==> LocationKey(url, line, column) in locationToId
    {
      match GetFrameForLocation(url, line, column)
      case None => None
      case Some(sf) => Some(frameLeaks[sf])
    }

    /** `getFramesForFile`: the frames located in `url`, or [] for an unknown url. */
    function GetFramesForFile(url: string): (r: seq<StackFrame>)
      reads this
      requires Tallied()
      ensures url !in fileStackFrames ==> r == []
      ensures url in fileStackFrames ==> |r| == |fileStackFrames[url]|
      ensures forall k :: 0 <= k < |r| ==> r[k].url == url
    {
      if url !in fileStackFrames then []
      else
        var ids := fileStackFrames[url];
        TaggedFramesInRange(Urls(frames), seen, url);
        DedupMembers(TaggedFrames(Urls(frames), seen, url));
        assert forall k :: 0 <= k < |ids| ==> ids[k] in TaggedFrames(Urls(frames), seen, url);
        seq(|ids|, k requires 0 <= k < |ids| => frames[ids[k]])
    }

    /** `getTracesForLeak`: every stack of the leak as its frames, same shape. */
    function GetTracesForLeak(l: LeakRoot): (r: seq<seq<Option<StackFrame>>>)
      reads this, l
      ensures |r| == |l.stacks|
      ensures forall i :: 0 <= i < |r| ==> r[i] == Results.FramesOf(frames, l.stacks[i])
    {
      seq(|l.stacks|, i reads l requires 0 <= i < |l.stacks| => Results.FramesOf(frames, l.stacks[i]))
    }
  }

  /**
   * Every leak listed for a location holds a stack with a frame at that
   * location, and a location is known exactly when some leak's stack
   * refers to a frame there.
   */
  lemma LeaksForLocationSound(m: StackTraceManager, url: string, line: int, column: int)
    requires m.Tallied() && m.seen == LeakOccurrences(m.leaks)
    ensures m.GetLeaksForLocation(url, line, column).Some? <==>
      exists o :: o in m.seen && FrameLocationKey(m.frames[o.sf]) == LocationKey(url, line, column)
    ensures m.GetLeaksForLocation(url, line, column).Some? ==>
      forall l :: l in m.GetLeaksForLocation(url, line, column).value ==>
        l in m.leaks && exists st, sf :: (st in l.stacks && sf in st && sf < |m.frames|
          && FrameLocationKey(m.frames[sf]) == LocationKey(url, line, column))
  {
    var key := LocationKey(url, line, column);
    var keys := LocationKeys(m.frames);
    LastAtSpec(keys, m.seen, key);
    if key in m.locationToId {
      var sf := m.locationToId[key];
      assert LastAt(keys, m.seen, key) == Some(sf);
      assert m.GetLeaksForLocation(url, line, column) == Some(m.frameLeaks[sf]);
      forall l | l in m.frameLeaks[sf]
        ensures l in m.leaks && exists st, sf' :: (st in l.stacks && sf' in st && sf' < |m.frames|
          && FrameLocationKey(m.frames[sf']) == key)
      {
        DedupMembers(LeaksAt(m.seen, sf));
        LeaksAtSound(m.seen, sf, l);
        LeakOccurrencesSound(m.leaks, Occurrence(l, sf));
        var st :| st in l.stacks && sf in st;
      }
      var k :| 0 <= k < |m.seen| && m.seen[k].sf == sf;
      assert m.seen[k] in m.seen;
    } else {
      forall o | o in m.seen
        ensures FrameLocationKey(m.frames[o.sf]) != key
      {
        var k :| 0 <= k < |m.seen| && m.seen[k] == o;
        assert keys[m.seen[k].sf] != key;
      }
    }
  }

  /** `Dedup` of a list with one more element. */
  lemma DedupStepAppend<T>(s: seq<T>, x: T)
    ensures Dedup(s + [x]) == if x in Dedup(s) then Dedup(s) else Dedup(s) + [x]
  {
    assert (s + [x])[..|s|] == s;
  }

  lemma TaggedFramesInRange<K>(tags: seq<K>, occs: seq<Occurrence>, tag: K)
    requires InRange(|tags|, occs)
    ensures forall sf :: sf in TaggedFrames(tags, occs, tag) ==> sf < |tags| && tags[sf] == tag
  {
    forall sf | sf in TaggedFrames(tags, occs, tag) {
      TaggedFramesSound(tags, occs, tag, sf);
    }
  }

  /** Every frame id of every leak's stacks names one of the frames. */
  predicate StacksInRange(frames: seq<StackFrame>, leaks: seq<LeakRoot>)
    reads leaks
  {
    forall i :: 0 <= i < |leaks| ==> forall j :: 0 <= j < |leaks[i].stacks| ==>
      Results.StackInRange(frames, leaks[i].stacks[j])
  }

  /**
   * `new StackTraceManager(frames, leaks)`: `None` where the source throws
   * a TypeError on a frame id past the end of `frames`, the tallied
   * manager otherwise.
   */
  method New(frames: seq<StackFrame>, leaks: seq<LeakRoot>) returns (r: Option<StackTraceManager>)
    ensures r.None? <==> !StacksInRange(frames, leaks)
    ensures r.Some? ==> fresh(r.value) && r.value.frames == frames && r.value.leaks == leaks
    ensures r.Some? ==> r.value.seen == LeakOccurrences(leaks) && r.value.Tallied()
  {
    if StacksInRange(frames, leaks) {
      var m := new StackTraceManager(frames, leaks);
      r := Some(m);
    } else {
      r := None;
    }
  }

  /** `FromBLeakResults`: fails exactly when a stack names a frame the results do not hold. */
  method FromBLeakResults(results: Results.BLeakResults) returns (r: Option<StackTraceManager>)
    ensures r.None? <==> !results.Valid()
    ensures r.Some? ==> fresh(r.value) && r.value.frames == results.stackFrames
    ensures r.Some? ==> r.value.leaks == results.leaks && r.value.Tallied()
  {
    r := New(results.stackFrames, results.leaks);
  }
}
