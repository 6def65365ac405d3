/**
 * The operation tree BLeak runs: leaf operations that drive the browser
 * (navigate, wait for a step's `check`, call its `next`, sleep, take a
 * heap snapshot, configure the proxy, ...) grouped into composite
 * operations whose children run in order. The model covers how the trees
 * are built, how big they are (what the progress bar counts), which runs
 * are skipped, and the ranking-evaluation configurations.
 *
 * What a leaf does in the browser is outside the model: running one only
 * records it in the operation state.
 */
module Operations {
  import opened Wrappers
  import opened JsStrings
  import opened Sequences
  import opened ReportTypes
  import opened Configs
  import PathPrinting
  import Results

  // ---------------------------------------------------------------------
  // The operation tree
  // ---------------------------------------------------------------------

  /** `StepType`. */
  datatype StepType = Login | Setup | Loop

  function StepsOf(c: BLeakConfig, t: StepType): seq<Step> {
    match t
    case Login => c.login
    case Setup => c.setup
    case Loop => c.loop
  }

  /** `InterceptorConfig` as the operations fill it in. */
  datatype ProxySettings = ProxySettings(
    rewrite: bool, fixes: seq<int>, disableAllRewrites: bool, fixRewriteFunction: string, config: string)

  /**
   * `RankingEvalConfig`: a set of fixes to apply, and the metrics whose
   * evaluation uses it.
   */
  datatype EvalConfig = EvalConfig(fixIds: seq<int>, leakShare: bool, retainedSize: bool, transitiveClosureSize: bool)

  datatype CompositeKind =
    | StepKind
    | StepSeries
    | ProgramRun
    | FindLeaks
    | DiagnoseLeaks
    | EvaluateRankingMetricProgramRun(evalConfig: EvalConfig, runNumber: nat)
    | EvaluateRankingMetrics
    | FindAndDiagnoseLeaks

  /** An operation: a leaf, or a composite whose children run in order. */
  datatype Op =
    | Navigate(timeout: int, url: string)
    | Check(timeout: int, stepType: StepType, id: nat)
    | Next(timeout: int, stepType: StepType, id: nat)
    | Delay(delay: int)
    | TakeHeapSnapshot(timeout: int)
    | ConfigureProxy(settings: ProxySettings)
    | InstrumentGrowingPaths(timeout: int)
    | GetGrowthStacks(timeout: int)
    | Composite(kind: CompositeKind, children: seq<Op>)

  /** `size()`: 1 for a leaf; 1 plus the children's sizes for a composite. */
  function Size(op: Op): nat
    decreases op
  {
    match op
    case Composite(_, children) => 1 + SumSizes(children)
    case _ => 1
  }

  /** `children.reduce(countOperations, 0)`. */
  function SumSizes(ops: seq<Op>): nat
    decreases ops
  {
    if ops == [] then 0 else SumSizes(ops[..|ops| - 1]) + Size(ops[|ops| - 1])
  }

  lemma {:induction false} SumSizesAppend(a: seq<Op>, b: seq<Op>)
    ensures SumSizes(a + b) == SumSizes(a) + SumSizes(b)
    decreases |b|
  {
    if b == [] {
      assert a + b == a;
    } else {
      var b' := b[..|b| - 1];
      assert (a + b)[..|a + b| - 1] == a + b';
      SumSizesAppend(a, b');
    }
  }

  /** Every operation counts itself at least once. */
  lemma {:induction false} SumSizesAtLeastLength(ops: seq<Op>)
    ensures SumSizes(ops) >= |ops|
    decreases |ops|
  {
    if ops != [] {
      SumSizesAtLeastLength(ops[..|ops| - 1]);
    }
  }

  /** A list of operations of one size. */
  lemma {:induction false} SumSizesUniform(ops: seq<Op>, s: nat)
    requires forall i :: 0 <= i < |ops| ==> Size(ops[i]) == s
    ensures SumSizes(ops) == |ops| * s
    decreases |ops|
  {
    if ops != [] {
      SumSizesUniform(ops[..|ops| - 1], s);
    }
  }

  // ---------------------------------------------------------------------
  // Running
  // ---------------------------------------------------------------------

  /**
   * The leaves whose work runs when `op` runs: none under a skipped
   * operation, and the leaves of a composite's children in order.
   */
  function Performed(op: Op, skip: Op -> bool): seq<Op>
    decreases op
  {
    if skip(op) then []
    else match op
      case Composite(_, children) => PerformedAll(children, skip)
      case _ => [op]
  }

  function PerformedAll(ops: seq<Op>, skip: Op -> bool): seq<Op>
    decreases ops
  {
    if ops == [] then [] else PerformedAll(ops[..|ops| - 1], skip) + Performed(ops[|ops| - 1], skip)
  }

  /**
   * `OperationState` as far as running goes: the number of times the
   * progress bar was advanced, and the leaf operations performed.
   */
  class OperationState {
    var progress: nat
    var performed: seq<Op>

    constructor()
      ensures progress == 0 && performed == []
    {
      progress := 0;
      performed := [];
    }

    /** `progressBar.nextOperation()`. */
    method NextOperation()
      modifies this
      ensures progress == old(progress) + 1 && performed == old(performed)
    {
      progress := progress + 1;
    }

    /** A leaf's `_run`: the driver does the work. */
    method Perform(op: Op)
      modifies this
      ensures progress == old(progress) && performed == old(performed) + [op]
    {
      performed := performed + [op];
    }
  }

  /**
   * `Operation.run`: a skipped operation advances the progress bar
   * `size()` times and runs nothing; otherwise the operation runs (a
   * composite runs its children in order) and the bar advances once more.
   * Either way the bar advances by exactly the operation's size. `skip`
   * is each operation's `skip` decision.
   */
  method Run(op: Op, st: OperationState, skip: Op -> bool)
    modifies st
    ensures st.progress == old(st.progress) + Size(op)
    ensures st.performed == old(st.performed) + Performed(op, skip)
    decreases op
  {
    if skip(op) {
      var size := Size(op);
      for i := 0 to size
        invariant st.progress == old(st.progress) + i && st.performed == old(st.performed)
      {
        st.NextOperation();
      }
      return;
    }
    match op
    case Composite(_, children) =>
      for i := 0 to |children|
        invariant st.progress == old(st.progress) + SumSizes(children[..i])
        invariant st.performed == old(st.performed) + PerformedAll(children[..i], skip)
      {
        assert children[..i + 1][..i] == children[..i];
        Run(children[i], st, skip);
      }
      assert children[..|children|] == children;
      st.NextOperation();
    case _ =>
      st.Perform(op);
      st.NextOperation();
  }

  // ---------------------------------------------------------------------
  // Building the trees
  // ---------------------------------------------------------------------

  /** A delay when the configured time is not zero (`if (config.postCheckSleep)`). */
  function DelayIf(ms: int): (r: seq<Op>)
    ensures |r| == (if ms != 0 then 1 else 0)
    ensures forall i :: 0 <= i < |r| ==> r[i] == Delay(ms)
  {
    if ms != 0 then [Delay(ms)] else []
  }

  /**
   * `StepOperation`: wait for the step's `check`, sleep `postCheckSleep`
   * if it is not zero, call its `next`, sleep `postNextSleep` if it is not
   * zero.
   */
  function StepOp(c: BLeakConfig, t: StepType, id: nat): Op {
    Composite(StepKind, [Check(c.timeout, t, id)] + DelayIf(c.postCheckSleep) + [Next(c.timeout, t, id)] + DelayIf(c.postNextSleep))
  }

  /** The size of one step: the composite, check, next and the configured delays. */
  function StepSize(c: BLeakConfig): nat {
    3 + |DelayIf(c.postCheckSleep)| + |DelayIf(c.postNextSleep)|
  }

  lemma StepOpSize(c: BLeakConfig, t: StepType, id: nat)
    ensures Size(StepOp(c, t, id)) == StepSize(c)
  {
    var cs := StepOp(c, t, id).children;
    SumSizesUniform(cs, 1);
  }

  /** `StepSeriesOperation`: one step per configured step of the type, ids 0 .. n-1 in order. */
  function StepSeriesOf(c: BLeakConfig, t: StepType): (r: Op)
    ensures r.Composite? && r.kind == StepSeries && |r.children| == |StepsOf(c, t)|
    ensures forall i :: 0 <= i < |StepsOf(c, t)| ==> r.children[i] == StepOp(c, t, i)
  {
    Composite(StepSeries, seq(|StepsOf(c, t)|, i requires 0 <= i < |StepsOf(c, t)| => StepOp(c, t, i)))
  }

  /** The `StepSeriesOperation` constructor, pushing one step per configured step. */
  method StepSeriesOperation(c: BLeakConfig, t: StepType) returns (r: Op)
    ensures r == StepSeriesOf(c, t)
  {
    var steps := StepsOf(c, t);
    var children: seq<Op> := [];
    for i := 0 to |steps|
      invariant |children| == i && forall j :: 0 <= j < i ==> children[j] == StepOp(c, t, j)
    {
      children := children + [StepOp(c, t, i)];
    }
    r := Composite(StepSeries, children);
  }

  function StepSeriesSize(c: BLeakConfig, t: StepType): nat {
    1 + |StepsOf(c, t)| * StepSize(c)
  }

  lemma StepSeriesOfSize(c: BLeakConfig, t: StepType)
    ensures Size(StepSeriesOf(c, t)) == StepSeriesSize(c, t)
  {
    var cs := StepSeriesOf(c, t).children;
    forall i | 0 <= i < |cs|
      ensures Size(cs[i]) == StepSize(c)
    {
      StepOpSize(c, t, i);
    }
    SumSizesUniform(cs, StepSize(c));
  }

  /** `for (let i = 0; i < iterations; i++)` runs this many times. */
  function IterationCount(iterations: int): nat {
    if iterations > 0 then iterations else 0
  }

  /**
   * The operations before the iterations of a program run: navigate; a
   * login series, a pause and a second navigation if logging in and there
   * are login steps; the setup series if there are setup steps; and, when
   * an initial snapshot is wanted and there is a snapshot callback, a
   * check of loop step 0, the post-check pause and a snapshot.
   */
  function ProgramRunHead(c: BLeakConfig, runLogin: bool, takeInitialSnapshot: bool, hasSnapshotCb: bool): seq<Op> {
    [Navigate(c.timeout, c.url)] + LoginOps(c, runLogin) + SetupOps(c) + InitialSnapshotOps(c, takeInitialSnapshot && hasSnapshotCb)
  }

  function LoginOps(c: BLeakConfig, runLogin: bool): seq<Op> {
    if runLogin && |c.login| > 0 then [StepSeriesOf(c, Login), Delay(c.postLoginSleep), Navigate(c.timeout, c.url)] else []
  }

  function SetupOps(c: BLeakConfig): seq<Op> {
    if |c.setup| > 0 then [StepSeriesOf(c, Setup)] else []
  }

  function InitialSnapshotOps(c: BLeakConfig, snapshot: bool): seq<Op> {
    if snapshot then [Check(c.timeout, Loop, 0)] + DelayIf(c.postCheckSleep) + [TakeHeapSnapshot(c.timeout)] else []
  }

  /** One iteration: the loop series, a check of loop step 0, the pause, and a snapshot if there is a callback. */
  function IterationOps(c: BLeakConfig, hasSnapshotCb: bool): seq<Op> {
    [StepSeriesOf(c, Loop), Check(c.timeout, Loop, 0)] + DelayIf(c.postCheckSleep)
    + (if hasSnapshotCb then [TakeHeapSnapshot(c.timeout)] else [])
  }

  function Iterations(c: BLeakConfig, hasSnapshotCb: bool, n: nat): seq<Op> {
    if n == 0 then [] else Iterations(c, hasSnapshotCb, n - 1) + IterationOps(c, hasSnapshotCb)
  }

  /** `ProgramRunOperation`. */
  function ProgramRunOf(c: BLeakConfig, runLogin: bool, iterations: int, takeInitialSnapshot: bool, hasSnapshotCb: bool): Op {
    Composite(ProgramRun, ProgramRunHead(c, runLogin, takeInitialSnapshot, hasSnapshotCb) + Iterations(c, hasSnapshotCb, IterationCount(iterations)))
  }

  /** The operations one iteration of the `ProgramRunOperation` constructor pushes. */
  method IterationOperations(c: BLeakConfig, hasSnapshotCb: bool) returns (block: seq<Op>)
    ensures block == IterationOps(c, hasSnapshotCb)
  {
    var series := StepSeriesOperation(c, Loop);
    block := [series, Check(c.timeout, Loop, 0)];
    if c.postCheckSleep != 0 {
      block := block + [Delay(c.postCheckSleep)];
    }
    if hasSnapshotCb {
      block := block + [TakeHeapSnapshot(c.timeout)];
    }
  }

  /** The operations the `ProgramRunOperation` constructor pushes before its iterations. */
  method HeadOperations(c: BLeakConfig, runLogin: bool, takeInitialSnapshot: bool, hasSnapshotCb: bool)
    returns (children: seq<Op>)
    ensures children == ProgramRunHead(c, runLogin, takeInitialSnapshot, hasSnapshotCb)
  {
    children := [Navigate(c.timeout, c.url)];
    if runLogin && |c.login| > 0 {
      var login := StepSeriesOperation(c, Login);
      children := children + [login, Delay(c.postLoginSleep), Navigate(c.timeout, c.url)];
    }
    assert children == [Navigate(c.timeout, c.url)] + LoginOps(c, runLogin);
    if |c.setup| > 0 {
      var setup := StepSeriesOperation(c, Setup);
      children := children + [setup];
    }
    assert children == [Navigate(c.timeout, c.url)] + LoginOps(c, runLogin) + SetupOps(c);
    if takeInitialSnapshot && hasSnapshotCb {
      ghost var before := children;
      children := children + [Check(c.timeout, Loop, 0)];
      if c.postCheckSleep != 0 {
        children := children + [Delay(c.postCheckSleep)];
      }
      assert children == before + ([Check(c.timeout, Loop, 0)] + DelayIf(c.postCheckSleep));
      children := children + [TakeHeapSnapshot(c.timeout)];
      AppendAssoc(before, [Check(c.timeout, Loop, 0)] + DelayIf(c.postCheckSleep), [TakeHeapSnapshot(c.timeout)]);
    }
  }

  /** The `ProgramRunOperation` constructor. */
  method ProgramRunOperation(c: BLeakConfig, runLogin: bool, iterations: int, takeInitialSnapshot: bool, hasSnapshotCb: bool)
    returns (r: Op)
    ensures r == ProgramRunOf(c, runLogin, iterations, takeInitialSnapshot, hasSnapshotCb)
  {
    var children := HeadOperations(c, runLogin, takeInitialSnapshot, hasSnapshotCb);
    ghost var head := children;
    var i := 0;
    while i < iterations
      invariant 0 <= i <= IterationCount(iterations)
      invariant children == head + Iterations(c, hasSnapshotCb, i)
    {
      var block := IterationOperations(c, hasSnapshotCb);
      AppendAssoc(head, Iterations(c, hasSnapshotCb, i), block);
      children := children + block;
      i := i + 1;
    }
    r := Composite(ProgramRun, children);
  }

  function IterationSize(c: BLeakConfig, hasSnapshotCb: bool): nat {
    StepSeriesSize(c, Loop) + 1 + |DelayIf(c.postCheckSleep)| + (if hasSnapshotCb then 1 else 0)
  }

  function HeadSize(c: BLeakConfig, runLogin: bool, takeInitialSnapshot: bool, hasSnapshotCb: bool): nat {
    1
    + (if runLogin && |c.login| > 0 then StepSeriesSize(c, Login) + 2 else 0)
    + (if |c.setup| > 0 then StepSeriesSize(c, Setup) else 0)
    + (if takeInitialSnapshot && hasSnapshotCb then 2 + |DelayIf(c.postCheckSleep)| else 0)
  }

  /** Sum of leaf sizes: a list of leaves is as big as it is long. */
  lemma LeavesSize(ops: seq<Op>)
    requires forall i :: 0 <= i < |ops| ==> !ops[i].Composite?
    ensures SumSizes(ops) == |ops|
  {
    SumSizesUniform(ops, 1);
  }

  lemma IterationOpsSize(c: BLeakConfig, hasSnapshotCb: bool)
    ensures SumSizes(IterationOps(c, hasSnapshotCb)) == IterationSize(c, hasSnapshotCb)
  {
    var rest := [Check(c.timeout, Loop, 0)] + DelayIf(c.postCheckSleep) + (if hasSnapshotCb then [TakeHeapSnapshot(c.timeout)] else []);
    assert IterationOps(c, hasSnapshotCb) == [StepSeriesOf(c, Loop)] + rest;
    SumSizesAppend([StepSeriesOf(c, Loop)], rest);
    LeavesSize(rest);
    StepSeriesOfSize(c, Loop);
    assert SumSizes([StepSeriesOf(c, Loop)]) == Size(StepSeriesOf(c, Loop));
  }

  lemma MultiplyStep(n: nat, s: nat)
    requires n > 0
    ensures (n - 1) * s + s == n * s
  {
  }

  lemma {:induction false} IterationsSize(c: BLeakConfig, hasSnapshotCb: bool, n: nat)
    ensures SumSizes(Iterations(c, hasSnapshotCb, n)) == n * IterationSize(c, hasSnapshotCb)
  {
    if n > 0 {
      var s := IterationSize(c, hasSnapshotCb);
      var prev := Iterations(c, hasSnapshotCb, n - 1);
      IterationsSize(c, hasSnapshotCb, n - 1);
      SumSizesAppend(prev, IterationOps(c, hasSnapshotCb));
      IterationOpsSize(c, hasSnapshotCb);
      assert SumSizes(Iterations(c, hasSnapshotCb, n)) == (n - 1) * s + s;
      MultiplyStep(n, s);
    }
  }

  lemma LoginOpsSize(c: BLeakConfig, runLogin: bool)
    ensures SumSizes(LoginOps(c, runLogin)) == if runLogin && |c.login| > 0 then StepSeriesSize(c, Login) + 2 else 0
  {
    if runLogin && |c.login| > 0 {
      var pause := [Delay(c.postLoginSleep), Navigate(c.timeout, c.url)];
      StepSeriesOfSize(c, Login);
      assert LoginOps(c, runLogin) == [StepSeriesOf(c, Login)] + pause;
      SumSizesAppend([StepSeriesOf(c, Login)], pause);
      LeavesSize(pause);
    }
  }

  lemma HeadSizeOf(c: BLeakConfig, runLogin: bool, takeInitialSnapshot: bool, hasSnapshotCb: bool)
    ensures SumSizes(ProgramRunHead(c, runLogin, takeInitialSnapshot, hasSnapshotCb)) == HeadSize(c, runLogin, takeInitialSnapshot, hasSnapshotCb)
  {
    var nav := [Navigate(c.timeout, c.url)];
    var login := LoginOps(c, runLogin);
    var setup := SetupOps(c);
    var snap := InitialSnapshotOps(c, takeInitialSnapshot && hasSnapshotCb);
    SumSizesAppend(nav, login);
    SumSizesAppend(nav + login, setup);
    SumSizesAppend(nav + login + setup, snap);
    LeavesSize(nav);
    LoginOpsSize(c, runLogin);
    SetupOpsSize(c);
    SnapshotOpsSize(c, takeInitialSnapshot && hasSnapshotCb);
  }

  lemma SetupOpsSize(c: BLeakConfig)
    ensures SumSizes(SetupOps(c)) == if |c.setup| > 0 then StepSeriesSize(c, Setup) else 0
  {
    if |c.setup| > 0 {
      StepSeriesOfSize(c, Setup);
    }
  }

  lemma SnapshotOpsSize(c: BLeakConfig, snapshot: bool)
    ensures SumSizes(InitialSnapshotOps(c, snapshot)) == if snapshot then 2 + |DelayIf(c.postCheckSleep)| else 0
  {
    LeavesSize(InitialSnapshotOps(c, snapshot));
  }

  /**
   * What the progress bar counts for a program run: the head, then each
   * iteration's loop series, check, optional pause and optional snapshot.
   */
  lemma ProgramRunSize(c: BLeakConfig, runLogin: bool, iterations: int, takeInitialSnapshot: bool, hasSnapshotCb: bool)
    ensures Size(ProgramRunOf(c, runLogin, iterations, takeInitialSnapshot, hasSnapshotCb))
      == 1 + HeadSize(c, runLogin, takeInitialSnapshot, hasSnapshotCb)
        + IterationCount(iterations) * IterationSize(c, hasSnapshotCb)
  {
    var head := ProgramRunHead(c, runLogin, takeInitialSnapshot, hasSnapshotCb);
    var iters := Iterations(c, hasSnapshotCb, IterationCount(iterations));
    SumSizesAppend(head, iters);
    HeadSizeOf(c, runLogin, takeInitialSnapshot, hasSnapshotCb);
    IterationsSize(c, hasSnapshotCb, IterationCount(iterations));
  }

  // ---------------------------------------------------------------------
  // Heap snapshots
  // ---------------------------------------------------------------------

  /** The heap snapshots an operation takes when nothing is skipped. */
  function Snapshots(op: Op): nat
    decreases op
  {
    match op
    case TakeHeapSnapshot(_) => 1
    case Composite(_, children) => SnapshotsIn(children)
    case _ => 0
  }

  function SnapshotsIn(ops: seq<Op>): nat
    decreases ops
  {
    if ops == [] then 0 else SnapshotsIn(ops[..|ops| - 1]) + Snapshots(ops[|ops| - 1])
  }

  lemma {:induction false} SnapshotsInAppend(a: seq<Op>, b: seq<Op>)
    ensures SnapshotsIn(a + b) == SnapshotsIn(a) + SnapshotsIn(b)
    decreases |b|
  {
    if b == [] {
      assert a + b == a;
    } else {
      var b' := b[..|b| - 1];
      assert (a + b)[..|a + b| - 1] == a + b';
      SnapshotsInAppend(a, b');
    }
  }

  lemma {:induction false} SnapshotsInNone(ops: seq<Op>)
    requires forall i :: 0 <= i < |ops| ==> Snapshots(ops[i]) == 0
    ensures SnapshotsIn(ops) == 0
    decreases |ops|
  {
    if ops != [] {
      SnapshotsInNone(ops[..|ops| - 1]);
    }
  }

  /** Steps only check and advance: a step series takes no snapshot. */
  lemma StepSeriesNoSnapshots(c: BLeakConfig, t: StepType)
    ensures Snapshots(StepSeriesOf(c, t)) == 0
  {
    var cs := StepSeriesOf(c, t).children;
    forall i | 0 <= i < |cs|
      ensures Snapshots(cs[i]) == 0
    {
      var step := StepOp(c, t, i).children;
      SnapshotsInNone(step);
    }
    SnapshotsInNone(cs);
  }

  lemma IterationOpsSnapshots(c: BLeakConfig, hasSnapshotCb: bool)
    ensures SnapshotsIn(IterationOps(c, hasSnapshotCb)) == if hasSnapshotCb then 1 else 0
  {
    var first := [StepSeriesOf(c, Loop), Check(c.timeout, Loop, 0)] + DelayIf(c.postCheckSleep);
    var last := if hasSnapshotCb then [TakeHeapSnapshot(c.timeout)] else [];
    StepSeriesNoSnapshots(c, Loop);
    SnapshotsInNone(first);
    SnapshotsInAppend(first, last);
  }

  lemma {:induction false} IterationsSnapshots(c: BLeakConfig, hasSnapshotCb: bool, n: nat)
    ensures SnapshotsIn(Iterations(c, hasSnapshotCb, n)) == if hasSnapshotCb then n else 0
  {
    if n > 0 {
      IterationsSnapshots(c, hasSnapshotCb, n - 1);
      SnapshotsInAppend(Iterations(c, hasSnapshotCb, n - 1), IterationOps(c, hasSnapshotCb));
      IterationOpsSnapshots(c, hasSnapshotCb);
    }
  }

  lemma HeadSnapshots(c: BLeakConfig, runLogin: bool, takeInitialSnapshot: bool, hasSnapshotCb: bool)
    ensures SnapshotsIn(ProgramRunHead(c, runLogin, takeInitialSnapshot, hasSnapshotCb))
      == if takeInitialSnapshot && hasSnapshotCb then 1 else 0
  {
    var before := [Navigate(c.timeout, c.url)] + LoginOps(c, runLogin) + SetupOps(c);
    var snap := InitialSnapshotOps(c, takeInitialSnapshot && hasSnapshotCb);
    StepSeriesNoSnapshots(c, Login);
    StepSeriesNoSnapshots(c, Setup);
    SnapshotsInNone(before);
    SnapshotsInAppend(before, snap);
    if snap != [] {
      var waits := [Check(c.timeout, Loop, 0)] + DelayIf(c.postCheckSleep);
      SnapshotsInNone(waits);
      SnapshotsInAppend(waits, [TakeHeapSnapshot(c.timeout)]);
    }
  }

  /**
   * A program run with a snapshot callback takes one snapshot per
   * iteration, plus the initial one when asked for; without a callback it
   * takes none.
   */
  lemma ProgramRunSnapshots(c: BLeakConfig, runLogin: bool, iterations: int, takeInitialSnapshot: bool, hasSnapshotCb: bool)
    ensures Snapshots(ProgramRunOf(c, runLogin, iterations, takeInitialSnapshot, hasSnapshotCb))
      == if hasSnapshotCb then IterationCount(iterations) + (if takeInitialSnapshot then 1 else 0) else 0
  {
    var head := ProgramRunHead(c, runLogin, takeInitialSnapshot, hasSnapshotCb);
    var iters := Iterations(c, hasSnapshotCb, IterationCount(iterations));
    SnapshotsInAppend(head, iters);
    HeadSnapshots(c, runLogin, takeInitialSnapshot, hasSnapshotCb);
    IterationsSnapshots(c, hasSnapshotCb, IterationCount(iterations));
  }

  // ---------------------------------------------------------------------
  // Finding and diagnosing leaks
  // ---------------------------------------------------------------------

  /**
   * `FindLeaks`: configure the proxy (no rewriting, the configured fixes),
   * then run the program with login for `iterations` iterations, taking a
   * snapshot after each.
   */
  function FindLeaksOf(c: BLeakConfig): Op {
    Composite(FindLeaks, [
      ConfigureProxy(ProxySettings(false, c.fixedLeaks, false, c.rewrite, BrowserInjection(c))),
      ProgramRunOf(c, true, c.iterations, false, true)])
  }

  /**
   * `DiagnoseLeaks`: configure the proxy to rewrite, warm up with one
   * iteration (logging in unless already logged in), instrument the
   * growing paths, run the loop twice and collect the stack traces.
   */
  function DiagnoseLeaksOf(c: BLeakConfig, isLoggedIn: bool): Op {
    Composite(DiagnoseLeaks, [
      ConfigureProxy(ProxySettings(true, c.fixedLeaks, false, c.rewrite, BrowserInjection(c))),
      ProgramRunOf(c, !isLoggedIn, 1, false, false),
      InstrumentGrowingPaths(c.timeout),
      StepSeriesOf(c, Loop),
      StepSeriesOf(c, Loop),
      GetGrowthStacks(c.timeout)])
  }

  /** `FindAndDiagnoseLeaks`: find, then diagnose without logging in again. */
  function FindAndDiagnoseLeaksOf(c: BLeakConfig): Op {
    Composite(FindAndDiagnoseLeaks, [FindLeaksOf(c), DiagnoseLeaksOf(c, true)])
  }

  /** The `FindLeaks` constructor. */
  method FindLeaksOperation(c: BLeakConfig) returns (r: Op)
    ensures r == FindLeaksOf(c)
  {
    var run := ProgramRunOperation(c, true, c.iterations, false, true);
    r := Composite(FindLeaks, [ConfigureProxy(ProxySettings(false, c.fixedLeaks, false, c.rewrite, BrowserInjection(c))), run]);
  }

  /** The `DiagnoseLeaks` constructor. */
  method DiagnoseLeaksOperation(c: BLeakConfig, isLoggedIn: bool) returns (r: Op)
    ensures r == DiagnoseLeaksOf(c, isLoggedIn)
  {
    var warmup := ProgramRunOperation(c, !isLoggedIn, 1, false, false);
    var loop1 := StepSeriesOperation(c, Loop);
    var loop2 := StepSeriesOperation(c, Loop);
    r := Composite(DiagnoseLeaks, [
      ConfigureProxy(ProxySettings(true, c.fixedLeaks, false, c.rewrite, BrowserInjection(c))),
      warmup, InstrumentGrowingPaths(c.timeout), loop1, loop2, GetGrowthStacks(c.timeout)]);
  }

  /** The `FindAndDiagnoseLeaks` constructor. */
  method FindAndDiagnoseLeaksOperation(c: BLeakConfig) returns (r: Op)
    ensures r == FindAndDiagnoseLeaksOf(c)
  {
    var find := FindLeaksOperation(c);
    var diagnose := DiagnoseLeaksOperation(c, true);
    r := Composite(FindAndDiagnoseLeaks, [find, diagnose]);
  }

  /** Two operations take the snapshots of each. */
  lemma SnapshotsInPair(a: Op, b: Op)
    ensures SnapshotsIn([a, b]) == Snapshots(a) + Snapshots(b)
  {
    assert [a, b][..1] == [a];
    assert [a][..0] == [];
    assert SnapshotsIn([a]) == SnapshotsIn([]) + Snapshots(a);
  }

  /** Finding leaks takes one heap snapshot per configured iteration. */
  lemma FindLeaksSnapshots(c: BLeakConfig)
    ensures Snapshots(FindLeaksOf(c)) == IterationCount(c.iterations)
  {
    ProgramRunSnapshots(c, true, c.iterations, false, true);
    var f := FindLeaksOf(c).children;
    SnapshotsInPair(f[0], f[1]);
  }

  /** Diagnosing leaks takes no heap snapshot. */
  lemma DiagnoseLeaksSnapshots(c: BLeakConfig, isLoggedIn: bool)
    ensures Snapshots(DiagnoseLeaksOf(c, isLoggedIn)) == 0
  {
    ProgramRunSnapshots(c, !isLoggedIn, 1, false, false);
    StepSeriesNoSnapshots(c, Loop);
    SnapshotsInNone(DiagnoseLeaksOf(c, isLoggedIn).children);
  }

  /** Finding and diagnosing takes exactly the snapshots of finding: one per iteration. */
  lemma FindAndDiagnoseSnapshots(c: BLeakConfig)
    ensures Snapshots(FindAndDiagnoseLeaksOf(c)) == IterationCount(c.iterations)
  {
    FindLeaksSnapshots(c);
    DiagnoseLeaksSnapshots(c, true);
    SnapshotsInPair(FindLeaksOf(c), DiagnoseLeaksOf(c, true));
  }

  // ---------------------------------------------------------------------
  // Ranking evaluation: the runs already recorded
  // ---------------------------------------------------------------------

  function StatsOf(re: Results.RankingEvaluation, m: Metric): Results.MetricStats {
    match m
    case LeakShare => re.leakShare
    case RetainedSize => re.retainedSize
    case TransitiveClosureSize => re.transitiveClosureSize
  }

  /** `config[metric]`: the configuration is used to evaluate the metric. */
  function Uses(cfg: EvalConfig, m: Metric): bool {
    match m
    case LeakShare => cfg.leakShare
    case RetainedSize => cfg.retainedSize
    case TransitiveClosureSize => cfg.transitiveClosureSize
  }

  /** `arr[i]`: undefined (None) past the end or in a hole. */
  function At<T>(s: seq<Option<T>>, i: nat): Option<T> {
    if i < |s| then s[i] else None
  }

  /** `stats[len][run]` holds a run's sizes. */
  predicate Recorded(stats: Results.MetricStats, len: nat, run: nat) {
    At(stats, len).Some? && At(At(stats, len).value, run).Some?
  }

  /**
   * `EvaluateRankingMetricProgramRunOperation.skip`: every metric the
   * configuration is used for already has this run, at the configuration's
   * number of fixes.
   */
  predicate RunDone(re: Results.RankingEvaluation, cfg: EvalConfig, run: nat) {
    (cfg.leakShare ==> Recorded(re.leakShare, |cfg.fixIds|, run))
    && (cfg.retainedSize ==> Recorded(re.retainedSize, |cfg.fixIds|, run))
    && (cfg.transitiveClosureSize ==> Recorded(re.transitiveClosureSize, |cfg.fixIds|, run))
  }

  /** `arr[i] = v` on a JavaScript array: the array grows, with holes, to reach index `i`. */
  function StoreAt<T>(s: seq<Option<T>>, i: nat, v: T): (r: seq<Option<T>>)
    ensures |r| == if i < |s| then |s| else i + 1
    ensures r[i] == Some(v)
    ensures forall j :: 0 <= j < |r| && j != i ==> r[j] == At(s, j)
  {
    if i < |s| then s[i := Some(v)] else s + seq(i - |s|, _ => None) + [Some(v)]
  }

  /** `(stats[len] ||= [])[run] = buffer`. */
  function StoreRun(stats: Results.MetricStats, len: nat, run: nat, buffer: Results.RunStats): Results.MetricStats {
    StoreAt(stats, len, StoreAt(At(stats, len).GetOr([]), run, buffer))
  }

  /** What `EvaluateRankingMetricProgramRunOperation._run` stores for each metric the configuration is used for. */
  function RecordRun(re: Results.RankingEvaluation, cfg: EvalConfig, run: nat, buffer: Results.RunStats): Results.RankingEvaluation {
    var len := |cfg.fixIds|;
    Results.RankingEvaluation(
      if cfg.transitiveClosureSize then StoreRun(re.transitiveClosureSize, len, run, buffer) else re.transitiveClosureSize,
      if cfg.leakShare then StoreRun(re.leakShare, len, run, buffer) else re.leakShare,
      if cfg.retainedSize then StoreRun(re.retainedSize, len, run, buffer) else re.retainedSize)
  }

  /** Storing a run records it, and keeps every other recorded run as it was. */
  lemma StoreRunRecords(stats: Results.MetricStats, len: nat, run: nat, buffer: Results.RunStats, l: nat, k: nat)
    ensures Recorded(StoreRun(stats, len, run, buffer), len, run)
    ensures At(At(StoreRun(stats, len, run, buffer), len).value, run) == Some(buffer)
    ensures (l != len || k != run) && Recorded(stats, l, k) ==>
      Recorded(StoreRun(stats, len, run, buffer), l, k)
      && At(At(StoreRun(stats, len, run, buffer), l).value, k) == At(At(stats, l).value, k)
  {
  }

  /**
   * Once a run's sizes are stored, the run counts as done and is skipped
   * next time; runs recorded before are kept, and metrics the
   * configuration is not used for are untouched.
   */
  lemma RecordRunDone(re: Results.RankingEvaluation, cfg: EvalConfig, run: nat, buffer: Results.RunStats)
    ensures RunDone(RecordRun(re, cfg, run, buffer), cfg, run)
    ensures forall m :: !Uses(cfg, m) ==> StatsOf(RecordRun(re, cfg, run, buffer), m) == StatsOf(re, m)
    ensures forall m, l: nat, k: nat :: (l != |cfg.fixIds| || k != run) && Recorded(StatsOf(re, m), l, k) ==>
      Recorded(StatsOf(RecordRun(re, cfg, run, buffer), m), l, k)
  {
    var len := |cfg.fixIds|;
    StoreRunRecords(re.leakShare, len, run, buffer, 0, 0);
    StoreRunRecords(re.retainedSize, len, run, buffer, 0, 0);
    StoreRunRecords(re.transitiveClosureSize, len, run, buffer, 0, 0);
    forall m, l: nat, k: nat | (l != len || k != run) && Recorded(StatsOf(re, m), l, k)
      ensures Recorded(StatsOf(RecordRun(re, cfg, run, buffer), m), l, k)
    {
      StoreRunRecords(StatsOf(re, m), len, run, buffer, l, k);
    }
  }

  /** The configuration is used for at least one metric. */
  predicate UsesAny(cfg: EvalConfig) {
    cfg.leakShare || cfg.retainedSize || cfg.transitiveClosureSize
  }

  /** The operations that define a `skip` of their own; every other operation never skips. */
  predicate SkippableKind(op: Op) {
    op.Composite?
    && (op.kind.FindLeaks? || op.kind.DiagnoseLeaks? || op.kind.EvaluateRankingMetricProgramRun? || op.kind.EvaluateRankingMetrics?)
  }

  /**
   * The `skip` methods that read `opSt.results` without testing it first:
   * diagnosing, the whole evaluation, and an evaluation run whose
   * configuration is used for some metric.
   */
  predicate ReadsResults(op: Op) {
    op.Composite?
    && (op.kind.DiagnoseLeaks? || op.kind.EvaluateRankingMetrics?
        || (op.kind.EvaluateRankingMetricProgramRun? && UsesAny(op.kind.evalConfig)))
  }

  /**
   * The `skip` decisions of the operations, given the results so far
   * (None before any leaks were found): finding is skipped once there are
   * results, diagnosing when there are no leaks, an evaluation run when
   * its sizes are recorded, and the whole evaluation with fewer than two
   * leaks. Other operations are never skipped. None where the source's
   * `skip` throws a TypeError, reading a property of missing results.
   */
  function SkipRule(op: Op, results: Option<(nat, Results.RankingEvaluation)>): (r: Option<bool>)
    ensures r.None? <==> results.None? && ReadsResults(op)
    ensures r == Some(true) ==> SkippableKind(op)
    ensures op.Composite? && op.kind.FindLeaks? ==> r == Some(results.Some?)
    ensures op.Composite? && op.kind.EvaluateRankingMetricProgramRun? && results.Some? ==>
      r == Some(RunDone(results.value.1, op.kind.evalConfig, op.kind.runNumber))
  {
    match op
    case Composite(FindLeaks, _) => Some(results.Some?)
    case Composite(DiagnoseLeaks, _) => if results.None? then None else Some(results.value.0 == 0)
    case Composite(EvaluateRankingMetricProgramRun(cfg, run), _) =>
      if results.Some? then Some(RunDone(results.value.1, cfg, run))
      else if UsesAny(cfg) then None
      else Some(true)
    case Composite(EvaluateRankingMetrics, _) => if results.None? then None else Some(results.value.0 < 2)
    case _ => Some(false)
  }

  /** Running an evaluation run whose sizes are recorded advances the progress bar and runs nothing. */
  method RunRecordedEvaluation(op: Op, st: OperationState, leakCount: nat, re: Results.RankingEvaluation)
    requires op.Composite? && op.kind.EvaluateRankingMetricProgramRun?
    requires RunDone(re, op.kind.evalConfig, op.kind.runNumber)
    modifies st
    ensures st.progress == old(st.progress) + Size(op) && st.performed == old(st.performed)
  {
    Run(op, st, o => SkipRule(o, Some((leakCount, re))).GetOr(false));
  }

  // ---------------------------------------------------------------------
  // Ranking evaluation: metric orders
  // ---------------------------------------------------------------------

  /** The score a metric gives leak `id` (0 for an id past the end, which the source never asks for). */
  function ScoreOf(leaks: seq<LeakRootRecord>, id: nat, m: Metric): int {
    if id < |leaks| then MetricScore(leaks[id].scores, m) else 0
  }

  /** Ordered by the metric, highest score first. */
  predicate Descending(ids: seq<nat>, leaks: seq<LeakRootRecord>, m: Metric) {
    forall i, j :: 0 <= i < j < |ids| ==> ScoreOf(leaks, ids[i], m) >= ScoreOf(leaks, ids[j], m)
  }

  /** Inserts `id` after every id that scores at least as high. */
  function InsertId(ids: seq<nat>, id: nat, leaks: seq<LeakRootRecord>, m: Metric): (r: seq<nat>)
    ensures multiset(r) == multiset(ids) + multiset{id}
  {
    if |ids| == 0 then [id]
    else if ScoreOf(leaks, ids[0], m) < ScoreOf(leaks, id, m) then [id] + ids
    else
      assert ids == [ids[0]] + ids[1..];
      [ids[0]] + InsertId(ids[1..], id, leaks, m)
  }

  /** Inserting keeps the ids ordered by the metric. */
  lemma {:induction false} InsertIdSorted(ids: seq<nat>, id: nat, leaks: seq<LeakRootRecord>, m: Metric)
    requires Descending(ids, leaks, m)
    ensures Descending(InsertId(ids, id, leaks, m), leaks, m)
  {
    if |ids| == 0 {
    } else if ScoreOf(leaks, ids[0], m) < ScoreOf(leaks, id, m) {
      assert forall k :: 0 <= k < |ids| ==> ScoreOf(leaks, id, m) >= ScoreOf(leaks, ids[k], m);
      ConsSorted(id, ids, leaks, m);
    } else {
      var rest := InsertId(ids[1..], id, leaks, m);
      InsertIdSorted(ids[1..], id, leaks, m);
      forall k | 0 <= k < |rest| ensures ScoreOf(leaks, ids[0], m) >= ScoreOf(leaks, rest[k], m) {
        assert rest[k] in multiset(rest);
        HeadOutscores(ids, id, leaks, m, rest[k]);
      }
      ConsSorted(ids[0], rest, leaks, m);
    }
  }

  /** A sorted list stays sorted behind an id that outscores all of it. */
  lemma ConsSorted(head: nat, rest: seq<nat>, leaks: seq<LeakRootRecord>, m: Metric)
    requires Descending(rest, leaks, m)
    requires forall k :: 0 <= k < |rest| ==> ScoreOf(leaks, head, m) >= ScoreOf(leaks, rest[k], m)
    ensures Descending([head] + rest, leaks, m)
  {
    var r := [head] + rest;
    forall i, j | 0 <= i < j < |r| ensures ScoreOf(leaks, r[i], m) >= ScoreOf(leaks, r[j], m) {
      assert r[j] == rest[j - 1];
      if i > 0 {
        assert r[i] == rest[i - 1];
      }
    }
  }

  /** The first id of a sorted list outscores everything after it, and the inserted id when it does not score higher. */
  lemma HeadOutscores(ids: seq<nat>, id: nat, leaks: seq<LeakRootRecord>, m: Metric, x: nat)
    requires Descending(ids, leaks, m) && |ids| > 0
    requires ScoreOf(leaks, ids[0], m) >= ScoreOf(leaks, id, m)
    requires x in multiset(InsertId(ids[1..], id, leaks, m))
    ensures ScoreOf(leaks, ids[0], m) >= ScoreOf(leaks, x, m)
  {
    if x != id {
      assert x in multiset(ids[1..]);
      var k :| 0 <= k < |ids[1..]| && ids[1..][k] == x;
      assert ids[k + 1] == x;
    }
  }

  /**
   * `leaksById.sort(getSorter(metric))`: a stable sort by descending score,
   * starting from the order the previous sort left.
   */
  function SortIds(ids: seq<nat>, leaks: seq<LeakRootRecord>, m: Metric): (r: seq<nat>)
    ensures multiset(r) == multiset(ids)
  {
    if |ids| == 0 then []
    else
      assert ids == ids[..|ids| - 1] + [ids[|ids| - 1]];
      InsertId(SortIds(ids[..|ids| - 1], leaks, m), ids[|ids| - 1], leaks, m)
  }

  /** Each sort leaves the ids ordered by its metric, highest score first. */
  lemma {:induction false} SortIdsSorted(ids: seq<nat>, leaks: seq<LeakRootRecord>, m: Metric)
    ensures Descending(SortIds(ids, leaks, m), leaks, m)
  {
    if |ids| > 0 {
      SortIdsSorted(ids[..|ids| - 1], leaks, m);
      InsertIdSorted(SortIds(ids[..|ids| - 1], leaks, m), ids[|ids| - 1], leaks, m);
    }
  }

  /** The leak ids `0 .. |leaks| - 1`, in order. */
  function LeakIds(n: nat): (r: seq<nat>)
    ensures |r| == n && forall i :: 0 <= i < n ==> r[i] == i
  {
    seq(n, i requires 0 <= i < n => i)
  }

  /** A sort only reorders: every leak id appears once in each metric's order. */
  lemma SortedIdsAreAllLeaks(n: nat, leaks: seq<LeakRootRecord>, m: Metric)
    ensures |SortIds(LeakIds(n), leaks, m)| == n
    ensures forall id: nat :: id in SortIds(LeakIds(n), leaks, m) <==> id < n
  {
    var s := SortIds(LeakIds(n), leaks, m);
    assert |s| == |multiset(s)| == |multiset(LeakIds(n))| == n;
    forall id: nat ensures id in s <==> id < n {
      assert id in s <==> id in multiset(s);
      assert id < n ==> LeakIds(n)[id] == id;
    }
  }

  // Fix ids

  /** Why a leak has no fix id. */
  datatype RankingError =
    | NoPath(leak: nat)      // the leak has no printable first path
    | NoFixId(path: string)  // `Unable to find fix ID for ${str}.`
    | FixMapTypeError        // `config.fixMap` is null or undefined

  /**
   * `fixMapper`: the fix id `config.fixMap` gives the text of the leak's
   * first path.
   */
  function FixIdOf(c: BLeakConfig, leaks: seq<LeakRootRecord>, id: nat): (r: Result<int, RankingError>)
    ensures r.Ok? ==> (id < |leaks| && |leaks[id].paths| > 0 && PathPrinting.PathText(leaks[id].paths[0]).Some?
      && GetProp(c.fixMap, PathPrinting.PathText(leaks[id].paths[0]).value) == Some(Number(r.value)))
  {
    if id >= |leaks| || |leaks[id].paths| == 0 then Err(NoPath(id))
    else match PathPrinting.PathText(leaks[id].paths[0])
      case None => Err(NoPath(id))
      case Some(str) =>
        match GetProp(c.fixMap, str)
        case None => Err(FixMapTypeError)
        case Some(Number(n)) => Ok(n)
        case Some(_) => Err(NoFixId(str))
  }

  /** `ids.map(fixMapper)`: stops at the first leak without a fix id. */
  function FixIds(c: BLeakConfig, leaks: seq<LeakRootRecord>, ids: seq<nat>): (r: Result<seq<int>, RankingError>)
    ensures r.Ok? <==> forall i :: 0 <= i < |ids| ==> FixIdOf(c, leaks, ids[i]).Ok?
    ensures r.Ok? ==> |r.value| == |ids| && forall i :: 0 <= i < |ids| ==> FixIdOf(c, leaks, ids[i]) == Ok(r.value[i])
  {
    if |ids| == 0 then Ok([])
    else
      var first :- FixIdOf(c, leaks, ids[0]);
      var rest :- FixIds(c, leaks, ids[1..]);
      assert forall i :: 1 <= i < |ids| ==> ids[i] == ids[1..][i - 1];
      Ok([first] + rest)
  }

  /**
   * `orders[metric]`: the fix ids in the metric's order, each kept at its
   * first occurrence (`reduce(removeDupes, [])`).
   */
  function MetricOrder(c: BLeakConfig, leaks: seq<LeakRootRecord>, ids: seq<nat>): Result<seq<int>, RankingError> {
    var fixes :- FixIds(c, leaks, ids);
    Ok(Dedup(fixes))
  }

  /** The order of fixes for each metric, in the order the source computes them. */
  function MetricOrders(c: BLeakConfig, leaks: seq<LeakRootRecord>): (r: Result<seq<seq<int>>, RankingError>)
    ensures r.Ok? ==> |r.value| == 3
  {
    var byLeakShare := SortIds(LeakIds(|leaks|), leaks, LeakShare);
    var byRetainedSize := SortIds(byLeakShare, leaks, RetainedSize);
    var byClosureSize := SortIds(byRetainedSize, leaks, TransitiveClosureSize);
    var ls :- MetricOrder(c, leaks, byLeakShare);
    var rs :- MetricOrder(c, leaks, byRetainedSize);
    var tcs :- MetricOrder(c, leaks, byClosureSize);
    Ok([ls, rs, tcs])
  }

  /** Each metric's order lists, without repeats, exactly the fix ids of the leaks. */
  lemma MetricOrderMembers(c: BLeakConfig, leaks: seq<LeakRootRecord>, ids: seq<nat>)
    requires MetricOrder(c, leaks, ids).Ok?
    ensures Distinct(MetricOrder(c, leaks, ids).value)
    ensures forall x :: x in MetricOrder(c, leaks, ids).value <==> exists k :: 0 <= k < |ids| && FixIdOf(c, leaks, ids[k]) == Ok(x)
  {
    var fixes := FixIds(c, leaks, ids).value;
    DedupMembers(fixes);
    forall x ensures x in fixes <==> exists k :: 0 <= k < |ids| && FixIdOf(c, leaks, ids[k]) == Ok(x) {
      if x in fixes {
        var k :| 0 <= k < |fixes| && fixes[k] == x;
        assert FixIdOf(c, leaks, ids[k]) == Ok(x);
      }
    }
  }

  // ---------------------------------------------------------------------
  // Ranking evaluation: configurations, keyed by their set of fixes
  // ---------------------------------------------------------------------

  predicate Ascending(s: seq<int>) {
    forall i, j :: 0 <= i < j < |s| ==> s[i] <= s[j]
  }

  /** Inserts `x` before the first larger element. */
  function InsertAsc(s: seq<int>, x: int): (r: seq<int>)
    ensures multiset(r) == multiset(s) + multiset{x}
  {
    if |s| == 0 || x <= s[0] then [x] + s
    else
      assert s == [s[0]] + s[1..];
      [s[0]] + InsertAsc(s[1..], x)
  }

  /** `set.sort(increasingSort)`. */
  function SortAsc(s: seq<int>): (r: seq<int>)
    ensures multiset(r) == multiset(s)
  {
    if |s| == 0 then []
    else
      assert s == s[..|s| - 1] + [s[|s| - 1]];
      InsertAsc(SortAsc(s[..|s| - 1]), s[|s| - 1])
  }

  lemma {:induction false} InsertAscSorted(s: seq<int>, x: int)
    requires Ascending(s)
    ensures Ascending(InsertAsc(s, x))
  {
    if |s| > 0 && x > s[0] {
      var rest := InsertAsc(s[1..], x);
      InsertAscSorted(s[1..], x);
      forall k | 0 <= k < |rest| ensures s[0] <= rest[k] {
        assert rest[k] in multiset(rest);
        if rest[k] != x {
          assert rest[k] in multiset(s[1..]);
          var j :| 0 <= j < |s[1..]| && s[1..][j] == rest[k];
          assert s[j + 1] == rest[k];
        }
      }
      ConsAscending(s[0], rest);
    } else {
      ConsAscending(x, s);
    }
  }

  lemma ConsAscending(x: int, s: seq<int>)
    requires Ascending(s) && forall k :: 0 <= k < |s| ==> x <= s[k]
    ensures Ascending([x] + s)
  {
    var r := [x] + s;
    forall i, j | 0 <= i < j < |r| ensures r[i] <= r[j] {
      assert r[j] == s[j - 1];
      if i > 0 {
        assert r[i] == s[i - 1];
      }
    }
  }

  /** The sort yields ascending numbers. */
  lemma {:induction false} SortAscSorted(s: seq<int>)
    ensures Ascending(SortAsc(s))
  {
    if |s| > 0 {
      SortAscSorted(s[..|s| - 1]);
      InsertAscSorted(SortAsc(s[..|s| - 1]), s[|s| - 1]);
    }
  }

  /** Two ascending lists with the same elements are equal. */
  lemma {:induction false} AscendingUnique(a: seq<int>, b: seq<int>)
    requires Ascending(a) && Ascending(b) && multiset(a) == multiset(b)
    ensures a == b
    decreases |a|
  {
    if |a| > 0 {
      AscendingHeads(a, b);
      AscendingUnique(a[1..], b[1..]);
      assert a == [a[0]] + a[1..] && b == [b[0]] + b[1..];
    } else {
      assert |b| == |multiset(b)| == |multiset(a)| == 0;
    }
  }

  /** Two ascending lists with the same elements start alike and go on with the same elements. */
  lemma AscendingHeads(a: seq<int>, b: seq<int>)
    requires Ascending(a) && Ascending(b) && multiset(a) == multiset(b) && |a| > 0
    ensures |b| == |a| && a[0] == b[0] && multiset(a[1..]) == multiset(b[1..])
  {
    assert |b| == |multiset(b)| == |multiset(a)| == |a|;
    assert a[0] in multiset(b) && b[0] in multiset(a);
    var i :| 0 <= i < |b| && b[i] == a[0];
    var j :| 0 <= j < |a| && a[j] == b[0];
    assert a[0] <= a[j] && b[0] <= b[i];
    MultisetTail(a);
    MultisetTail(b);
  }

  lemma MultisetTail(s: seq<int>)
    requires |s| > 0
    ensures multiset(s[1..]) == multiset(s) - multiset{s[0]}
  {
    assert s == [s[0]] + s[1..];
  }

  /** Reordering a set of fixes does not change its sorted form. */
  lemma SortAscPermutation(a: seq<int>, b: seq<int>)
    requires multiset(a) == multiset(b)
    ensures SortAsc(a) == SortAsc(b)
  {
    SortAscSorted(a);
    SortAscSorted(b);
    AscendingUnique(SortAsc(a), SortAsc(b));
  }

  /** The decimal forms of the fix ids. */
  function IntStrings(s: seq<int>): (r: seq<string>)
    ensures |r| == |s| && forall i :: 0 <= i < |s| ==> r[i] == IntToString(s[i])
  {
    seq(|s|, i requires 0 <= i < |s| => IntToString(s[i]))
  }

  /** `ids.join(',')`. */
  function KeyText(ids: seq<int>): string {
    Join(IntStrings(ids), ",")
  }

  /**
   * `leakSetKey`: sorts the array in place (the library sort, modelled by
   * its result) and joins the numbers with commas.
   */
  method LeakSetKey(a: array<int>) returns (key: string)
    modifies a
    ensures a[..] == SortAsc(old(a[..]))
    ensures key == KeyText(a[..])
  {
    var sorted := SortAsc(a[..]);
    assert |sorted| == |multiset(sorted)| == a.Length;
    for k := 0 to a.Length
      invariant a[..k] == sorted[..k]
    {
      a[k] := sorted[k];
    }
    assert a[..] == a[..a.Length];
    key := KeyText(a[..]);
  }

  /** The key of a list of fixes depends only on which fixes it holds. */
  lemma LeakSetKeyPermutation(a: seq<int>, b: seq<int>)
    requires multiset(a) == multiset(b)
    ensures KeyText(SortAsc(a)) == KeyText(SortAsc(b))
  {
    SortAscPermutation(a, b);
  }

  /** `configsToTest`: the configurations in insertion order, and the map from key to configuration. */
  datatype ConfigTable = ConfigTable(keys: seq<string>, configs: map<string, EvalConfig>)

  /** `config[metric] = true`. */
  function WithMetric(cfg: EvalConfig, m: Metric): (r: EvalConfig)
    ensures r.fixIds == cfg.fixIds && Uses(r, m)
    ensures forall m' :: m' != m ==> Uses(r, m') == Uses(cfg, m')
  {
    match m
    case LeakShare => cfg.(leakShare := true)
    case RetainedSize => cfg.(retainedSize := true)
    case TransitiveClosureSize => cfg.(transitiveClosureSize := true)
  }

  /** The key of the first `i` fixes of an order. */
  function PrefixKey(order: seq<int>, i: nat): string
    requires i <= |order|
  {
    KeyText(SortAsc(order[..i]))
  }

  /** One step of the inner loop: the configuration for the first `i` fixes is used for `m`. */
  function AddPrefix(t: ConfigTable, order: seq<int>, i: nat, m: Metric): ConfigTable
    requires i <= |order|
  {
    var key := PrefixKey(order, i);
    if key in t.configs then ConfigTable(t.keys, t.configs[key := WithMetric(t.configs[key], m)])
    else ConfigTable(t.keys + [key], t.configs[key := WithMetric(EvalConfig(SortAsc(order[..i]), false, false, false), m)])
  }

  /** The inner loop after its first `n` steps. */
  function AddPrefixes(t: ConfigTable, order: seq<int>, m: Metric, n: nat): ConfigTable
    requires n <= |order| + 1
  {
    if n == 0 then t else AddPrefix(AddPrefixes(t, order, m, n - 1), order, n - 1, m)
  }

  /** The metrics in the order of the `orders` object. */
  function MetricAt(k: nat): Metric {
    if k == 0 then LeakShare else if k == 1 then RetainedSize else TransitiveClosureSize
  }

  /** The outer loop after its first `k` metrics. */
  function TableUpTo(orders: seq<seq<int>>, k: nat): ConfigTable
    requires k <= |orders|
  {
    if k == 0 then ConfigTable([], map[])
    else AddPrefixes(TableUpTo(orders, k - 1), orders[k - 1], MetricAt(k - 1), |orders[k - 1]| + 1)
  }

  /** The table holds a configuration for `key`, used for `m`. */
  predicate Flag(t: ConfigTable, key: string, m: Metric) {
    key in t.configs && Uses(t.configs[key], m)
  }

  /**
   * Each key is listed once and has a configuration; each configuration
   * holds its fixes in ascending order, is found under their key, and is
   * used for some metric.
   */
  ghost predicate WellKeyed(t: ConfigTable) {
    Distinct(t.keys)
    && (forall k :: k in t.configs <==> k in t.keys)
    && forall k :: k in t.configs ==>
      KeyText(t.configs[k].fixIds) == k && Ascending(t.configs[k].fixIds)
      && (t.configs[k].leakShare || t.configs[k].retainedSize || t.configs[k].transitiveClosureSize)
  }

  /** One step keeps the table well keyed, and sets exactly the flag of the step's prefix. */
  lemma AddPrefixFlags(t: ConfigTable, order: seq<int>, i: nat, m: Metric)
    requires i <= |order| && WellKeyed(t)
    ensures WellKeyed(AddPrefix(t, order, i, m))
    ensures forall k, m' :: Flag(AddPrefix(t, order, i, m), k, m') <==> Flag(t, k, m') || (k == PrefixKey(order, i) && m' == m)
  {
    AddPrefixKeyed(t, order, i, m);
  }

  lemma AddPrefixKeyed(t: ConfigTable, order: seq<int>, i: nat, m: Metric)
    requires i <= |order| && WellKeyed(t)
    ensures WellKeyed(AddPrefix(t, order, i, m))
  {
    var key := PrefixKey(order, i);
    var r := AddPrefix(t, order, i, m);
    if key !in t.configs {
      SortAscSorted(order[..i]);
      DistinctAppend(t.keys, key);
      assert r.keys == t.keys + [key];
    }
    forall k | k in r.configs
      ensures KeyText(r.configs[k].fixIds) == k && Ascending(r.configs[k].fixIds)
      ensures r.configs[k].leakShare || r.configs[k].retainedSize || r.configs[k].transitiveClosureSize
    {
      if k != key {
        assert r.configs[k] == t.configs[k];
      }
    }
  }

  lemma DistinctAppend<T>(s: seq<T>, x: T)
    requires Distinct(s) && x !in s
    ensures Distinct(s + [x])
  {
  }

  /** Some prefix of the first `n` of `order` has this key. */
  predicate IsPrefixKey(order: seq<int>, n: nat, key: string)
    requires n <= |order| + 1
  {
    exists i :: 0 <= i < n && PrefixKey(order, i) == key
  }

  /** The inner loop marks, for its metric, exactly the keys of the prefixes it visits. */
  lemma {:induction false} AddPrefixesFlags(t: ConfigTable, order: seq<int>, m: Metric, n: nat)
    requires n <= |order| + 1 && WellKeyed(t)
    ensures WellKeyed(AddPrefixes(t, order, m, n))
    ensures forall k, m' :: Flag(AddPrefixes(t, order, m, n), k, m') <==> Flag(t, k, m') || (m' == m && IsPrefixKey(order, n, k))
  {
    if n > 0 {
      var before := AddPrefixes(t, order, m, n - 1);
      AddPrefixesFlags(t, order, m, n - 1);
      AddPrefixFlags(before, order, n - 1, m);
      forall k ensures IsPrefixKey(order, n, k) <==> IsPrefixKey(order, n - 1, k) || k == PrefixKey(order, n - 1) {
        if IsPrefixKey(order, n, k) {
          var i :| 0 <= i < n && PrefixKey(order, i) == k;
          if i < n - 1 {
            assert IsPrefixKey(order, n - 1, k);
          }
        }
        if k == PrefixKey(order, n - 1) {
          assert PrefixKey(order, n - 1) == k;
        }
      }
    }
  }

  /**
   * After the outer loop's first `k` metrics the table stays well keyed, and
   * a configuration is used for one of those metrics exactly when its key is
   * that of a prefix (of length 0 to the whole order) of the metric's order.
   */
  lemma {:induction false} TableUpToFlags(orders: seq<seq<int>>, k: nat, key: string, j: nat)
    requires |orders| == 3 && k <= 3 && j < 3
    ensures WellKeyed(TableUpTo(orders, k))
    ensures Flag(TableUpTo(orders, k), key, MetricAt(j)) <==> j < k && IsPrefixKey(orders[j], |orders[j]| + 1, key)
  {
    if k > 0 {
      TableUpToFlags(orders, k - 1, key, j);
      AddPrefixesFlag(TableUpTo(orders, k - 1), orders[k - 1], MetricAt(k - 1), |orders[k - 1]| + 1, key, MetricAt(j));
      MetricAtInjective(j, k - 1);
      if j == k - 1 {
        assert orders[j] == orders[k - 1];
      }
    }
  }

  /** `AddPrefixesFlags` for one key and one metric. */
  lemma AddPrefixesFlag(t: ConfigTable, order: seq<int>, m: Metric, n: nat, key: string, m': Metric)
    requires n <= |order| + 1 && WellKeyed(t)
    ensures WellKeyed(AddPrefixes(t, order, m, n))
    ensures Flag(AddPrefixes(t, order, m, n), key, m') <==> Flag(t, key, m') || (m' == m && IsPrefixKey(order, n, key))
  {
    AddPrefixesFlags(t, order, m, n);
  }

  lemma MetricAtInjective(a: nat, b: nat)
    requires a < 3 && b < 3
    ensures MetricAt(a) == MetricAt(b) <==> a == b
  {
  }

  /** Prefixes of two metrics' orders that hold the same fixes share one configuration, used for both metrics. */
  lemma SharedConfiguration(orders: seq<seq<int>>, j1: nat, i1: nat, j2: nat, i2: nat)
    requires |orders| == 3 && j1 < 3 && j2 < 3 && i1 <= |orders[j1]| && i2 <= |orders[j2]|
    requires multiset(orders[j1][..i1]) == multiset(orders[j2][..i2])
    ensures PrefixKey(orders[j1], i1) == PrefixKey(orders[j2], i2)
    ensures Flag(TableUpTo(orders, 3), PrefixKey(orders[j1], i1), MetricAt(j1))
    ensures Flag(TableUpTo(orders, 3), PrefixKey(orders[j1], i1), MetricAt(j2))
  {
    SortAscPermutation(orders[j1][..i1], orders[j2][..i2]);
    TableUpToFlags(orders, 3, PrefixKey(orders[j1], i1), j1);
    TableUpToFlags(orders, 3, PrefixKey(orders[j1], i1), j2);
    assert IsPrefixKey(orders[j1], |orders[j1]| + 1, PrefixKey(orders[j1], i1));
    assert IsPrefixKey(orders[j2], |orders[j2]| + 1, PrefixKey(orders[j2], i2));
  }

  /**
   * The loops of the `EvaluateRankingMetricsOperation` constructor that fill
   * `configsToTest`: for each metric, for each prefix of its order, the
   * configuration under the prefix's key (created on first use) is marked
   * for the metric.
   */
  method BuildConfigTable(orders: seq<seq<int>>) returns (t: ConfigTable)
    requires |orders| == 3
    ensures t == TableUpTo(orders, 3)
  {
    t := ConfigTable([], map[]);
    for mi := 0 to 3
      invariant t == TableUpTo(orders, mi)
    {
      t := AddPrefixesLoop(t, orders[mi], MetricAt(mi));
    }
  }

  /** The inner loop: every prefix of one metric's order, from the empty one to the whole order. */
  method AddPrefixesLoop(t0: ConfigTable, order: seq<int>, m: Metric) returns (t: ConfigTable)
    ensures t == AddPrefixes(t0, order, m, |order| + 1)
  {
    t := t0;
    for i := 0 to |order| + 1
      invariant t == AddPrefixes(t0, order, m, i)
    {
      t := AddPrefixStep(t, order, i, m);
    }
  }

  /** The inner loop's body: `leakSetKey` on a fresh copy of the prefix, then the lookup and the flag. */
  method AddPrefixStep(t: ConfigTable, order: seq<int>, i: nat, m: Metric) returns (t': ConfigTable)
    requires i <= |order|
    ensures t' == AddPrefix(t, order, i, m)
  {
    var configOrder := new int[i](k requires 0 <= k < i => order[k]);
    assert configOrder[..] == order[..i];
    var key := LeakSetKey(configOrder);
    var fixIds := configOrder[..];
    assert fixIds == SortAsc(order[..i]) && key == PrefixKey(order, i);
    if key in t.configs {
      t' := ConfigTable(t.keys, t.configs[key := WithMetric(t.configs[key], m)]);
    } else {
      var config := EvalConfig(fixIds, false, false, false);
      t' := ConfigTable(t.keys + [key], t.configs[key := WithMetric(config, m)]);
    }
  }

  // ---------------------------------------------------------------------
  // Ranking evaluation: the operations
  // ---------------------------------------------------------------------

  /**
   * `EvaluateRankingMetricProgramRunOperation`: configure the proxy to apply
   * the configuration's fixes with every other rewrite off, then run the
   * program with an initial snapshot and a snapshot per iteration.
   */
  function EvalRunOf(c: BLeakConfig, cfg: EvalConfig, run: nat): Op {
    Composite(EvaluateRankingMetricProgramRun(cfg, run), [
      ConfigureProxy(ProxySettings(false, cfg.fixIds, true, c.rewrite, BrowserInjection(c))),
      ProgramRunOf(c, false, c.rankingEvaluationIterations, true, true)])
  }

  method EvalRunOperation(c: BLeakConfig, cfg: EvalConfig, run: nat) returns (r: Op)
    ensures r == EvalRunOf(c, cfg, run)
  {
    var programRun := ProgramRunOperation(c, false, c.rankingEvaluationIterations, true, true);
    r := Composite(EvaluateRankingMetricProgramRun(cfg, run), [
      ConfigureProxy(ProxySettings(false, cfg.fixIds, true, c.rewrite, BrowserInjection(c))), programRun]);
  }

  /** Each evaluation run buffers one heap size per snapshot: the initial one and one per iteration. */
  lemma EvalRunSnapshots(c: BLeakConfig, cfg: EvalConfig, run: nat)
    ensures Snapshots(EvalRunOf(c, cfg, run)) == IterationCount(c.rankingEvaluationIterations) + 1
  {
    var proxy := ConfigureProxy(ProxySettings(false, cfg.fixIds, true, c.rewrite, BrowserInjection(c)));
    SnapshotsInPair(proxy, ProgramRunOf(c, false, c.rankingEvaluationIterations, true, true));
    ProgramRunSnapshots(c, false, c.rankingEvaluationIterations, true, true);
  }

  /** The runs `0 .. n - 1` of one configuration. */
  function ConfigRuns(c: BLeakConfig, cfg: EvalConfig, n: nat): seq<Op> {
    if n == 0 then [] else ConfigRuns(c, cfg, n - 1) + [EvalRunOf(c, cfg, n - 1)]
  }

  lemma {:induction false} ConfigRunsLayout(c: BLeakConfig, cfg: EvalConfig, n: nat)
    ensures |ConfigRuns(c, cfg, n)| == n
    ensures forall i :: 0 <= i < n ==> ConfigRuns(c, cfg, n)[i] == EvalRunOf(c, cfg, i)
  {
    if n > 0 {
      ConfigRunsLayout(c, cfg, n - 1);
    }
  }

  /** Every listed key has a configuration. */
  predicate KeysListed(t: ConfigTable) {
    forall j :: 0 <= j < |t.keys| ==> t.keys[j] in t.configs
  }

  /** The runs of each configuration, configurations in insertion order. */
  function RunGroups(c: BLeakConfig, t: ConfigTable): (r: seq<seq<Op>>)
    requires KeysListed(t)
    ensures |r| == |t.keys|
    ensures forall k :: 0 <= k < |t.keys| ==> r[k] == ConfigRuns(c, t.configs[t.keys[k]], IterationCount(c.rankingEvaluationRuns))
  {
    seq(|t.keys|, k requires 0 <= k < |t.keys| => ConfigRuns(c, t.configs[t.keys[k]], IterationCount(c.rankingEvaluationRuns)))
  }

  /**
   * Each configuration contributes `rankingEvaluationRuns` runs, and the
   * runs are exactly the runs `0 .. rankingEvaluationRuns - 1` of each
   * configuration.
   */
  lemma AllRunsLayout(c: BLeakConfig, t: ConfigTable)
    requires KeysListed(t)
    ensures |Flatten(RunGroups(c, t))| == |t.keys| * IterationCount(c.rankingEvaluationRuns)
    ensures forall op :: op in Flatten(RunGroups(c, t)) <==>
      exists k, i :: 0 <= k < |t.keys| && 0 <= i < IterationCount(c.rankingEvaluationRuns) && op == EvalRunOf(c, t.configs[t.keys[k]], i)
  {
    var runs := IterationCount(c.rankingEvaluationRuns);
    var groups := RunGroups(c, t);
    forall k | 0 <= k < |groups| ensures |groups[k]| == runs {
      ConfigRunsLayout(c, t.configs[t.keys[k]], runs);
    }
    FlattenUniform(groups, runs);
    FlattenMembers(groups);
    forall op ensures op in Flatten(groups) <==>
      exists k, i :: 0 <= k < |t.keys| && 0 <= i < runs && op == EvalRunOf(c, t.configs[t.keys[k]], i)
    {
      if op in Flatten(groups) {
        var k :| 0 <= k < |groups| && op in groups[k];
        var i := GroupRunIndex(c, t, k, op);
      }
      if exists k, i :: 0 <= k < |t.keys| && 0 <= i < runs && op == EvalRunOf(c, t.configs[t.keys[k]], i) {
        var k, i :| 0 <= k < |t.keys| && 0 <= i < runs && op == EvalRunOf(c, t.configs[t.keys[k]], i);
        GroupHasRun(c, t, k, i);
      }
    }
  }

  /** A run in the group of configuration `k` is one of its numbered runs. */
  lemma GroupRunIndex(c: BLeakConfig, t: ConfigTable, k: nat, op: Op) returns (i: nat)
    requires KeysListed(t) && k < |t.keys| && op in RunGroups(c, t)[k]
    ensures i < IterationCount(c.rankingEvaluationRuns) && op == EvalRunOf(c, t.configs[t.keys[k]], i)
  {
    var runs := IterationCount(c.rankingEvaluationRuns);
    var group := RunGroups(c, t)[k];
    ConfigRunsLayout(c, t.configs[t.keys[k]], runs);
    i :| 0 <= i < runs && group[i] == op;
  }

  /** Each numbered run of configuration `k` is in its group. */
  lemma GroupHasRun(c: BLeakConfig, t: ConfigTable, k: nat, i: nat)
    requires KeysListed(t) && k < |t.keys| && i < IterationCount(c.rankingEvaluationRuns)
    ensures EvalRunOf(c, t.configs[t.keys[k]], i) in RunGroups(c, t)[k]
  {
    ConfigRunsLayout(c, t.configs[t.keys[k]], IterationCount(c.rankingEvaluationRuns));
    assert RunGroups(c, t)[k][i] == EvalRunOf(c, t.configs[t.keys[k]], i);
  }

  /**
   * The login block the constructor pushes before the runs, as corrected:
   * only a configuration with login steps logs in, as in
   * `ProgramRunOperation`.
   */
  function LoginBlock(c: BLeakConfig): seq<Op> {
    if |c.login| > 0 then LoginBlockAsWritten(c) else []
  }

  /**
   * The login block as written: `if (config.login)` holds for every array,
   * the empty one included, so the block is pushed whatever the
   * configuration says.
   */
  function LoginBlockAsWritten(c: BLeakConfig): seq<Op> {
    [ConfigureProxy(ProxySettings(false, [], true, c.rewrite, BrowserInjection(c))),
     Navigate(c.timeout, c.url),
     StepSeriesOf(c, Login),
     Delay(c.postLoginSleep)]
  }

  /**
   * Without login steps the block as written still loads the page and
   * waits `postLoginSleep` before the first evaluation run, which
   * `ProgramRunOperation` does not do for the same configuration.
   */
  lemma LoginBlockAsWrittenWithoutLogin(c: BLeakConfig)
    requires c.login == []
    ensures |LoginBlockAsWritten(c)| == 4 && LoginBlockAsWritten(c)[3] == Delay(c.postLoginSleep)
    ensures LoginBlockAsWritten(c)[2].children == []
    ensures LoginOps(c, true) == []
  {
  }

  /** The corrected block logs in exactly when a program run would. */
  lemma LoginBlockCorrected(c: BLeakConfig)
    ensures LoginBlock(c) == [] <==> LoginOps(c, true) == []
    ensures |c.login| > 0 ==> LoginBlock(c) == LoginBlockAsWritten(c)
  {
  }

  /**
   * `EvaluateRankingMetricsOperation`: the login block, then every run of
   * every configuration, configurations in the order they were first
   * created.
   */
  function EvaluateRankingMetricsOf(c: BLeakConfig, leaks: seq<LeakRootRecord>): Result<Op, RankingError> {
    var orders :- MetricOrders(c, leaks);
    var t := TableUpTo(orders, 3);
    TableUpToFlags(orders, 3, "", 0);
    Ok(Composite(EvaluateRankingMetrics, LoginBlock(c) + Flatten(RunGroups(c, t))))
  }

  method EvaluateRankingMetricsOperation(c: BLeakConfig, leaks: seq<LeakRootRecord>) returns (r: Result<Op, RankingError>)
    ensures r == EvaluateRankingMetricsOf(c, leaks)
  {
    var orders :- MetricOrders(c, leaks);
    var t := BuildConfigTable(orders);
    TableUpToFlags(orders, 3, "", 0);
    var login := LoginBlockOperation(c);
    var runs := RunsOperation(c, t);
    r := Ok(Composite(EvaluateRankingMetrics, login + runs));
  }

  /** `if (config.login) { ... }`, as corrected. */
  method LoginBlockOperation(c: BLeakConfig) returns (r: seq<Op>)
    ensures r == LoginBlock(c)
  {
    r := [];
    if |c.login| > 0 {
      var login := StepSeriesOperation(c, Login);
      r := [ConfigureProxy(ProxySettings(false, [], true, c.rewrite, BrowserInjection(c))),
        Navigate(c.timeout, c.url), login, Delay(c.postLoginSleep)];
    }
  }

  /** The nested loops over the configurations and their run numbers. */
  method RunsOperation(c: BLeakConfig, t: ConfigTable) returns (r: seq<Op>)
    requires KeysListed(t)
    ensures r == Flatten(RunGroups(c, t))
  {
    ghost var groups := RunGroups(c, t);
    r := [];
    for k := 0 to |t.keys|
      invariant r == Flatten(groups[..k])
    {
      var configRuns := ConfigRunsOperation(c, t.configs[t.keys[k]], IterationCount(c.rankingEvaluationRuns));
      assert groups[..k + 1][..k] == groups[..k];
      r := r + configRuns;
    }
    assert groups[..|t.keys|] == groups;
  }

  method ConfigRunsOperation(c: BLeakConfig, cfg: EvalConfig, runs: nat) returns (r: seq<Op>)
    ensures r == ConfigRuns(c, cfg, runs)
  {
    r := [];
    for i := 0 to runs
      invariant r == ConfigRuns(c, cfg, i)
    {
      var run := EvalRunOperation(c, cfg, i);
      r := r + [run];
    }
  }

  /** The property name of a metric. */
  function MetricName(m: Metric): string {
    match m
    case LeakShare => "leakShare"
    case RetainedSize => "retainedSize"
    case TransitiveClosureSize => "transitiveClosureSize"
  }

  /** The names of the metrics among the first `j` (in `MetricAt` order) the configuration is used for. */
  function UsedNamesUpTo(cfg: EvalConfig, j: nat): seq<string> {
    if j == 0 then []
    else UsedNamesUpTo(cfg, j - 1) + (if Uses(cfg, MetricAt(j - 1)) then [MetricName(MetricAt(j - 1))] else [])
  }

  /** `RankingEvalConfig.metrics()`: the names of the metrics the configuration is used for, joined with ", ". */
  method MetricsDescription(cfg: EvalConfig) returns (s: string)
    ensures s == Join(UsedNamesUpTo(cfg, 3), ", ")
  {
    var names := [];
    for j := 0 to 3
      invariant names == UsedNamesUpTo(cfg, j)
    {
      var m := MetricAt(j);
      if Uses(cfg, m) {
        names := names + [MetricName(m)];
      }
    }
    s := Join(names, ", ");
  }

  /** The description names each metric the configuration is used for, once, and no other. */
  lemma UsedNames(cfg: EvalConfig)
    ensures forall m :: MetricName(m) in UsedNamesUpTo(cfg, 3) <==> Uses(cfg, m)
    ensures Distinct(UsedNamesUpTo(cfg, 3))
  {
    UsedNamesMembers(cfg);
    UsedNamesDistinct(cfg);
  }

  lemma UsedNamesParts(cfg: EvalConfig)
    ensures UsedNamesUpTo(cfg, 3) == (if cfg.leakShare then ["leakShare"] else []) + (if cfg.retainedSize then ["retainedSize"] else [])
      + (if cfg.transitiveClosureSize then ["transitiveClosureSize"] else [])
  {
    assert UsedNamesUpTo(cfg, 1) == if cfg.leakShare then ["leakShare"] else [];
    assert UsedNamesUpTo(cfg, 2) == UsedNamesUpTo(cfg, 1) + (if cfg.retainedSize then ["retainedSize"] else []);
  }

  lemma UsedNamesMembers(cfg: EvalConfig)
    ensures forall m :: MetricName(m) in UsedNamesUpTo(cfg, 3) <==> Uses(cfg, m)
  {
    UsedNamesParts(cfg);
    MetricNamesDiffer();
  }

  lemma UsedNamesDistinct(cfg: EvalConfig)
    ensures Distinct(UsedNamesUpTo(cfg, 3))
  {
    UsedNamesParts(cfg);
    MetricNamesDiffer();
  }

  lemma MetricNamesDiffer()
    ensures "leakShare" != "retainedSize" && "leakShare" != "transitiveClosureSize" && "retainedSize" != "transitiveClosureSize"
  {
    assert "leakShare"[0] != "retainedSize"[0] && "leakShare"[0] != "transitiveClosureSize"[0];
    assert "retainedSize"[0] != "transitiveClosureSize"[0];
  }
}
