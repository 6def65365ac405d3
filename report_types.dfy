/**
 * The record types of a BLeak report: heap paths made of typed segments,
 * leak scores, stack frames and the source files they point into.
 */
module ReportTypes {
  /** `PathSegmentType`, with the numbering the report format uses. */
  datatype PathSegmentType = Property | Element | Closure | ClosureVariable | EventListenerList | DomTree | Unknown

  function PathSegmentTypeCode(t: PathSegmentType): (r: nat)
    ensures 1 <= r <= 7
  {
    match t
    case Property => 1
    case Element => 2
    case Closure => 3
    case ClosureVariable => 4
    case EventListenerList => 5
    case DomTree => 6
    case Unknown => 7
  }

  /** Distinct segment types have distinct codes. */
  lemma PathSegmentTypeCodeInjective(s: PathSegmentType, t: PathSegmentType)
    ensures PathSegmentTypeCode(s) == PathSegmentTypeCode(t) <==> s == t
  {
  }

  /** A segment's `indexOrName`: a number or a string. */
  datatype IndexOrName = Num(n: int) | Name(s: string)

  /** `IPathSegment`. */
  datatype PathSegment = PathSegment(segType: PathSegmentType, indexOrName: IndexOrName)

  /** `ILeakScores`. */
  datatype LeakScores = LeakScores(transitiveClosureSize: int, leakShare: int, retainedSize: int, ownedObjects: int)

  /** `MetricType`: the three scores leak roots are ranked by. */
  datatype Metric = RetainedSize | LeakShare | TransitiveClosureSize

  /** `scores[metric]`. */
  function MetricScore(s: LeakScores, m: Metric): int {
    match m
    case RetainedSize => s.retainedSize
    case LeakShare => s.leakShare
    case TransitiveClosureSize => s.transitiveClosureSize
  }

  /** `IStack`: offsets into the report's stack-frame array. */
  type Stack = seq<nat>

  /** `ILeakRoot`: the JSON form of a leak root. */
  datatype LeakRootRecord = LeakRootRecord(id: int, paths: seq<seq<PathSegment>>, scores: LeakScores, stacks: seq<Stack>)

  /** `IStackFrame`: url, line, column, function name, source. */
  datatype StackFrame = StackFrame(url: string, line: int, col: int, functionName: string, source: string)

  datatype MimeType = TextJavascript | TextHtml

  /** `ISourceFile`. */
  datatype SourceFileEntry = SourceFileEntry(mimeType: MimeType, source: string)
}
