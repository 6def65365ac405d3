/**
 * The streaming reader of Chrome heap snapshots (src/lib/heap_snapshot_parser.ts).
 *
 * Chrome sends a snapshot as text in arbitrary chunks: first the line
 * `{"snapshot":{...},` then one array property per line group
 * (`"nodes":[...]`, `"edges":[...]`, ..., `"strings":[...]`) and a final `}`.
 * The parser appends each chunk to a buffer, advances a state machine over
 * it, queues the events it recognises and hands them to readers in order.
 *
 * The pure part (`Step`, `Run`, `Finish`, `Process`) is the specification;
 * the class `HeapSnapshotParser` updates its fields in place and is proved
 * to agree with it. Both follow the source's states and branches except
 * where an array crosses a chunk boundary: there they use the corrected
 * cuts defined at the end of this module (`UnfinishedNumbers`,
 * `ArrayClose`, `UnfinishedStrings`), and the source's own cuts are kept
 * beside them as `UnfinishedNumbersAsWritten`, `ArrayCloseAsWritten` and
 * `UnfinishedStringsAsWritten`, each with an input that shows its defect.
 */
module HeapSnapshotParser {
  import opened Wrappers
  import opened JsStrings
  import opened JsonNumbers

  datatype ParserState = Error | SnapshotLine | ArrayPropertyBegin | NumberArray | StringArray | End

  /** The reasons `_raiseError` is called with. */
  datatype ParseError =
    | MissingSnapshotProperty
    | IncompleteSnapshotLine
    | MissingPropertyBegin
    | BadArrayEnd
    | BadSnapshotEnd
    | UnconsumedInput

  /**
   * Queued events. The snapshot line and string arrays are kept as the JSON
   * text handed to `JSON.parse`; `EndOfSnapshot` is the `null` end marker.
   */
  datatype ParserEvent =
    | SnapshotEvent(json: string)
    | NodesEvent(numbers: seq<int>)
    | EdgesEvent(numbers: seq<int>)
    | StringsEvent(body: string)
    | EndOfSnapshot

  const SNAPSHOT_PROP_NAME: string := "{\"snapshot\":"

  /** The fields `_parse` advances, with the position it has reached in the buffer. */
  datatype Cursor = Cursor(
    state: ParserState,
    error: Option<ParseError>,
    activeProperty: string,
    events: seq<ParserEvent>,
    pos: nat)

  /** One pass of the outer loop: go round again, leave the loop, or throw out of `_parse`. */
  datatype StepResult = Continue(cursor: Cursor) | Break(cursor: Cursor) | Threw(cursor: Cursor)

  datatype RunResult = Stopped(cursor: Cursor) | Thrown(cursor: Cursor)

  function Fail(c: Cursor, e: ParseError): (r: Cursor)
    ensures r.state == Error && r.error == Some(e)
    ensures r.events == c.events && r.pos == c.pos
  {
    c.(state := Error, error := Some(e))
  }

  /** The events a parsed number fragment produces for the active property. */
  function NumberEvents(property: string, numbers: seq<int>): seq<ParserEvent>
  {
    if property == "nodes" then [NodesEvent(numbers)]
    else if property == "edges" then [EdgesEvent(numbers)]
    else []
  }

  /** The text in [start, end), without one leading comma. */
  function Fragment(chunk: string, start: nat, end: nat): (r: string)
    requires start < end <= |chunk|
    ensures r == chunk[start..end] || (chunk[start] == ',' && r == chunk[start + 1..end])
  {
    if chunk[start] == ',' then chunk[start + 1..end] else chunk[start..end]
  }

  /** The last newline in [lo, hi). */
  function LastNewline(chunk: string, lo: nat, hi: nat): (r: Option<nat>)
    requires lo <= hi <= |chunk|
    ensures r.Some? ==> lo <= r.value < hi && chunk[r.value] == '\n'
    ensures r.Some? ==> forall i :: r.value < i < hi ==> chunk[i] != '\n'
    ensures r.None? ==> forall i :: lo <= i < hi ==> chunk[i] != '\n'
    decreases hi - lo
  {
    if hi == lo then None
    else if chunk[hi - 1] == '\n' then Some(hi - 1)
    else LastNewline(chunk, lo, hi - 1)
  }

  /**
   * Where an unfinished number array is cut, as the source does it: the
   * parsed text ends at the last newline, which defaults to the start of the
   * fragment, and the next chunk resumes one character later.
   * Result: (end of the parsed text, resume position).
   */
  function UnfinishedNumbersAsWritten(chunk: string, start: nat): (r: (nat, nat))
    requires start <= |chunk|
    ensures start <= r.0 && r.1 == r.0 + 1
  {
    var lastNewline := match LastNewline(chunk, start, |chunk|) case Some(k) => k case None => start;
    (lastNewline, lastNewline + 1)
  }

  /**
   * The cut with no newline in sight: nothing is parsed and nothing is
   * skipped, the whole fragment waits for the next chunk.
   */
  function UnfinishedNumbers(chunk: string, start: nat): (r: (nat, nat))
    requires start <= |chunk|
    ensures start <= r.0 <= r.1 <= |chunk|
    ensures r.1 == r.0 || (r.1 == r.0 + 1 && chunk[r.0] == '\n')
    ensures forall i :: r.1 <= i < |chunk| ==> chunk[i] != '\n'
  {
    match LastNewline(chunk, start, |chunk|)
    case Some(k) => (k, k + 1)
    case None => (start, start)
  }

  /** The flags of the string-array scan. */
  datatype StringScan = StringScan(escaped: bool, inString: bool, lastStringEnding: nat)

  /** The scan's reaction to the character `c` at index `i`, other than ending the array. */
  function ScanChar(s: StringScan, c: char, i: nat): StringScan
  {
    if c == '"' then
      var inString := if s.escaped then s.inString else !s.inString;
      StringScan(false, inString, if !s.escaped && !inString then i else s.lastStringEnding)
    else if c == '\\' then s.(escaped := !s.escaped)
    else s.(escaped := false)
  }

  /** The flags after scanning [start, i). */
  function ScanThrough(chunk: string, start: nat, i: nat): (r: StringScan)
    requires start <= i <= |chunk|
    ensures start <= r.lastStringEnding
    ensures r.lastStringEnding == start || (r.lastStringEnding < i && chunk[r.lastStringEnding] == '"')
    decreases i - start
  {
    if i == start then StringScan(false, false, start)
    else ScanChar(ScanThrough(chunk, start, i - 1), chunk[i - 1], i - 1)
  }

  /** The first `]` at or after `i` that lies outside a string, or |chunk|. */
  function StringArrayClose(chunk: string, start: nat, i: nat): (p: nat)
    requires start <= i <= |chunk|
    ensures i <= p <= |chunk|
    ensures p < |chunk| ==> chunk[p] == ']' && !ScanThrough(chunk, start, p).inString
    ensures forall k :: i <= k < p ==> chunk[k] != ']' || ScanThrough(chunk, start, k).inString
    decreases |chunk| - i
  {
    if i == |chunk| then |chunk|
    else if chunk[i] == ']' && !ScanThrough(chunk, start, i).inString then i
    else StringArrayClose(chunk, start, i + 1)
  }

  /**
   * Where an unfinished string array is cut, as the source does it: just
   * after the last closing quote, which defaults to the start of the fragment.
   * Result: (end of the parsed text, resume position).
   */
  function UnfinishedStringsAsWritten(chunk: string, start: nat): (r: (nat, nat))
    requires start <= |chunk|
    ensures r.0 == r.1 && start < r.0
  {
    var l := ScanThrough(chunk, start, |chunk|).lastStringEnding;
    (l + 1, l + 1)
  }

  /** The cut when no string was closed: nothing is parsed, the fragment waits. */
  function UnfinishedStrings(chunk: string, start: nat): (r: (nat, nat))
    requires start <= |chunk|
    ensures r.0 == r.1 && start <= r.0 <= |chunk|
    ensures r.0 == start || !ScanThrough(chunk, start, r.0).inString
  {
    var l := ScanThrough(chunk, start, |chunk|).lastStringEnding;
    LastStringEndingClosesString(chunk, start, |chunk|);
    if l == start then (start, start) else (l + 1, l + 1)
  }

  /** The scan is outside any string just after the last closing quote it recorded. */
  lemma {:induction false} LastStringEndingClosesString(chunk: string, start: nat, i: nat)
    requires start <= i <= |chunk|
    ensures var l := ScanThrough(chunk, start, i).lastStringEnding;
      l == start || (l < i && !ScanThrough(chunk, start, l + 1).inString)
    decreases i - start
  {
    if i > start {
      LastStringEndingClosesString(chunk, start, i - 1);
    }
  }

  /**
   * After the `]` at `p`, as the source does it: a comma leads to the next
   * property (skipping the newline too after a number array), `}` to END,
   * anything else, including the end of the chunk, is an error.
   */
  function ArrayCloseAsWritten(c: Cursor, chunk: string, p: nat, numeric: bool): (r: Cursor)
    requires p < |chunk|
    ensures r.events == c.events
    ensures r.state != Error ==> r.pos > p
  {
    var q := p + 1;
    if q < |chunk| && chunk[q] == ',' then
      c.(state := ArrayPropertyBegin, pos := if numeric then q + 2 else q)
    else if q < |chunk| && chunk[q] == '}' then c.(state := End, pos := q)
    else Fail(c.(pos := q), BadArrayEnd)
  }

  /**
   * The same, except that a terminator cut off by the end of the chunk
   * (`]` last, or `],` last after a number array) waits for the next chunk
   * with the `]` kept in the buffer.
   */
  function ArrayClose(c: Cursor, chunk: string, p: nat, numeric: bool): (r: StepResult)
    requires c.state != Error && p < |chunk|
    ensures !r.Threw? && r.cursor.events == c.events
    ensures r.Continue? ==> r.cursor.pos > p && r.cursor.state != Error
    ensures r.cursor.pos <= |chunk|
    ensures r.cursor.state == Error ==> p + 1 < |chunk| && chunk[p + 1] != ',' && chunk[p + 1] != '}'
  {
    var q := p + 1;
    if q == |chunk| || (numeric && chunk[q] == ',' && q + 1 == |chunk|) then Break(c.(pos := p))
    else
      var n := ArrayCloseAsWritten(c, chunk, p, numeric);
      if n.state == Error then Break(n) else Continue(n)
  }

  /** SNAPSHOT_LINE: the `{"snapshot":` prefix, then everything up to the newline minus the trailing comma. */
  function SnapshotLineStep(c: Cursor, chunk: string): (r: StepResult)
    requires c.pos < |chunk|
    ensures r.Continue? ==> r.cursor.pos > c.pos && r.cursor.state == ArrayPropertyBegin
    ensures !r.Threw?
  {
    var pos := c.pos;
    if JsSlice(chunk, pos, pos + |SNAPSHOT_PROP_NAME|) != SNAPSHOT_PROP_NAME then
      Break(Fail(c, MissingSnapshotProperty))
    else
      SliceLength(chunk, pos, pos + |SNAPSHOT_PROP_NAME|);
      var start := pos + |SNAPSHOT_PROP_NAME|;
      var k := IndexOfCharFrom(chunk, '\n', start);
      if k == |chunk| then Break(Fail(c.(pos := k), IncompleteSnapshotLine))
      else
        Continue(c.(state := ArrayPropertyBegin,
                    events := c.events + [SnapshotEvent(JsSlice(chunk, start, k - 1))],
                    pos := k + 1))
  }

  /** ARRAY_PROPERTY_BEGIN: up to and past the next `[`; the property name sits between the quotes before it. */
  function PropertyBeginStep(c: Cursor, chunk: string): (r: StepResult)
    requires c.pos < |chunk|
    ensures r.Continue? ==> r.cursor.pos > c.pos && r.cursor.state in {StringArray, NumberArray}
    ensures !r.Threw?
  {
    var pos := c.pos;
    var k := IndexOfCharFrom(chunk, '[', pos);
    if k == |chunk| then Break(Fail(c.(pos := k), MissingPropertyBegin))
    else
      var property := JsSlice(chunk, pos + 1, k - 2);
      Continue(c.(state := if property == "strings" then StringArray else NumberArray,
                  activeProperty := property,
                  pos := k + 1))
  }

  /** NUMBER_ARRAY: the numbers up to `]` or, when the array goes on, up to the last newline. */
  function NumberArrayStep(c: Cursor, chunk: string): (r: StepResult)
    requires c.state == NumberArray && c.pos < |chunk|
    ensures r.Continue? ==> r.cursor.pos > c.pos && r.cursor.state != Error
    ensures r.Threw? ==> r.cursor == c
  {
    var pos := c.pos;
    var p := IndexOfCharFrom(chunk, ']', pos);
    var (end, resume) := if p < |chunk| then (p, p) else UnfinishedNumbers(chunk, pos);
    if pos != end && ParseNumbers(Fragment(chunk, pos, end)).None? then Threw(c)
    else
      var c1 := if pos == end then c
        else c.(events := c.events + NumberEvents(c.activeProperty, ParseNumbers(Fragment(chunk, pos, end)).value));
      if p < |chunk| then ArrayClose(c1, chunk, p, true) else Break(c1.(pos := resume))
  }

  /** STRING_ARRAY: the strings up to `]` outside a string or, when the array goes on, up to the last closed string. */
  function StringArrayStep(c: Cursor, chunk: string): (r: StepResult)
    requires c.state == StringArray && c.pos < |chunk|
    ensures r.Continue? ==> r.cursor.pos > c.pos && r.cursor.state != Error
    ensures !r.Threw?
  {
    var pos := c.pos;
    var p := StringArrayClose(chunk, pos, pos);
    var (end, resume) := if p < |chunk| then (p, p) else UnfinishedStrings(chunk, pos);
    var c1 := if pos == end then c else c.(events := c.events + [StringsEvent(Fragment(chunk, pos, end))]);
    if p < |chunk| then ArrayClose(c1, chunk, p, false) else Break(c1.(pos := resume))
  }

  /** END: a `}` queues the end marker and leaves the loop; anything else is an error. */
  function EndStep(c: Cursor, chunk: string): (r: StepResult)
    requires c.pos < |chunk|
    ensures r.Break?
  {
    if chunk[c.pos] != '}' then Break(Fail(c, BadSnapshotEnd))
    else Break(c.(events := c.events + [EndOfSnapshot], pos := c.pos + 1))
  }

  /** One pass of the outer loop of `_parse`, by state. */
  function Step(c: Cursor, chunk: string): (r: StepResult)
    requires c.state != Error && c.pos < |chunk|
    ensures r.Continue? ==> r.cursor.pos > c.pos && r.cursor.state != Error
    ensures r.Threw? ==> r.cursor == c
  {
    match c.state
    case SnapshotLine => SnapshotLineStep(c, chunk)
    case ArrayPropertyBegin => PropertyBeginStep(c, chunk)
    case NumberArray => NumberArrayStep(c, chunk)
    case StringArray => StringArrayStep(c, chunk)
    case End => EndStep(c, chunk)
  }

  lemma SliceLength(s: string, a: nat, b: nat)
    requires a < |s| && a <= b
    ensures |JsSlice(s, a, b)| == (if b <= |s| then b else |s|) - a
  {
  }

  /** The outer loop of `_parse`: step until ERROR, a break, a throw or the end of the buffer. */
  function Run(c: Cursor, chunk: string): (r: RunResult)
    ensures r.Stopped? && c.state == Error ==> r.cursor == c
    decreases |chunk| - c.pos
  {
    if c.state == Error || c.pos >= |chunk| then Stopped(c)
    else
      match Step(c, chunk)
      case Continue(n) => Run(n, chunk)
      case Break(n) => Stopped(n)
      case Threw(n) => Thrown(n)
  }

  /** How a pending read was settled. */
  datatype Settlement = Resolved(event: ParserEvent) | Rejected(reason: Option<ParseError>)

  /**
   * The whole parser: the fields of the source's object, plus a log of the
   * settlements of pending reads (each read is named by a number) and the
   * number the next queued read gets.
   */
  datatype Parser = Parser(
    state: ParserState,
    error: Option<ParseError>,
    activeProperty: string,
    pendingEvents: seq<ParserEvent>,
    pendingReads: seq<nat>,
    buffer: string,
    settled: seq<(nat, Settlement)>,
    nextRead: nat)

  /** A new parser: SNAPSHOT_LINE, no error, nothing queued. The null active property is "". */
  function Initial(): Parser
  {
    Parser(SnapshotLine, None, "", [], [], "", [], 0)
  }

  function Resolutions(ids: seq<nat>, events: seq<ParserEvent>): (r: seq<(nat, Settlement)>)
    requires |ids| == |events|
    ensures |r| == |ids|
    ensures forall i :: 0 <= i < |r| ==> r[i] == (ids[i], Resolved(events[i]))
  {
    seq(|ids|, i requires 0 <= i < |ids| => (ids[i], Resolved(events[i])))
  }

  function Rejections(ids: seq<nat>, reason: Option<ParseError>): (r: seq<(nat, Settlement)>)
    ensures |r| == |ids|
    ensures forall i :: 0 <= i < |r| ==> r[i] == (ids[i], Rejected(reason))
  {
    seq(|ids|, i requires 0 <= i < |ids| => (ids[i], Rejected(reason)))
  }

  function EndMarkers(n: nat): (r: seq<ParserEvent>)
    ensures |r| == n && forall i :: 0 <= i < n ==> r[i] == EndOfSnapshot
  {
    seq(n, _ => EndOfSnapshot)
  }

  function Min(a: nat, b: nat): nat { if a <= b then a else b }

  /** `_processPendingPromises`. */
  function Process(p: Parser): (r: Parser)
  {
    if p.state == Error then
      p.(pendingReads := [], settled := p.settled + Rejections(p.pendingReads, p.error))
    else
      var n := Min(|p.pendingReads|, |p.pendingEvents|);
      var q := p.(pendingReads := p.pendingReads[n..],
                  pendingEvents := p.pendingEvents[n..],
                  settled := p.settled + Resolutions(p.pendingReads[..n], p.pendingEvents[..n]));
      if |q.pendingEvents| == 0 && q.state == End then
        q.(pendingReads := [], settled := q.settled + Resolutions(q.pendingReads, EndMarkers(|q.pendingReads|)))
      else q
  }

  /** Processing again once an error has rejected every pending read changes nothing. */
  lemma ProcessAfterRejection(p: Parser)
    requires p.state == Error
    ensures Process(p.(pendingReads := [], settled := p.settled + Rejections(p.pendingReads, p.error))) == Process(p)
  {
    var q := p.(pendingReads := [], settled := p.settled + Rejections(p.pendingReads, p.error));
    assert Rejections(q.pendingReads, q.error) == [];
    assert q.settled + [] == q.settled;
  }

  /** The buffer and fields after the loop of `_parse` stopped at `c`. */
  function Finish(p: Parser, c: Cursor): Parser
  {
    var chunk := p.buffer;
    var unconsumed := c.pos < |chunk| && c.state != StringArray && c.state != NumberArray && c.state != Error;
    var c1 := if unconsumed then Fail(c, UnconsumedInput) else c;
    Process(p.(state := c1.state, error := c1.error, activeProperty := c1.activeProperty,
               pendingEvents := c1.events,
               buffer := if c.pos < |chunk| then chunk[c.pos..] else ""))
  }

  function Start(p: Parser): Cursor
  {
    Cursor(p.state, p.error, p.activeProperty, p.pendingEvents, 0)
  }

  /**
   * `_parse` on the buffered text: the new parser and whether a malformed
   * number fragment made `JSON.parse` throw out of it. A throw leaves the
   * buffer whole and skips `_processPendingPromises`.
   */
  function ParseSpec(p: Parser): (Parser, bool)
  {
    match Run(Start(p), p.buffer)
    case Thrown(c) =>
      (p.(state := c.state, error := c.error, activeProperty := c.activeProperty, pendingEvents := c.events), true)
    case Stopped(c) => (Finish(p, c), false)
  }

  datatype ReadResult = Immediate(event: ParserEvent) | Queued(read: nat)

  /** `read`: the oldest pending event, or a read queued until events arrive. */
  function ReadSpec(p: Parser): (Parser, ReadResult)
  {
    if |p.pendingEvents| > 0 then (p.(pendingEvents := p.pendingEvents[1..]), Immediate(p.pendingEvents[0]))
    else (p.(pendingReads := p.pendingReads + [p.nextRead], nextRead := p.nextRead + 1), Queued(p.nextRead))
  }

  /** What `addSnapshotChunk` reports to the chunk callback, unless `_parse` threw. */
  datatype ChunkResult = Notified(ended: bool) | ThrewSyntaxError

  // Properties of the state machine

  /** Input that does not begin with `{"snapshot":` puts a new parser in ERROR and keeps the input. */
  lemma MissingPrefixIsError(b: string)
    requires b != [] && !StartsWith(b, SNAPSHOT_PROP_NAME)
    ensures ParseSpec(Initial().(buffer := b)) ==
      (Initial().(state := Error, error := Some(MissingSnapshotProperty), buffer := b), false)
  {
    var p := Initial().(buffer := b);
    if |b| >= |SNAPSHOT_PROP_NAME| {
      assert JsSlice(b, 0, |SNAPSHOT_PROP_NAME|) == b[..|SNAPSHOT_PROP_NAME|];
    } else {
      SliceLength(b, 0, |SNAPSHOT_PROP_NAME|);
    }
    var c := Fail(Start(p), MissingSnapshotProperty);
    assert SnapshotLineStep(Start(p), b) == Break(c);
    assert Run(Start(p), b) == Stopped(c);
    assert b[0..] == b;
    var q := p.(state := Error, error := Some(MissingSnapshotProperty));
    assert Finish(p, c) == Process(q);
    assert Rejections([], Some(MissingSnapshotProperty)) == [];
    assert Process(q) == q;
  }

  /** ERROR is absorbing: `_parse` consumes nothing, queues nothing and stays in ERROR. */
  lemma ErrorIsAbsorbing(p: Parser)
    requires p.state == Error
    ensures var (q, threw) := ParseSpec(p);
      !threw && q == Process(p) && q.state == Error && q.buffer == p.buffer && q.pendingEvents == p.pendingEvents
  {
    assert Run(Start(p), p.buffer) == Stopped(Start(p));
    assert p.buffer[0..] == p.buffer;
    assert p.(buffer := p.buffer) == p;
  }

  /**
   * A property header `"name":[` yields the name as the active property and
   * selects STRING_ARRAY exactly for "strings".
   */
  lemma PropertyHeader(c: Cursor, name: string, rest: string)
    requires c.state == ArrayPropertyBegin && c.pos == 0
    requires forall i :: 0 <= i < |name| ==> name[i] != '['
    ensures var chunk := "\"" + name + "\":[" + rest;
      PropertyBeginStep(c, chunk) ==
        Continue(c.(state := if name == "strings" then StringArray else NumberArray,
                    activeProperty := name,
                    pos := |name| + 4))
  {
    var chunk := "\"" + name + "\":[" + rest;
    var k := |name| + 3;
    assert chunk[k] == '[';
    assert forall i :: 0 <= i < k ==> chunk[i] != '[' by {
      forall i | 0 <= i < k ensures chunk[i] != '[' {
        if 1 <= i < k - 2 {
          assert chunk[i] == name[i - 1];
        }
      }
    }
    IndexOfCharFromIs(chunk, '[', 0, k);
    assert JsSlice(chunk, 1, k - 2) == chunk[1..k - 2];
    assert chunk[1..k - 2] == name;
  }

  lemma {:induction false} IndexOfCharFromIs(s: string, ch: char, from: nat, k: nat)
    requires from <= k < |s| && s[k] == ch
    requires forall i :: from <= i < k ==> s[i] != ch
    ensures IndexOfCharFrom(s, ch, from) == k
    decreases k - from
  {
    if from < k {
      IndexOfCharFromIs(s, ch, from + 1, k);
    }
  }

  /** A number-array pass adds only NODES events under "nodes", only EDGES events under "edges", and none otherwise. */
  lemma NumbersOnlyForNodesAndEdges(c: Cursor, chunk: string)
    requires c.state == NumberArray && c.pos < |chunk|
    ensures var r := NumberArrayStep(c, chunk);
      var added := r.cursor.events[|c.events|..];
      r.cursor.events[..|c.events|] == c.events && |added| <= 1 &&
      (forall e :: e in added ==> (e.NodesEvent? && c.activeProperty == "nodes") || (e.EdgesEvent? && c.activeProperty == "edges"))
  {
  }

  /**
   * An unfinished number array (no `]` yet) queues the numbers up to its last
   * newline and stops, keeping the text after that newline, which holds no
   * newline, for the next chunk; with no newline it parses nothing and keeps
   * everything.
   */
  lemma UnfinishedNumberArray(c: Cursor, chunk: string)
    requires c.state == NumberArray && c.pos < |chunk|
    requires forall i :: c.pos <= i < |chunk| ==> chunk[i] != ']'
    ensures var r := NumberArrayStep(c, chunk);
      match LastNewline(chunk, c.pos, |chunk|)
      case None => r == Break(c)
      case Some(k) =>
        (k == c.pos ==> r == Break(c.(pos := k + 1))) &&
        (k > c.pos && ParseNumbers(Fragment(chunk, c.pos, k)).Some? ==>
          r == Break(c.(events := c.events + NumberEvents(c.activeProperty, ParseNumbers(Fragment(chunk, c.pos, k)).value), pos := k + 1))) &&
        (forall i :: k < i < |chunk| ==> chunk[i] != '\n')
  {
    IndexOfCharFromAbsent(chunk, ']', c.pos);
    match LastNewline(chunk, c.pos, |chunk|)
    case None =>
      assert UnfinishedNumbers(chunk, c.pos) == (c.pos, c.pos);
    case Some(k) =>
      assert UnfinishedNumbers(chunk, c.pos) == (k, k + 1);
  }

  lemma {:induction false} IndexOfCharFromAbsent(s: string, ch: char, from: nat)
    requires from <= |s|
    requires forall i :: from <= i < |s| ==> s[i] != ch
    ensures IndexOfCharFrom(s, ch, from) == |s|
    decreases |s| - from
  {
    if from < |s| {
      IndexOfCharFromAbsent(s, ch, from + 1);
    }
  }

  /** `_parse` keeps the unconsumed text of an array state in the buffer without raising an error. */
  lemma ArrayStatesKeepRest(p: Parser, c: Cursor)
    requires c.state == NumberArray || c.state == StringArray
    requires c.pos < |p.buffer|
    ensures Finish(p, c).buffer == p.buffer[c.pos..] && Finish(p, c).state == c.state
  {
  }

  /** Unconsumed text in any other state that has not failed raises "Did not consume whole chunk". */
  lemma UnconsumedInputIsError(p: Parser, c: Cursor)
    requires c.state in {SnapshotLine, ArrayPropertyBegin, End}
    requires c.pos < |p.buffer|
    ensures Finish(p, c).state == Error && Finish(p, c).error == Some(UnconsumedInput)
    ensures Finish(p, c).pendingReads == []
  {
  }

  /** A malformed number fragment throws out of `_parse` in NUMBER_ARRAY, without entering ERROR. */
  lemma MalformedNumbersThrow(p: Parser)
    ensures var (q, threw) := ParseSpec(p);
      threw ==> q.state == NumberArray && q.error == p.error && q.pendingReads == p.pendingReads &&
                q.buffer == p.buffer && q.settled == p.settled
  {
    RunThrowsInNumberArray(Start(p), p.buffer);
  }

  lemma {:induction false} RunThrowsInNumberArray(c: Cursor, chunk: string)
    ensures var r := Run(c, chunk); r.Thrown? ==> r.cursor.state == NumberArray && r.cursor.error == c.error
    decreases |chunk| - c.pos
  {
    if c.state != Error && c.pos < |chunk| {
      var s := Step(c, chunk);
      if s.Continue? {
        assert s.cursor.error == c.error;
        RunThrowsInNumberArray(s.cursor, chunk);
      }
    }
  }

  /** END queues the end marker exactly when the next character is `}`; either way the loop ends. */
  lemma EndRequiresBrace(c: Cursor, chunk: string)
    requires c.state == End && c.pos < |chunk|
    ensures var r := EndStep(c, chunk);
      r.Break? && (r.cursor.events == c.events + [EndOfSnapshot] <==> chunk[c.pos] == '}') &&
      (chunk[c.pos] != '}' <==> r.cursor.state == Error)
  {
  }

  // The string-array scan

  function QuoteCount(s: string): nat
  {
    if s == [] then 0 else QuoteCount(s[..|s| - 1]) + (if s[|s| - 1] == '"' then 1 else 0)
  }

  /** Without backslashes the scan is inside a string exactly after an odd number of quotes. */
  lemma {:induction false} InStringIsQuoteParity(chunk: string, start: nat, i: nat)
    requires start <= i <= |chunk|
    requires forall k :: start <= k < i ==> chunk[k] != '\\'
    ensures !ScanThrough(chunk, start, i).escaped
    ensures ScanThrough(chunk, start, i).inString == (QuoteCount(chunk[start..i]) % 2 == 1)
    decreases i - start
  {
    if i > start {
      InStringIsQuoteParity(chunk, start, i - 1);
      assert chunk[start..i][..i - start - 1] == chunk[start..i - 1];
    }
  }

  /**
   * A run of `n` backslashes leaves the scan escaped exactly when `n` is odd,
   * and does not move it in or out of a string.
   */
  lemma {:induction false} BackslashRun(chunk: string, start: nat, i: nat, n: nat)
    requires start <= i && i + n <= |chunk|
    requires forall k :: i <= k < i + n ==> chunk[k] == '\\'
    requires !ScanThrough(chunk, start, i).escaped
    ensures ScanThrough(chunk, start, i + n).escaped == (n % 2 == 1)
    ensures ScanThrough(chunk, start, i + n).inString == ScanThrough(chunk, start, i).inString
    decreases n
  {
    if n > 0 {
      BackslashRun(chunk, start, i, n - 1);
    }
  }

  /** An escaped quote neither opens nor closes a string; an unescaped one toggles. */
  lemma QuoteToggles(chunk: string, start: nat, i: nat)
    requires start <= i < |chunk| && chunk[i] == '"'
    ensures var before := ScanThrough(chunk, start, i);
      var after := ScanThrough(chunk, start, i + 1);
      !after.escaped && (after.inString == (before.inString != !before.escaped))
  {
  }

  /** A `]` inside a string does not end the array: `["a]"]` ends at its last character. */
  lemma BracketInsideString()
    ensures StringArrayClose("\"a]\"]", 0, 0) == 4
  {
    var chunk := "\"a]\"]";
    assert ScanThrough(chunk, 0, 1).inString;
    assert ScanThrough(chunk, 0, 2).inString;
    assert !ScanThrough(chunk, 0, 4).inString;
  }

  // Settling reads

  /** `_processPendingPromises` resolves queued reads with queued events, oldest first. */
  lemma ProcessIsFifo(p: Parser)
    requires p.state != Error
    ensures var q := Process(p);
      var n := Min(|p.pendingReads|, |p.pendingEvents|);
      q.settled[..|p.settled|] == p.settled && |q.settled| >= |p.settled| + n &&
      (forall i :: 0 <= i < n ==> q.settled[|p.settled| + i] == (p.pendingReads[i], Resolved(p.pendingEvents[i]))) &&
      q.pendingEvents == p.pendingEvents[n..]
  {
  }

  /** After `_processPendingPromises` no read waits while an event is queued. */
  lemma ProcessLeavesNoMatch(p: Parser)
    ensures Process(p).pendingReads == [] || Process(p).pendingEvents == []
  {
  }

  /** `_processPendingPromises` twice is the same as once. */
  lemma ProcessIdempotent(p: Parser)
    ensures Process(Process(p)) == Process(p)
  {
    var q := Process(p);
    if q.state == Error {
      assert Rejections(q.pendingReads, q.error) == [];
      assert q.settled + [] == q.settled;
    } else {
      var n := Min(|q.pendingReads|, |q.pendingEvents|);
      assert n == 0;
      assert q.pendingReads[0..] == q.pendingReads && q.pendingEvents[0..] == q.pendingEvents;
      assert Resolutions(q.pendingReads[..0], q.pendingEvents[..0]) == [];
      assert q.settled + [] == q.settled;
      if |q.pendingEvents| == 0 && q.state == End {
        assert q.pendingReads == [];
        assert Resolutions([], EndMarkers(0)) == [];
      }
    }
  }

  /** On error every pending read is rejected with the error, in order, and none is left. */
  lemma ErrorRejectsAllReads(p: Parser)
    requires p.state == Error
    ensures var q := Process(p);
      q.pendingReads == [] && q.pendingEvents == p.pendingEvents &&
      |q.settled| == |p.settled| + |p.pendingReads| && q.settled[..|p.settled|] == p.settled &&
      forall i :: 0 <= i < |p.pendingReads| ==> q.settled[|p.settled| + i] == (p.pendingReads[i], Rejected(p.error))
  {
  }

  /** At END, once the queued events are handed out, every remaining read gets the null end marker. */
  lemma EndResolvesRemainingReads(p: Parser)
    requires p.state == End && |p.pendingEvents| <= |p.pendingReads|
    ensures var q := Process(p);
      q.pendingReads == [] && q.pendingEvents == [] && |q.settled| == |p.settled| + |p.pendingReads| &&
      forall i :: |p.pendingEvents| <= i < |p.pendingReads| ==>
        q.settled[|p.settled| + i] == (p.pendingReads[i], Resolved(EndOfSnapshot))
  {
    var n := |p.pendingEvents|;
    assert Min(|p.pendingReads|, n) == n;
  }

  /** A read with events queued takes the oldest one; the rest stay queued in order. */
  lemma ReadTakesOldest(p: Parser, e: ParserEvent, rest: seq<ParserEvent>)
    requires p.pendingEvents == [e] + rest
    ensures ReadSpec(p) == (p.(pendingEvents := rest), Immediate(e))
  {
    assert ([e] + rest)[1..] == rest;
  }

  // Chunk boundaries: the source as written, and the corrected cuts used above

  /**
   * As written, an unfinished number array whose fragment holds no newline
   * resumes one character past its start: for "9,1" nothing is parsed and
   * the next chunk continues from ",1", so the 9 is lost.
   */
  lemma UnfinishedNumbersAsWrittenDropsDigit()
    ensures var r := UnfinishedNumbersAsWritten("9,1", 0);
      r == (0, 1) && "9,1"[r.1..] == ",1" && "9,1"[0] != '\n'
  {
    assert LastNewline("9,1", 0, 3) == None;
  }

  /** Corrected: nothing but one newline lies between the parsed text and the text kept for the next chunk. */
  lemma UnfinishedNumbersLosesNothing(chunk: string, start: nat)
    requires start <= |chunk|
    ensures var (end, resume) := UnfinishedNumbers(chunk, start);
      chunk[start..] == chunk[start..end] + chunk[end..resume] + chunk[resume..] &&
      chunk[end..resume] in {"", "\n"}
  {
    var (end, resume) := UnfinishedNumbers(chunk, start);
    assert chunk[start..] == chunk[start..end] + chunk[end..resume] + chunk[resume..];
    if resume == end + 1 {
      assert chunk[end..resume] == [chunk[end]];
    }
  }

  /**
   * As written, a string array cut inside its first string hands `"` to
   * `JSON.parse` (the fragment `["]`, which it rejects).
   */
  lemma UnfinishedStringsAsWrittenSplitsString()
    ensures var r := UnfinishedStringsAsWritten("\"ab", 0);
      r == (1, 1) && Fragment("\"ab", 0, r.0) == "\"" && ScanThrough("\"ab", 0, r.0).inString
  {
    assert ScanThrough("\"ab", 0, 3).lastStringEnding == 0;
  }

  /**
   * As written, the end of an array cut off by the end of the chunk goes
   * wrong: a chunk ending in `]` raises an error, and one ending in `],`
   * skips past the end of the chunk, so the newline that starts the next
   * chunk is read as part of the next property name.
   */
  lemma ArrayCloseAsWrittenAtChunkEnd(c: Cursor)
    ensures ArrayCloseAsWritten(c, "1]", 1, true).state == Error
    ensures ArrayCloseAsWritten(c, "1],", 1, true).pos == 4 > |"1],"|
  {
  }

  /** The property name read after such a jump keeps the newline and the opening quote. */
  lemma PropertyAfterJump(c: Cursor)
    requires c.state == ArrayPropertyBegin && c.pos == 0
    ensures PropertyBeginStep(c, "\n\"edges\":[1").cursor.activeProperty == "\"edges"
  {
    var chunk := "\n\"edges\":[1";
    IndexOfCharFromIs(chunk, '[', 0, 9);
    assert JsSlice(chunk, 1, 7) == chunk[1..7];
  }

  class HeapSnapshotParser {
    var state: ParserState
    var error: Option<ParseError>
    var activeProperty: string
    var pendingEvents: seq<ParserEvent>
    var pendingReads: seq<nat>
    var buffer: string
    var settled: seq<(nat, Settlement)>
    var nextRead: nat

    function Model(): Parser
      reads this
    {
      Parser(state, error, activeProperty, pendingEvents, pendingReads, buffer, settled, nextRead)
    }

    function Cur(pos: nat): Cursor
      reads this
    {
      Cursor(state, error, activeProperty, pendingEvents, pos)
    }

    /** The reads and the settlement log after an error may have been raised on a parser that had none. */
    ghost predicate SettledSince(reads0: seq<nat>, settled0: seq<(nat, Settlement)>)
      reads this
    {
      if state == Error then pendingReads == [] && settled == settled0 + Rejections(reads0, error)
      else pendingReads == reads0 && settled == settled0
    }

    constructor()
      ensures Model() == Initial()
    {
      state := SnapshotLine;
      error := None;
      activeProperty := "";
      pendingEvents := [];
      pendingReads := [];
      buffer := "";
      settled := [];
      nextRead := 0;
    }

    function HasErrored(): bool
      reads this
    {
      state == Error
    }

    method ProcessPendingPromises()
      modifies this
      ensures Model() == Process(old(Model()))
    {
      var hasErrored := HasErrored();
      ghost var reads0, events0, settled0 := pendingReads, pendingEvents, settled;
      ghost var i := 0;
      while !hasErrored && |pendingReads| > 0 && |pendingEvents| > 0
        invariant !hasErrored ==> i <= Min(|reads0|, |events0|)
        invariant !hasErrored ==> pendingReads == reads0[i..] && pendingEvents == events0[i..]
        invariant !hasErrored ==> settled == settled0 + Resolutions(reads0[..i], events0[..i])
        invariant hasErrored ==> pendingReads == reads0 && pendingEvents == events0 && settled == settled0
        invariant hasErrored == (state == Error) && state == old(state) && error == old(error)
        invariant activeProperty == old(activeProperty) && buffer == old(buffer) && nextRead == old(nextRead)
        decreases |pendingReads|
      {
        assert reads0[..i + 1] == reads0[..i] + [pendingReads[0]];
        assert events0[..i + 1] == events0[..i] + [pendingEvents[0]];
        settled := settled + [(pendingReads[0], Resolved(pendingEvents[0]))];
        pendingReads := pendingReads[1..];
        pendingEvents := pendingEvents[1..];
        i := i + 1;
      }
      if hasErrored {
        var rs, acc := pendingReads, settled;
        for j := 0 to |rs|
          invariant acc == settled + Rejections(rs[..j], error)
        {
          assert rs[..j + 1] == rs[..j] + [rs[j]];
          acc := acc + [(rs[j], Rejected(error))];
        }
        assert rs[..|rs|] == rs;
        settled := acc;
        pendingReads := [];
      } else {
        assert i == Min(|reads0|, |events0|);
        if |pendingEvents| == 0 && state == End {
          var rs, acc := pendingReads, settled;
          for j := 0 to |rs|
            invariant acc == settled + Resolutions(rs[..j], EndMarkers(j))
          {
            assert rs[..j + 1] == rs[..j] + [rs[j]];
            assert EndMarkers(j + 1) == EndMarkers(j) + [EndOfSnapshot];
            acc := acc + [(rs[j], Resolved(EndOfSnapshot))];
          }
          assert rs[..|rs|] == rs;
          settled := acc;
          pendingReads := [];
        }
      }
    }

    method RaiseError(e: ParseError)
      modifies this
      ensures Model() == Process(old(Model()).(state := Error, error := Some(e)))
    {
      error := Some(e);
      state := Error;
      ProcessPendingPromises();
    }

    /** The `'\n'` and `[` searches of SNAPSHOT_LINE and ARRAY_PROPERTY_BEGIN. */
    static method FindChar(chunk: string, c: char, from: nat) returns (k: nat)
      requires from <= |chunk|
      ensures k == IndexOfCharFrom(chunk, c, from)
    {
      k := from;
      while k < |chunk| && chunk[k] != c
        invariant from <= k <= |chunk|
        invariant IndexOfCharFrom(chunk, c, from) == IndexOfCharFrom(chunk, c, k)
      {
        k := k + 1;
      }
    }

    /** The scan of NUMBER_ARRAY: the closing `]` (or |chunk|) and the last newline before it. */
    static method ScanNumbers(chunk: string, start: nat) returns (p: nat, lastNewline: nat, sawNewline: bool)
      requires start <= |chunk|
      ensures p == IndexOfCharFrom(chunk, ']', start)
      ensures sawNewline ==> LastNewline(chunk, start, p) == Some(lastNewline)
      ensures !sawNewline ==> LastNewline(chunk, start, p) == None && lastNewline == start
    {
      p := start;
      lastNewline := start;
      sawNewline := false;
      while p < |chunk| && chunk[p] != ']'
        invariant start <= p <= |chunk|
        invariant IndexOfCharFrom(chunk, ']', start) == IndexOfCharFrom(chunk, ']', p)
        invariant sawNewline ==> LastNewline(chunk, start, p) == Some(lastNewline)
        invariant !sawNewline ==> LastNewline(chunk, start, p) == None && lastNewline == start
      {
        if chunk[p] == '\n' {
          lastNewline := p;
          sawNewline := true;
        }
        p := p + 1;
      }
    }

    /** The scan of STRING_ARRAY: the closing `]` outside any string (or |chunk|) and the flags there. */
    static method ScanStrings(chunk: string, start: nat) returns (p: nat, scan: StringScan)
      requires start <= |chunk|
      ensures p == StringArrayClose(chunk, start, start)
      ensures scan == ScanThrough(chunk, start, p)
    {
      p := start;
      scan := StringScan(false, false, start);
      while p < |chunk|
        invariant start <= p <= |chunk|
        invariant scan == ScanThrough(chunk, start, p)
        invariant StringArrayClose(chunk, start, start) == StringArrayClose(chunk, start, p)
      {
        if chunk[p] == ']' && !scan.inString {
          break;
        }
        scan := ScanChar(scan, chunk[p], p);
        p := p + 1;
      }
    }

    /** Pushes the numbers of [start, end) for the active property; false when `JSON.parse` would throw. */
    method PushNumbers(chunk: string, start: nat, end: nat) returns (ok: bool)
      requires start < end <= |chunk|
      modifies this
      ensures ok == ParseNumbers(Fragment(chunk, start, end)).Some?
      ensures ok ==> pendingEvents == old(pendingEvents) + NumberEvents(activeProperty, ParseNumbers(Fragment(chunk, start, end)).value)
      ensures !ok ==> pendingEvents == old(pendingEvents)
      ensures state == old(state) && error == old(error) && activeProperty == old(activeProperty)
      ensures pendingReads == old(pendingReads) && settled == old(settled)
      ensures buffer == old(buffer) && nextRead == old(nextRead)
    {
      var numbers := ParseNumbers(Fragment(chunk, start, end));
      if numbers.None? {
        return false;
      }
      if activeProperty == "nodes" {
        pendingEvents := pendingEvents + [NodesEvent(numbers.value)];
      } else if activeProperty == "edges" {
        pendingEvents := pendingEvents + [EdgesEvent(numbers.value)];
      }
      return true;
    }

    /** What follows the `]` at `p`. */
    method CloseArray(chunk: string, p: nat, numeric: bool) returns (next: nat, stop: bool)
      requires p < |chunk| && state != Error
      modifies this
      ensures var r := ArrayClose(old(Cur(0)), chunk, p, numeric);
        stop == r.Break? && Cur(next) == r.cursor
      ensures SettledSince(old(pendingReads), old(settled))
      ensures buffer == old(buffer) && nextRead == old(nextRead)
    {
      var q := p + 1;
      if q == |chunk| || (numeric && chunk[q] == ',' && q + 1 == |chunk|) {
        return p, true;
      }
      if chunk[q] == ',' {
        state := ArrayPropertyBegin;
        next := if numeric then q + 2 else q;
        stop := false;
      } else if chunk[q] == '}' {
        state := End;
        next := q;
        stop := false;
      } else {
        RaiseError(BadArrayEnd);
        next := q;
        stop := true;
      }
    }

    /** One pass of the outer loop, applied to the fields. */
    method Advance(chunk: string, pos: nat) returns (next: nat, stop: bool, threw: bool)
      requires state != Error && pos < |chunk|
      modifies this
      ensures var r := Step(old(Cur(pos)), chunk);
        threw == r.Threw? && stop == r.Break? && Cur(next) == r.cursor
      ensures SettledSince(old(pendingReads), old(settled))
      ensures buffer == old(buffer) && nextRead == old(nextRead)
    {
      match state
      case SnapshotLine =>
        next, stop := AdvanceSnapshotLine(chunk, pos);
        threw := false;
      case ArrayPropertyBegin =>
        next, stop := AdvancePropertyBegin(chunk, pos);
        threw := false;
      case NumberArray =>
        next, stop, threw := AdvanceNumbers(chunk, pos);
      case StringArray =>
        next, stop := AdvanceStrings(chunk, pos);
        threw := false;
      case End =>
        next, stop := AdvanceEnd(chunk, pos);
        threw := false;
    }

    method AdvanceSnapshotLine(chunk: string, pos: nat) returns (next: nat, stop: bool)
      requires state == SnapshotLine && pos < |chunk|
      modifies this
      ensures var r := SnapshotLineStep(old(Cur(pos)), chunk);
        stop == r.Break? && Cur(next) == r.cursor
      ensures SettledSince(old(pendingReads), old(settled))
      ensures buffer == old(buffer) && nextRead == old(nextRead)
    {
      if JsSlice(chunk, pos, pos + |SNAPSHOT_PROP_NAME|) != SNAPSHOT_PROP_NAME {
        RaiseError(MissingSnapshotProperty);
        return pos, true;
      }
      SliceLength(chunk, pos, pos + |SNAPSHOT_PROP_NAME|);
      var start := pos + |SNAPSHOT_PROP_NAME|;
      var k := FindChar(chunk, '\n', start);
      if k == |chunk| {
        RaiseError(IncompleteSnapshotLine);
        return k, true;
      }
      pendingEvents := pendingEvents + [SnapshotEvent(JsSlice(chunk, start, (k as int) - 1))];
      state := ArrayPropertyBegin;
      return k + 1, false;
    }

    method AdvancePropertyBegin(chunk: string, pos: nat) returns (next: nat, stop: bool)
      requires state == ArrayPropertyBegin && pos < |chunk|
      modifies this
      ensures var r := PropertyBeginStep(old(Cur(pos)), chunk);
        stop == r.Break? && Cur(next) == r.cursor
      ensures SettledSince(old(pendingReads), old(settled))
      ensures buffer == old(buffer) && nextRead == old(nextRead)
    {
      var k := FindChar(chunk, '[', pos);
      if k == |chunk| {
        RaiseError(MissingPropertyBegin);
        return k, true;
      }
      activeProperty := JsSlice(chunk, pos + 1, (k as int) - 2);
      state := if activeProperty == "strings" then StringArray else NumberArray;
      return k + 1, false;
    }

    method AdvanceNumbers(chunk: string, pos: nat) returns (next: nat, stop: bool, threw: bool)
      requires state == NumberArray && pos < |chunk|
      modifies this
      ensures var r := NumberArrayStep(old(Cur(pos)), chunk);
        threw == r.Threw? && stop == r.Break? && Cur(next) == r.cursor
      ensures SettledSince(old(pendingReads), old(settled))
      ensures buffer == old(buffer) && nextRead == old(nextRead)
    {
      var p, lastNewline, sawNewline := ScanNumbers(chunk, pos);
      var end, resume;
      if p < |chunk| {
        end, resume := p, p;
      } else if sawNewline {
        end, resume := lastNewline, lastNewline + 1;
      } else {
        end, resume := pos, pos;
      }
      if pos != end {
        var ok := PushNumbers(chunk, pos, end);
        if !ok {
          return pos, false, true;
        }
      }
      threw := false;
      if p < |chunk| {
        next, stop := CloseArray(chunk, p, true);
      } else {
        next, stop := resume, true;
      }
    }

    method AdvanceStrings(chunk: string, pos: nat) returns (next: nat, stop: bool)
      requires state == StringArray && pos < |chunk|
      modifies this
      ensures var r := StringArrayStep(old(Cur(pos)), chunk);
        stop == r.Break? && Cur(next) == r.cursor
      ensures SettledSince(old(pendingReads), old(settled))
      ensures buffer == old(buffer) && nextRead == old(nextRead)
    {
      var p, scan := ScanStrings(chunk, pos);
      var end;
      if p < |chunk| {
        end := p;
      } else if scan.lastStringEnding == pos {
        end := pos;
      } else {
        end := scan.lastStringEnding + 1;
      }
      if pos != end {
        pendingEvents := pendingEvents + [StringsEvent(Fragment(chunk, pos, end))];
      }
      if p < |chunk| {
        next, stop := CloseArray(chunk, p, false);
      } else {
        next, stop := end, true;
      }
    }

    method AdvanceEnd(chunk: string, pos: nat) returns (next: nat, stop: bool)
      requires state == End && pos < |chunk|
      modifies this
      ensures var r := EndStep(old(Cur(pos)), chunk);
        stop == r.Break? && Cur(next) == r.cursor
      ensures SettledSince(old(pendingReads), old(settled))
      ensures buffer == old(buffer) && nextRead == old(nextRead)
    {
      if chunk[pos] != '}' {
        RaiseError(BadSnapshotEnd);
        return pos, true;
      }
      pendingEvents := pendingEvents + [EndOfSnapshot];
      return pos + 1, true;
    }

    /** `_parse`: runs the state machine over the buffer and keeps what is left of it. */
    method Parse() returns (threw: bool)
      modifies this
      ensures (Model(), threw) == ParseSpec(old(Model()))
    {
      var chunk := buffer;
      var pos: nat := 0;
      ghost var p0 := Model();
      while !HasErrored() && pos < |chunk|
        invariant buffer == chunk && nextRead == p0.nextRead
        invariant p0.state == Error ==> Model() == p0 && pos == 0
        invariant p0.state != Error ==> SettledSince(p0.pendingReads, p0.settled)
        invariant Run(Cur(pos), chunk) == Run(Start(p0), chunk)
        decreases |chunk| - pos
      {
        var next, stop, thrown := Advance(chunk, pos);
        if thrown {
          return true;
        }
        pos := next;
        if stop {
          assert Run(Start(p0), chunk) == Stopped(Cur(pos));
          break;
        }
      }
      ghost var c := Cur(pos);
      assert Run(Start(p0), chunk) == Stopped(c);
      threw := false;
      var unconsumed := pos < |chunk| && state != StringArray && state != NumberArray && !HasErrored();
      ghost var c1 := if unconsumed then Fail(c, UnconsumedInput) else c;
      ghost var rest := if pos < |chunk| then chunk[pos..] else "";
      ghost var expected := p0.(state := c1.state, error := c1.error, activeProperty := c1.activeProperty,
                                pendingEvents := c1.events, buffer := rest);
      assert Finish(p0, c) == Process(expected);
      if unconsumed {
        RaiseError(UnconsumedInput);
      }
      if pos < |chunk| {
        buffer := chunk[pos..];
      } else {
        buffer := "";
      }
      if p0.state != Error && state == Error {
        assert Model() == expected.(pendingReads := [], settled := expected.settled + Rejections(expected.pendingReads, expected.error));
        ProcessAfterRejection(expected);
      } else {
        assert Model() == expected;
      }
      ProcessPendingPromises();
    }

    /** `addSnapshotChunk`: buffers the chunk, parses, and reports whether END was reached. */
    method AddSnapshotChunk(chunk: string) returns (r: ChunkResult)
      modifies this
      ensures var (p, threw) := ParseSpec(old(Model()).(buffer := old(buffer) + chunk));
        Model() == p && r == if threw then ThrewSyntaxError else Notified(p.state == End)
    {
      buffer := buffer + chunk;
      var threw := Parse();
      if threw {
        return ThrewSyntaxError;
      }
      return Notified(state == End);
    }

    /** `read`. */
    method Read() returns (r: ReadResult)
      modifies this
      ensures (Model(), r) == ReadSpec(old(Model()))
    {
      if |pendingEvents| > 0 {
        r := Immediate(pendingEvents[0]);
        pendingEvents := pendingEvents[1..];
      } else {
        r := Queued(nextRead);
        pendingReads := pendingReads + [nextRead];
        nextRead := nextRead + 1;
      }
    }
  }

  /** `HeapSnapshotParser.FromString`: a new parser fed the whole text as one chunk. */
  method FromString(data: string) returns (parser: HeapSnapshotParser, r: ChunkResult)
    ensures fresh(parser)
    ensures var (p, threw) := ParseSpec(Initial().(buffer := data));
      parser.Model() == p && r == if threw then ThrewSyntaxError else Notified(p.state == End)
  {
    parser := new HeapSnapshotParser();
    assert parser.Model().(buffer := parser.buffer + data) == Initial().(buffer := data);
    r := parser.AddSnapshotChunk(data);
  }
}
