/**
 * Pretty-printing of heap paths for reports: a path of typed segments
 * becomes a sentence such as "x.y within closure of window.f", built by a
 * stream that walks the segments and collects chunks of text, printed in
 * reverse order.
 */
module PathPrinting {
  import opened Wrappers
  import opened JsStrings
  import opened ReportTypes

  // ---------------------------------------------------------------------
  // Property access strings
  // ---------------------------------------------------------------------

  /** `safeString`: each single quote becomes backslash-quote. */
  function SafeString(s: string): (r: string)
    ensures |r| >= |s|
    decreases |s|
  {
    if s == [] then ""
    else (if s[0] == '\'' then "\\'" else [s[0]]) + SafeString(s[1..])
  }

  /** Reading back an escaped string: backslash-quote becomes a quote. */
  function Unescape(s: string): string
    decreases |s|
  {
    if s == [] then ""
    else if |s| >= 2 && s[0] == '\\' && s[1] == '\'' then "'" + Unescape(s[2..])
    else [s[0]] + Unescape(s[1..])
  }

  lemma SafeStringNoLeadingQuote(s: string)
    ensures SafeString(s) == [] || SafeString(s)[0] != '\''
  {
  }

  /** Escaping loses nothing: the original name can be read back. */
  lemma {:induction false} SafeStringRoundTrip(s: string)
    ensures Unescape(SafeString(s)) == s
    decreases |s|
  {
    if s != [] {
      var rest := SafeString(s[1..]);
      SafeStringRoundTrip(s[1..]);
      if s[0] == '\'' {
        assert SafeString(s) == "\\'" + rest;
        assert SafeString(s)[2..] == rest;
      } else {
        assert SafeString(s) == [s[0]] + rest;
        SafeStringNoLeadingQuote(s[1..]);
        assert SafeString(s)[1..] == rest;
      }
    }
  }

  /**
   * A character the identifier pattern accepts first: `_`, `$`, an ASCII
   * letter, or anything from U+00A0 on (the pattern's range covers every
   * UTF-16 code unit from U+00A0, including both halves of a surrogate pair).
   */
  predicate IdentifierStart(c: char) {
    c == '_' || c == '$' || 'a' <= c <= 'z' || 'A' <= c <= 'Z' || c as int >= 0xA0
  }

  predicate IdentifierPart(c: char) {
    IdentifierStart(c) || IsDigit(c)
  }

  /** The text matches the identifier pattern: non-empty, a start character, then part characters. */
  predicate IsIdentifierName(s: string) {
    |s| > 0 && IdentifierStart(s[0]) && forall k :: 1 <= k < |s| ==> IdentifierPart(s[k])
  }

  /** `propertyAccessString`: `[n]` for a number, `.name` for an identifier, `["name"]` with escaped quotes otherwise. */
  function PropertyAccessString(x: IndexOrName): (r: string)
    ensures x.Num? ==> r == "[" + IntToString(x.n) + "]"
    ensures x.Name? && IsIdentifierName(x.s) ==> r == "." + x.s
    ensures x.Name? && !IsIdentifierName(x.s) ==> r == "[\"" + SafeString(x.s) + "\"]"
  {
    match x
    case Num(n) => "[" + IntToString(n) + "]"
    case Name(s) => if !IsIdentifierName(s) then "[\"" + SafeString(s) + "\"]" else "." + s
  }

  /** Every access string is a member or index access: it starts with '.' or '['. */
  lemma PropertyAccessShape(x: IndexOrName)
    ensures var r := PropertyAccessString(x);
      (|r| >= 2 && (r[0] == '.' <==> x.Name? && IsIdentifierName(x.s))
       && (r[0] == '[' <==> !(x.Name? && IsIdentifierName(x.s))))
  {
  }

  /** Different names give different access strings. */
  lemma PropertyAccessInjective(x: IndexOrName, y: IndexOrName)
    requires x.Name? && y.Name? && PropertyAccessString(x) == PropertyAccessString(y)
    ensures x == y
  {
    var r := PropertyAccessString(x);
    PropertyAccessShape(x);
    PropertyAccessShape(y);
    if r[0] == '.' {
      assert x.s == r[1..] == y.s;
    } else {
      var ex, ey := SafeString(x.s), SafeString(y.s);
      assert r == "[\"" + ex + "\"]" == "[\"" + ey + "\"]";
      assert ex == r[2..|r| - 2] == ey;
      SafeStringRoundTrip(x.s);
      SafeStringRoundTrip(y.s);
    }
  }

  /** How a segment's `indexOrName` is spliced into a template string. */
  function KeyText(x: IndexOrName): string {
    match x
    case Num(n) => IntToString(n)
    case Name(s) => s
  }

  /** A mirrored event-listener property `$$$onX` is printed as `onX`. */
  function Unmirrored(x: IndexOrName): (r: IndexOrName)
    ensures x.Name? && StartsWith(x.s, "$$$on") ==> r == Name(x.s[3..])
    ensures !(x.Name? && StartsWith(x.s, "$$$on")) ==> r == x
  {
    if x.Name? && StartsWith(x.s, "$$$on") then Name(x.s[3..]) else x
  }

  // ---------------------------------------------------------------------
  // parseInt on the index of a `$$$CHILD$$$n` name
  // ---------------------------------------------------------------------

  /** A result of `parseInt`: a number or NaN. */
  datatype ParsedInt = NaN | Int(v: int)

  /** The longest prefix of decimal digits. */
  function DigitPrefix(s: string): (r: string)
    ensures AllDigits(r) && |r| <= |s| && r == s[..|r|]
    ensures |r| < |s| ==> !IsDigit(s[|r|])
    ensures AllDigits(s) ==> r == s
    decreases |s|
  {
    if s != [] && IsDigit(s[0]) then [s[0]] + DigitPrefix(s[1..]) else ""
  }

  /** `parseInt(s, 10)`: an optional sign, then the longest digit prefix; NaN without digits. */
  function ParseInt(s: string): (r: ParsedInt)
    ensures AllDigits(s) && s != [] ==> r == Int(ParseDigits(s))
  {
    var negative := s != [] && s[0] == '-';
    var body := if s != [] && (s[0] == '-' || s[0] == '+') then s[1..] else s;
    var digits := DigitPrefix(body);
    if digits == [] then NaN
    else Int(if negative then 0 - ParseDigits(digits) else ParseDigits(digits))
  }

  /** Reading back a printed child index gives the index. */
  lemma ParseIntOfPrinted(n: nat)
    ensures ParseInt(NatToString(n)) == Int(n)
  {
    NatToStringRoundTrip(n);
  }

  /** `[${idx}]` for a parsed child index. */
  function IndexAccessString(x: ParsedInt): string {
    match x
    case NaN => "[NaN]"
    case Int(v) => PropertyAccessString(Num(v))
  }

  /** The child index of a `$$$CHILD$$$n` name: what follows the 11-character prefix. */
  function ChildIndex(name: string): ParsedInt {
    ParseInt(JsSlice(name, 11, |name|))
  }

  // ---------------------------------------------------------------------
  // The printed text, as functions of the path
  // ---------------------------------------------------------------------

  /** The stream's text: the finished chunks and the chunk being printed. */
  datatype Output = Output(done: seq<string>, current: string)

  /** `pushString`: the current chunk is finished and a new empty one begins. */
  function Pushed(o: Output): Output {
    Output(o.done + [o.current], "")
  }

  function Printed(o: Output, text: string): Output {
    o.(current := o.current + text)
  }

  /** The chunks that are not empty, in order. */
  function NonEmpty(cs: seq<string>): (r: seq<string>)
    ensures forall k :: 0 <= k < |r| ==> r[k] != ""
    ensures |r| <= |cs|
  {
    if cs == [] then []
    else NonEmpty(cs[..|cs| - 1]) + (if cs[|cs| - 1] == "" then [] else [cs[|cs| - 1]])
  }

  function Reverse(cs: seq<string>): (r: seq<string>)
    ensures |r| == |cs| && forall k :: 0 <= k < |cs| ==> r[k] == cs[|cs| - 1 - k]
  {
    seq(|cs|, k requires 0 <= k < |cs| => cs[|cs| - 1 - k])
  }

  /** `flush`: the non-empty chunks, last first, separated by single spaces. */
  function FlushText(o: Output): string {
    Join(Reverse(NonEmpty(o.done + [o.current])), " ")
  }

  /**
   * `prettyPrintNonDOMPath` from segment `i` on. None where the source
   * throws: an EVENT_LISTENER_LIST segment with no segment after it.
   */
  function NonDom(p: seq<PathSegment>, i: nat, o: Output): Option<Output>
    decreases |p| - i
  {
    if i >= |p| then Some(o)
    else
      var seg := p[i];
      match seg.segType
      case EventListenerList =>
        if i + 1 >= |p| then None
        else
          var listenerType := KeyText(p[i + 1].indexOrName);
          if i + 2 >= |p| then
            NonDom(p, i + 2, Pushed(Printed(Pushed(o), "List of '" + listenerType + "' listeners on")))
          else
            var text := "on listener " + KeyText(p[i + 2].indexOrName) + " in the list of '" + listenerType + "' listeners on";
            NonDom(p, i + 4, Pushed(Printed(Pushed(o), text)))
      case Closure => NonDom(p, i + 1, Pushed(Printed(Pushed(o), "within closure of")))
      case ClosureVariable => NonDom(p, i + 1, Printed(o, KeyText(seg.indexOrName)))
      case _ => NonDom(p, i + 1, Printed(o, PropertyAccessString(Unmirrored(seg.indexOrName))))
  }

  /**
   * `prettyPrintDOMPath` from segment `i` on: "root" hands over to the
   * non-DOM printer, "childNodes" prints `.childNodes`, any other name its
   * child index. None where the source throws: a numeric name.
   */
  function Dom(p: seq<PathSegment>, i: nat, o: Output): Option<Output>
    decreases |p| - i
  {
    if i >= |p| then Some(o)
    else
      match p[i].indexOrName
      case Num(_) => None
      case Name(name) =>
        if name == "root" then NonDom(p, i + 1, o)
        else if name == "childNodes" then Dom(p, i + 1, Printed(o, PropertyAccessString(Name(name))))
        else Dom(p, i + 1, Printed(o, IndexAccessString(ChildIndex(name))))
  }

  /**
   * `pathToString`: a DOM path starts at "document" after its first
   * segment, any other path at "window". None where the source throws
   * (an empty path, or one of the cases above).
   */
  function PathText(p: seq<PathSegment>): Option<string> {
    if p == [] then None
    else if p[0].segType == DomTree then
      match Dom(p, 1, Output([], "document"))
      case None => None
      case Some(o) => Some(FlushText(o))
    else
      match NonDom(p, 0, Output([], "window"))
      case None => None
      case Some(o) => Some(FlushText(o))
  }

  // ---------------------------------------------------------------------
  // Properties of the printed text
  // ---------------------------------------------------------------------

  /** The first chunk of the output, once something has been printed. */
  function FirstChunk(o: Output): string {
    if o.done == [] then o.current else o.done[0]
  }

  /** Printing and pushing never change the text of the first chunk once it is finished, and only extend it before. */
  lemma {:induction false} NonDomKeepsFirst(p: seq<PathSegment>, i: nat, o: Output)
    requires NonDom(p, i, o).Some?
    ensures StartsWith(FirstChunk(NonDom(p, i, o).value), FirstChunk(o))
    decreases |p| - i
  {
    if i < |p| {
      var seg := p[i];
      match seg.segType
      case EventListenerList =>
        var listenerType := KeyText(p[i + 1].indexOrName);
        var text := if i + 2 >= |p| then "List of '" + listenerType + "' listeners on"
          else "on listener " + KeyText(p[i + 2].indexOrName) + " in the list of '" + listenerType + "' listeners on";
        var o' := Pushed(Printed(Pushed(o), text));
        PushedKeepsFirst(o, text);
        NonDomKeepsFirst(p, if i + 2 >= |p| then i + 2 else i + 4, o');
      case Closure =>
        var o' := Pushed(Printed(Pushed(o), "within closure of"));
        PushedKeepsFirst(o, "within closure of");
        NonDomKeepsFirst(p, i + 1, o');
      case ClosureVariable =>
        var o' := Printed(o, KeyText(seg.indexOrName));
        PrintedKeepsFirst(o, KeyText(seg.indexOrName));
        NonDomKeepsFirst(p, i + 1, o');
        StartsWithTrans(FirstChunk(NonDom(p, i + 1, o').value), FirstChunk(o'), FirstChunk(o));
      case _ =>
        var o' := Printed(o, PropertyAccessString(Unmirrored(seg.indexOrName)));
        PrintedKeepsFirst(o, PropertyAccessString(Unmirrored(seg.indexOrName)));
        NonDomKeepsFirst(p, i + 1, o');
        StartsWithTrans(FirstChunk(NonDom(p, i + 1, o').value), FirstChunk(o'), FirstChunk(o));
    }
  }

  /** A label pushed as a chunk of its own leaves the first chunk as it was. */
  lemma PushedKeepsFirst(o: Output, text: string)
    ensures FirstChunk(Pushed(Printed(Pushed(o), text))) == FirstChunk(o)
  {
  }

  /** Printing extends the current chunk, so the first chunk can only grow. */
  lemma PrintedKeepsFirst(o: Output, text: string)
    ensures StartsWith(FirstChunk(Printed(o, text)), FirstChunk(o))
  {
    if o.done == [] {
      StartsWithConcat(o.current, text);
    }
  }

  lemma {:induction false} DomKeepsFirst(p: seq<PathSegment>, i: nat, o: Output)
    requires Dom(p, i, o).Some?
    ensures StartsWith(FirstChunk(Dom(p, i, o).value), FirstChunk(o))
    decreases |p| - i
  {
    if i < |p| {
      var name := p[i].indexOrName.s;
      if name == "root" {
        NonDomKeepsFirst(p, i + 1, o);
      } else {
        var text := if name == "childNodes" then PropertyAccessString(Name(name)) else IndexAccessString(ChildIndex(name));
        var o' := Printed(o, text);
        PrintedKeepsFirst(o, text);
        DomKeepsFirst(p, i + 1, o');
        StartsWithTrans(FirstChunk(Dom(p, i + 1, o').value), FirstChunk(o'), FirstChunk(o));
      }
    }
  }

  lemma {:induction false} NonEmptyFirst(cs: seq<string>)
    requires cs != [] && cs[0] != ""
    ensures NonEmpty(cs) != [] && NonEmpty(cs)[0] == cs[0]
    decreases |cs|
  {
    if |cs| > 1 {
      NonEmptyFirst(cs[..|cs| - 1]);
    }
  }

  lemma {:induction false} JoinEndsWithLast(parts: seq<string>, sep: string)
    requires parts != []
    ensures EndsWith(Join(parts, sep), parts[|parts| - 1])
    ensures |parts| > 1 ==> EndsWith(Join(parts, sep), sep + parts[|parts| - 1])
  {
    if |parts| > 1 {
      var last := parts[|parts| - 1];
      var j := Join(parts, sep);
      assert j == Join(parts[..|parts| - 1], sep) + sep + last;
      assert j[|j| - |last|..] == last;
      assert j[|j| - |sep + last|..] == sep + last;
    }
  }

  /** The flushed text ends with the first chunk, after a space unless it is the only non-empty one. */
  lemma FlushEndsWithFirst(o: Output)
    requires FirstChunk(o) != ""
    ensures FlushText(o) == FirstChunk(o) || EndsWith(FlushText(o), " " + FirstChunk(o))
  {
    var c := FirstChunk(o);
    var cs := o.done + [o.current];
    assert cs[0] == c;
    NonEmptyFirst(cs);
    var parts := Reverse(NonEmpty(cs));
    assert parts[|parts| - 1] == c;
    JoinEndsWithLast(parts, " ");
    if |parts| == 1 {
      assert Join(parts, " ") == c;
    }
  }

  /**
   * The printed path ends with the chunk that begins at its root: "window"
   * (or "document" for a DOM path) followed by the accesses printed before
   * the first closure or listener; earlier chunks come before it, each
   * followed by a space.
   */
  lemma PathTextEndsAtRoot(p: seq<PathSegment>)
    requires PathText(p).Some?
    ensures p[0].segType == DomTree ==>
      exists c :: StartsWith(c, "document") && (PathText(p).value == c || EndsWith(PathText(p).value, " " + c))
    ensures p[0].segType != DomTree ==>
      exists c :: StartsWith(c, "window") && (PathText(p).value == c || EndsWith(PathText(p).value, " " + c))
  {
    if p[0].segType == DomTree {
      var o0 := Output([], "document");
      DomKeepsFirst(p, 1, o0);
      var o := Dom(p, 1, o0).value;
      FlushEndsWithFirst(o);
      assert PathText(p).value == FlushText(o);
      var c := FirstChunk(o);
      assert StartsWith(c, "document") && (PathText(p).value == c || EndsWith(PathText(p).value, " " + c));
    } else {
      var o0 := Output([], "window");
      NonDomKeepsFirst(p, 0, o0);
      var o := NonDom(p, 0, o0).value;
      FlushEndsWithFirst(o);
      assert PathText(p).value == FlushText(o);
      var c := FirstChunk(o);
      assert StartsWith(c, "window") && (PathText(p).value == c || EndsWith(PathText(p).value, " " + c));
    }
  }

  /** A segment printed as a plain property access. */
  predicate PlainSegment(seg: PathSegment) {
    seg.segType !in {EventListenerList, Closure, ClosureVariable}
  }

  /** The accesses of segments `i` onwards, concatenated. */
  function Accesses(p: seq<PathSegment>, i: nat): string
    decreases |p| - i
  {
    if i >= |p| then "" else PropertyAccessString(Unmirrored(p[i].indexOrName)) + Accesses(p, i + 1)
  }

  lemma {:induction false} NonDomPlain(p: seq<PathSegment>, i: nat, o: Output)
    requires forall k :: i <= k < |p| ==> PlainSegment(p[k])
    ensures NonDom(p, i, o) == Some(Printed(o, Accesses(p, i)))
    decreases |p| - i
  {
    if i >= |p| {
      assert o.current + "" == o.current;
    } else {
      var a := PropertyAccessString(Unmirrored(p[i].indexOrName));
      NonDomPlainStep(p, i, o);
      NonDomPlain(p, i + 1, Printed(o, a));
      PrintedTwice(o, a, Accesses(p, i + 1));
    }
  }

  lemma NonDomPlainStep(p: seq<PathSegment>, i: nat, o: Output)
    requires i < |p| && PlainSegment(p[i])
    ensures NonDom(p, i, o) == NonDom(p, i + 1, Printed(o, PropertyAccessString(Unmirrored(p[i].indexOrName))))
  {
  }

  lemma PrintedTwice(o: Output, a: string, b: string)
    ensures Printed(Printed(o, a), b) == Printed(o, a + b)
  {
    assert o.current + a + b == o.current + (a + b);
  }

  /**
   * A path of plain property segments prints as "window" followed by one
   * access per segment, as `path2string` does for the same edges.
   */
  lemma PlainPathText(p: seq<PathSegment>)
    requires p != [] && p[0].segType != DomTree && forall k :: 0 <= k < |p| ==> PlainSegment(p[k])
    ensures PathText(p) == Some("window" + Accesses(p, 0))
  {
    NonDomPlain(p, 0, Output([], "window"));
    var cs := [] + ["window" + Accesses(p, 0)];
    assert NonEmpty(cs) == cs by {
      assert cs[..0] == [];
    }
  }

  // ---------------------------------------------------------------------
  // PathStream
  // ---------------------------------------------------------------------

  /** `PathStream`: the path, the position in it, the current chunk and the finished ones. */
  class PathStream {
    var p: Option<seq<PathSegment>>
    var i: int
    var s: Option<string>
    var ss: Option<seq<string>>

    ghost predicate Valid()
      reads this
    {
      (s.Some? <==> ss.Some?) && (p.Some? ==> i >= 0)
    }

    function Out(): Output
      reads this
      requires s.Some? && ss.Some?
    {
      Output(ss.value, s.value)
    }

    constructor()
      ensures Valid() && p == None && i == -1 && s == None && ss == None
    {
      p, i, s, ss := None, -1, None, None;
    }

    /** `print`: appends to the current chunk, if there is one. */
    method Print(text: string)
      modifies this
      ensures s == if old(s).Some? then Some(old(s).value + text) else None
      ensures p == old(p) && i == old(i) && ss == old(ss)
    {
      if s.Some? {
        s := Some(s.value + text);
      }
    }

    /** `pushString`: the current chunk is finished and a new empty one begins. */
    method PushString()
      requires Valid()
      modifies this
      ensures Valid() && p == old(p) && i == old(i)
      ensures old(ss).Some? ==> ss == Some(old(ss).value + [old(s).value]) && s == Some("")
      ensures old(ss).None? ==> ss == None && s == None
    {
      if ss.Some? {
        ss := Some(ss.value + [s.value]);
        s := Some("");
      }
    }

    /** `flush`: the text of the chunks, and the stream emptied. */
    method Flush() returns (r: string)
      requires Valid() && ss.Some?
      modifies this
      ensures Valid() && s == None && ss == None && p == old(p) && i == old(i)
      ensures r == FlushText(old(Out()))
    {
      var chunks := ss.value + [s.value];
      s, ss := None, None;
      r := Join(Reverse(NonEmpty(chunks)), " ");
    }

    method SetPath(path: seq<PathSegment>)
      modifies this
      ensures Valid() && p == Some(path) && i == 0 && s == Some("") && ss == Some([])
    {
      p, i, s, ss := Some(path), 0, Some(""), Some([]);
    }

    method Advance()
      modifies this
      ensures i == old(i) + 1 && p == old(p) && s == old(s) && ss == old(ss)
    {
      i := i + 1;
    }

    /** `nonempty`: a path is set and has a segment at the position. */
    predicate Nonempty()
      reads this
    {
      p.Some? && |p.value| > i
    }

    /** The segment at the position, or None past the end. */
    function Current(): Option<PathSegment>
      reads this
      requires Valid()
    {
      if Nonempty() then Some(p.value[i]) else None
    }

    method Peek() returns (seg: Option<PathSegment>)
      requires Valid()
      ensures seg == Current()
    {
      if Nonempty() {
        seg := Some(p.value[i]);
      } else {
        seg := None;
      }
    }

    /** `pop`: the segment at the position, and the position advanced in any case. */
    method Pop() returns (seg: Option<PathSegment>)
      requires Valid()
      modifies this
      ensures Valid() && seg == old(Current())
      ensures i == old(i) + 1 && p == old(p) && s == old(s) && ss == old(ss)
    {
      seg := Peek();
      Advance();
    }
  }

  // ---------------------------------------------------------------------
  // The printers
  // ---------------------------------------------------------------------

  /** `prettyPrintNonDOMPath`; false where the source throws. */
  method PrettyPrintNonDOMPath(ps: PathStream) returns (ok: bool)
    requires ps.Valid() && ps.p.Some? && ps.s.Some?
    modifies ps
    ensures ps.Valid() && ps.p == old(ps.p) && ps.s.Some?
    ensures ok <==> NonDom(ps.p.value, old(ps.i), old(ps.Out())).Some?
    ensures ok ==> NonDom(ps.p.value, old(ps.i), old(ps.Out())) == Some(ps.Out()) && !ps.Nonempty()
  {
    ghost var p := ps.p.value;
    ghost var goal := NonDom(p, ps.i, ps.Out());
    while ps.Nonempty()
      invariant ps.Valid() && ps.p == Some(p) && ps.s.Some?
      invariant NonDom(p, ps.i, ps.Out()) == goal
      decreases |p| - ps.i
    {
      var segment := ps.Pop();
      match segment.value.segType
      case EventListenerList =>
        var typeSegment := ps.Pop();
        if typeSegment.None? {
          return false;
        }
        if !ps.Nonempty() {
          ps.PushString();
          ps.Print("List of '" + KeyText(typeSegment.value.indexOrName) + "' listeners on");
          ps.PushString();
        } else {
          var indexSegment := ps.Pop();
          var _ := ps.Pop();
          ps.PushString();
          ps.Print("on listener " + KeyText(indexSegment.value.indexOrName) + " in the list of '"
            + KeyText(typeSegment.value.indexOrName) + "' listeners on");
          ps.PushString();
        }
      case Closure =>
        ps.PushString();
        ps.Print("within closure of");
        ps.PushString();
      case ClosureVariable =>
        ps.Print(KeyText(segment.value.indexOrName));
      case _ =>
        ps.Print(PropertyAccessString(Unmirrored(segment.value.indexOrName)));
    }
    ok := true;
  }

  /** `prettyPrintDOMPath`; false where the source throws. */
  method PrettyPrintDOMPath(ps: PathStream) returns (ok: bool)
    requires ps.Valid() && ps.p.Some? && ps.s.Some?
    modifies ps
    ensures ps.Valid() && ps.p == old(ps.p) && ps.s.Some?
    ensures ok <==> Dom(ps.p.value, old(ps.i), old(ps.Out())).Some?
    ensures ok ==> Dom(ps.p.value, old(ps.i), old(ps.Out())) == Some(ps.Out())
  {
    ghost var p := ps.p.value;
    ghost var goal := Dom(p, ps.i, ps.Out());
    while ps.Nonempty()
      invariant ps.Valid() && ps.p == Some(p) && ps.s.Some?
      invariant Dom(p, ps.i, ps.Out()) == goal
      decreases |p| - ps.i
    {
      var segment := ps.Pop();
      var name := segment.value.indexOrName;
      if name == Name("root") {
        ok := PrettyPrintNonDOMPath(ps);
        if !ok {
          return;
        }
      } else if name == Name("childNodes") {
        ps.Print(PropertyAccessString(name));
      } else if name.Num? {
        return false;
      } else {
        var idx := ChildIndex(name.s);
        ps.Print(IndexAccessString(idx));
      }
    }
    ok := true;
  }

  /** `pathToString`: None where the source throws. */
  method PathToString(ps: PathStream, p: seq<PathSegment>) returns (r: Option<string>)
    modifies ps
    ensures r == PathText(p)
  {
    ps.SetPath(p);
    var segment := ps.Peek();
    if segment.None? {
      return None;
    }
    var ok;
    if segment.value.segType == DomTree {
      ps.Print("document");
      ps.Advance();
      assert ps.Out() == Output([], "document") && ps.i == 1;
      ok := PrettyPrintDOMPath(ps);
    } else {
      ps.Print("window");
      assert ps.Out() == Output([], "window") && ps.i == 0;
      ok := PrettyPrintNonDOMPath(ps);
    }
    if !ok {
      return None;
    }
    var text := ps.Flush();
    r := Some(text);
  }
}
