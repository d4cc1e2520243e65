/** What holds of the parser on every stream, and what its cases are on every report. */
module JunitProperties {
  import opened Wrappers
  import opened Grading
  import opened Junit
  import opened JunitTrees

  // ---- State invariants over every prefix of a stream ----

  predicate ShortMessage(c: TestCaseResult) {
    c.message.Some? ==> |c.message.value| <= 1001
  }

  ghost predicate Invariant(st: State) {
    && Sound(st)
    && (st.current.Some? ==> ShortMessage(st.current.value))
    && (forall i :: 0 <= i < |st.cases| ==> ShortMessage(st.cases[i]))
  }

  /** On any stream at all: a capture window belongs to an open case without a message, and no stored
      message exceeds the limit by more than the ellipsis. */
  lemma {:induction false} RunKeepsInvariant(st: State, events: seq<Event>)
    requires Invariant(st)
    ensures Invariant(Run(st, events))
    ensures st.cases <= Run(st, events).cases
    decreases |events|
  {
    if events != [] {
      StepKeepsInvariant(st, events[0]);
      RunKeepsInvariant(Step(st, events[0]), events[1..]);
    }
  }

  lemma StepKeepsInvariant(st: State, e: Event)
    requires Invariant(st)
    ensures Invariant(Step(st, e)) && st.cases <= Step(st, e).cases
  {
  }

  /** The elements a well-nested stream has open, innermost last; `None` once an end tag does not match. */
  function Open(stack: seq<Event>, events: seq<Event>): Option<seq<Event>>
    decreases |events|
  {
    if events == [] then Some(stack)
    else
      match events[0]
      case Start(_, _) => Open(stack + [events[0]], events[1..])
      case End(tag) =>
        if stack != [] && stack[|stack| - 1].Start? && stack[|stack| - 1].tag == tag
        then Open(stack[..|stack| - 1], events[1..])
        else None
      case _ => Open(stack, events[1..])
  }

  function SuiteNames(stack: seq<Event>): seq<string> {
    if stack == [] then []
    else
      var e := stack[|stack| - 1];
      SuiteNames(stack[..|stack| - 1])
      + (if e.Start? && e.tag == "testsuite" then [SuiteName(e.attrs)] else [])
  }

  /** The stack one event later. */
  function Pushed(stack: seq<Event>, e: Event): seq<Event> {
    match e
    case Start(_, _) => stack + [e]
    case End(_) => if stack == [] then [] else stack[..|stack| - 1]
    case _ => stack
  }

  // ---- Every well-nested stream is a report ----

  /** What a well-nested stream still holds when the elements of `stack` are open: a forest before each of
      their end tags, the innermost first, and one after the last. */
  function Woven(stack: seq<Event>, forests: seq<seq<Xml>>): seq<Event>
    requires |forests| == |stack| + 1 && forall i :: 0 <= i < |stack| ==> stack[i].Start?
  {
    if stack == [] then FlattenAll(forests[0])
    else
      FlattenAll(forests[0]) + [End(stack[|stack| - 1].tag)] + Woven(stack[..|stack| - 1], forests[1..])
  }

  lemma FlattenCons(x: Xml, xs: seq<Xml>)
    ensures FlattenAll([x] + xs) == Flatten(x) + FlattenAll(xs)
  {
    assert ([x] + xs)[1..] == xs;
  }

  /** What follows the first forest. */
  function Tail(stack: seq<Event>, forests: seq<seq<Xml>>): seq<Event>
    requires |forests| == |stack| + 1 && forall i :: 0 <= i < |stack| ==> stack[i].Start?
  {
    if stack == [] then []
    else [End(stack[|stack| - 1].tag)] + Woven(stack[..|stack| - 1], forests[1..])
  }

  lemma Regroup<T>(a: seq<T>, b: seq<T>, c: seq<T>)
    ensures (a + b) + c == a + (b + c)
  {
  }

  lemma WovenTail(stack: seq<Event>, forests: seq<seq<Xml>>)
    requires |forests| == |stack| + 1 && forall i :: 0 <= i < |stack| ==> stack[i].Start?
    ensures Woven(stack, forests) == FlattenAll(forests[0]) + Tail(stack, forests)
  {
    if stack != [] {
      Regroup(FlattenAll(forests[0]), [End(stack[|stack| - 1].tag)], Woven(stack[..|stack| - 1], forests[1..]));
    }
  }

  lemma WovenCons(stack: seq<Event>, x: Xml, forests: seq<seq<Xml>>)
    requires |forests| == |stack| + 1 && forall i :: 0 <= i < |stack| ==> stack[i].Start?
    ensures Woven(stack, [[x] + forests[0]] + forests[1..]) == Flatten(x) + Woven(stack, forests)
  {
    var more := [[x] + forests[0]] + forests[1..];
    assert more[1..] == forests[1..] && more[0] == [x] + forests[0];
    WovenTail(stack, forests);
    WovenTail(stack, more);
    assert Tail(stack, more) == Tail(stack, forests);
    calc {
      Woven(stack, more);
      FlattenAll([x] + forests[0]) + Tail(stack, forests);
      { FlattenCons(x, forests[0]); }
      (Flatten(x) + FlattenAll(forests[0])) + Tail(stack, forests);
      { Regroup(Flatten(x), FlattenAll(forests[0]), Tail(stack, forests)); }
      Flatten(x) + (FlattenAll(forests[0]) + Tail(stack, forests));
    }
  }

  function LeafOf(e: Event): Xml
    requires !e.Start? && !e.End? && !e.Malformed?
  {
    match e
    case Empty(tag, attrs) => SelfClosing(tag, attrs)
    case Text(body) => TextNode(body)
    case CData(body) => CDataNode(body)
    case Other => OtherNode
  }

  lemma {:induction false} Unflatten(stack: seq<Event>, events: seq<Event>) returns (forests: seq<seq<Xml>>)
    requires Malformed !in events && Open(stack, events) == Some([])
    requires forall i :: 0 <= i < |stack| ==> stack[i].Start?
    ensures |forests| == |stack| + 1 && events == Woven(stack, forests)
    decreases |events|
  {
    if events == [] {
      forests := [[]];
    } else {
      var e, rest := events[0], events[1..];
      assert events == [e] + rest;
      if e.Start? {
        var inner := Unflatten(stack + [e], rest);
        assert (stack + [e])[..|stack|] == stack;
        var x, outer := Element(e.tag, e.attrs, inner[0]), inner[1..];
        WovenCons(stack, x, outer);
        forests := [[x] + outer[0]] + outer[1..];
        assert events == [e] + (FlattenAll(inner[0]) + [End(e.tag)] + Woven(stack, outer));
        assert Flatten(x) == [e] + FlattenAll(inner[0]) + [End(e.tag)];
      } else if e.End? {
        var outer := Unflatten(stack[..|stack| - 1], rest);
        forests := [[]] + outer;
        assert forests[1..] == outer && FlattenAll([]) == [];
      } else {
        var outer := Unflatten(stack, rest);
        WovenCons(stack, LeafOf(e), outer);
        forests := [[LeafOf(e)] + outer[0]] + outer[1..];
      }
    }
  }

  /** Every well-nested stream without a reader error is the events of a report tree, so what holds of report
      trees holds of all such streams. */
  lemma EveryStreamIsAReport(events: seq<Event>) returns (doc: seq<Xml>)
    requires Malformed !in events && Open([], events) == Some([])
    ensures FlattenAll(doc) == events
  {
    var forests := Unflatten([], events);
    doc := forests[0];
  }

  // ---- The suite stack ----

  lemma SuiteNamesPush(stack: seq<Event>, e: Event)
    ensures SuiteNames(stack + [e]) ==
            SuiteNames(stack) + (if e.Start? && e.tag == "testsuite" then [SuiteName(e.attrs)] else [])
  {
    assert (stack + [e])[..|stack|] == stack;
  }

  lemma OpenedSuites(st: State, tag: string, attrs: seq<Attribute>)
    ensures Opened(st, tag, attrs).suites == st.suites + (if tag == "testsuite" then [SuiteName(attrs)] else [])
  {
  }

  lemma ClosedSuites(st: State, tag: string)
    ensures Closed(st, tag).suites == if tag == "testsuite" then Pop(st.suites) else st.suites
  {
  }

  lemma OtherSuites(st: State, e: Event)
    requires !e.Start? && !e.End?
    ensures Step(st, e).suites == st.suites
  {
    if e.Empty? {
      OpenedSuites(st, e.tag, e.attrs);
    }
  }

  lemma EndSuites(stack: seq<Event>)
    requires stack != []
    ensures SuiteNames(stack[..|stack| - 1]) ==
            if stack[|stack| - 1].Start? && stack[|stack| - 1].tag == "testsuite" then Pop(SuiteNames(stack))
            else SuiteNames(stack)
  {
    var front := stack[..|stack| - 1];
    assert stack == front + [stack[|stack| - 1]];
    SuiteNamesPush(front, stack[|stack| - 1]);
  }

  lemma StepSuites(st: State, stack: seq<Event>, e: Event)
    requires st.suites == SuiteNames(stack)
    requires e.End? ==> stack != [] && stack[|stack| - 1].Start? && stack[|stack| - 1].tag == e.tag
    ensures Step(st, e).suites == SuiteNames(Pushed(stack, e))
  {
    if e.Start? {
      OpenedSuites(st, e.tag, e.attrs);
      SuiteNamesPush(stack, e);
    } else if e.End? {
      ClosedSuites(st, e.tag);
      EndSuites(stack);
    } else {
      OtherSuites(st, e);
    }
  }

  /** The suite stack is exactly the names of the open `testsuite` elements. */
  lemma {:induction false} SuiteStackIsOpenSuites(st: State, stack: seq<Event>, events: seq<Event>)
    requires st.suites == SuiteNames(stack) && Open(stack, events).Some?
    ensures Run(st, events).suites == SuiteNames(Open(stack, events).value)
    decreases |events|
  {
    if events != [] {
      StepSuites(st, stack, events[0]);
      SuiteStackIsOpenSuites(Step(st, events[0]), Pushed(stack, events[0]), events[1..]);
    }
  }

  // ---- Passed cases with a message ----

  /** A `testcase` without a verdict begins while a verdict element around it still waits for a message,
      and holds character data. */
  predicate Leaks(x: Xml, inCase: bool, open: bool)
    decreases x, 1
  {
    match x
    case Element(tag, attrs, children) =>
      if tag == "testcase" then
        if AnyCase(children) then LeaksAll(children, true, open)
        else open && LastVerdictAll(children).None? && FirstText(children).Some?
      else if tag != "testsuite" && IsVerdict(tag) then LeaksAll(children, inCase, inCase && AttrMessage(attrs).None?)
      else LeaksAll(children, inCase, open)
    case _ => false
  }

  predicate LeaksAll(xs: seq<Xml>, inCase: bool, open: bool)
    decreases xs, 0
  {
    xs != [] &&
    if HasCase(xs[0]) then Leaks(xs[0], inCase, open) || LeaksAll(xs[1..], false, false)
    else LeaksAll(xs[1..], inCase, StillOpen(xs[0], open))
  }

  predicate Silent(c: TestCaseResult) {
    c.outcome == TestOutcome.Passed ==> c.message.None?
  }

  predicate AllSilent(cs: seq<TestCaseResult>) {
    forall i :: 0 <= i < |cs| ==> Silent(cs[i])
  }

  lemma SilentConcat(a: seq<TestCaseResult>, b: seq<TestCaseResult>)
    ensures AllSilent(a + b) <==> AllSilent(a) && AllSilent(b)
  {
    if AllSilent(a + b) {
      forall i | 0 <= i < |a| ensures Silent(a[i]) { assert (a + b)[i] == a[i]; }
      forall i | 0 <= i < |b| ensures Silent(b[i]) { assert (a + b)[|a| + i] == b[i]; }
    }
  }

  lemma {:induction false} SilentNode(x: Xml, suite: Option<string>, inCase: bool, open: bool)
    ensures AllSilent(Cases(x, suite, inCase, open)) <==> !Leaks(x, inCase, open)
    decreases x, 1
  {
    if x.Element? {
      var tag, attrs, children := x.tag, x.attrs, x.children;
      if tag == "testcase" {
        if AnyCase(children) {
          SilentForest(children, suite, true, open);
        } else {
          var c := CaseOf(attrs, children, suite, open);
          assert AllSilent([c]) <==> Silent([c][0]);
          if LastVerdictAll(children).Some? { VerdictIsVerdict(children); }
        }
      } else {
        SilentForest(children, if tag == "testsuite" then Some(SuiteName(attrs)) else suite, inCase,
                     if tag != "testsuite" && IsVerdict(tag) then inCase && AttrMessage(attrs).None? else open);
      }
    }
  }

  lemma {:induction false} SilentForest(xs: seq<Xml>, suite: Option<string>, inCase: bool, open: bool)
    ensures AllSilent(CasesAll(xs, suite, inCase, open)) <==> !LeaksAll(xs, inCase, open)
    decreases xs, 0
  {
    if xs != [] {
      if HasCase(xs[0]) {
        SilentNode(xs[0], suite, inCase, open);
        SilentForest(xs[1..], suite, false, false);
        SilentConcat(Cases(xs[0], suite, inCase, open), CasesAll(xs[1..], suite, false, false));
      } else {
        SilentForest(xs[1..], suite, inCase, StillOpen(xs[0], open));
      }
    }
  }

  lemma {:induction false} VerdictIsVerdict(xs: seq<Xml>)
    requires LastVerdictAll(xs).Some?
    ensures IsVerdict(VerdictTag(LastVerdictAll(xs).value))
    decreases xs, 0
  {
    if LastVerdictAll(xs[1..]).Some? { VerdictIsVerdict(xs[1..]); } else { NodeVerdictIsVerdict(xs[0]); }
  }

  lemma {:induction false} NodeVerdictIsVerdict(x: Xml)
    requires LastVerdict(x).Some?
    ensures IsVerdict(VerdictTag(LastVerdict(x).value))
    decreases x, 1
  {
    if x.Element? && LastVerdictAll(x.children).Some? { VerdictIsVerdict(x.children); }
  }

  /** A passed case is without a message exactly when no `testcase` opens inside a waiting verdict
      element and takes its message. */
  lemma PassedIsSilentIff(doc: seq<Xml>)
    ensures AllSilent(ReportCases(doc)) <==> !LeaksAll(doc, false, false)
  {
    SilentForest(doc, None, false, false);
  }

  /** A report with such a case. */
  lemma PassedWithMessage()
    ensures var doc := [Element("testcase", [], [Element("failure", [], [Element("testcase", [], [TextNode("x")])])])];
            Parse(FlattenAll(doc)) == Ok([NewCase([], None).(message := Some("x"))])
  {
    var inner := Element("testcase", [], [TextNode("x")]);
    var failure := Element("failure", [], [inner]);
    var doc := [Element("testcase", [], [failure])];
    ParserRefinement(doc);
    assert !AnyCase([TextNode("x")]) && HasCase(inner) && AnyCase([inner]) && HasCase(failure) && AnyCase([failure]);
    assert Trim("x") == "x";
    assert LastVerdictAll([TextNode("x")]) == None && FirstText([TextNode("x")]) == Some("x");
    assert Cases(inner, None, true, true) == [CaseOf([], [TextNode("x")], None, true)];
    assert CasesAll([inner], None, true, true) == [CaseOf([], [TextNode("x")], None, true)];
    assert AttrMessage([]) == None;
    assert Cases(failure, None, true, false) == CasesAll([inner], None, true, true);
    assert CasesAll([failure], None, true, false) == Cases(failure, None, true, false);
  }

  // ---- The cases are the innermost testcase elements ----

  /** The `testcase` elements without one inside, in document order. */
  function Innermost(x: Xml): seq<Xml>
    decreases x, 1
  {
    match x
    case Element(tag, _, children) =>
      if tag == "testcase" && !AnyCase(children) then [x] else InnermostAll(children)
    case SelfClosing(tag, _) => if tag == "testcase" then [x] else []
    case _ => []
  }

  function InnermostAll(xs: seq<Xml>): seq<Xml>
    decreases xs, 0
  {
    if xs == [] then [] else Innermost(xs[0]) + InnermostAll(xs[1..])
  }

  /** The verdict of a `testcase` read off its own subtree. */
  function OutcomeIn(x: Xml): TestOutcome {
    match x
    case Element(_, _, children) =>
      (match LastVerdictAll(children)
       case None => TestOutcome.Passed
       case Some(v) => OutcomeOf(VerdictTag(v)))
    case _ => TestOutcome.Passed
  }

  // ---- A reading of the subtree of its own ----

  /** Every node at and below `x`, in the order in which they begin. */
  function Preorder(x: Xml): seq<Xml>
    decreases x, 1
  {
    match x
    case Element(_, _, children) => [x] + PreorderAll(children)
    case _ => [x]
  }

  function PreorderAll(xs: seq<Xml>): seq<Xml>
    decreases xs, 0
  {
    if xs == [] then [] else Preorder(xs[0]) + PreorderAll(xs[1..])
  }

  /** What is below a node. */
  function Inside(x: Xml): seq<Xml> {
    if x.Element? then PreorderAll(x.children) else []
  }

  /** An element of that name, self-closing or not. */
  predicate Named(x: Xml, tag: string) {
    (x.Element? || x.SelfClosing?) && x.tag == tag
  }

  predicate IsResult(x: Xml) {
    Named(x, "failure") || Named(x, "error") || Named(x, "skipped")
  }

  /** Character data, or what ends the search for it. */
  predicate IsHeard(x: Xml) {
    x.TextNode? || x.CDataNode? || x.SelfClosing?
  }

  predicate FirstIn(nodes: seq<Xml>, k: nat)
    requires k < |nodes|
  {
    IsHeard(nodes[k]) && forall j :: 0 <= j < k ==> !IsHeard(nodes[j])
  }

  predicate LastIn(nodes: seq<Xml>, k: nat)
    requires k < |nodes|
  {
    IsResult(nodes[k]) && forall j :: k < j < |nodes| ==> !IsResult(nodes[j])
  }

  /** The verdict found is the last of the listing. */
  ghost predicate VerdictFits(v: Option<Xml>, nodes: seq<Xml>) {
    && (v.None? <==> forall k :: 0 <= k < |nodes| ==> !IsResult(nodes[k]))
    && (forall k :: 0 <= k < |nodes| && LastIn(nodes, k) ==> v == Some(nodes[k]))
    && (v.Some? ==> exists k :: 0 <= k < |nodes| && LastIn(nodes, k))
  }

  /** The search stops at the first of the listing that can be heard. */
  ghost predicate ScanFits(scan: Scan, nodes: seq<Xml>) {
    && (scan.Searching? <==> forall k :: 0 <= k < |nodes| ==> !IsHeard(nodes[k]))
    && (forall k :: 0 <= k < |nodes| && FirstIn(nodes, k) ==> scan.Stopped? && scan.message == HeardAt(nodes[k]))
    && (scan.Stopped? ==> exists k :: 0 <= k < |nodes| && FirstIn(nodes, k))
  }

  /** The trimmed and shortened text, if there is any. */
  function HeardAt(x: Xml): Option<string> {
    if (x.TextNode? || x.CDataNode?) && Trim(x.body) != "" then Some(Truncate(Trim(x.body))) else None
  }

  lemma VerdictConcat(v: Option<Xml>, a: seq<Xml>, w: Option<Xml>, b: seq<Xml>)
    requires VerdictFits(v, a) && VerdictFits(w, b)
    ensures VerdictFits(OrElse(w, v), a + b)
  {
    if w.Some? {
      var k :| 0 <= k < |b| && LastIn(b, k);
      assert LastIn(a + b, |a| + k);
    } else if v.Some? {
      var k :| 0 <= k < |a| && LastIn(a, k);
      assert LastIn(a + b, k);
    }
    forall k | 0 <= k < |a + b| && LastIn(a + b, k) ensures OrElse(w, v) == Some((a + b)[k]) {
      if k < |a| {
        forall j | 0 <= j < |b| ensures !IsResult(b[j]) { assert (a + b)[|a| + j] == b[j]; }
        assert LastIn(a, k);
      } else {
        forall j | k - |a| < j < |b| ensures !IsResult(b[j]) { assert (a + b)[|a| + j] == b[j]; }
        assert LastIn(b, k - |a|);
      }
    }
  }

  lemma ScanConcat(s: Scan, a: seq<Xml>, t: Scan, b: seq<Xml>)
    requires ScanFits(s, a) && ScanFits(t, b)
    ensures ScanFits(if s.Searching? then t else s, a + b)
  {
    if s.Stopped? {
      var k :| 0 <= k < |a| && FirstIn(a, k);
      assert FirstIn(a + b, k);
    } else if t.Stopped? {
      var k :| 0 <= k < |b| && FirstIn(b, k);
      assert FirstIn(a + b, |a| + k);
    }
    forall k | 0 <= k < |a + b| && FirstIn(a + b, k)
      ensures var u := if s.Searching? then t else s; u.Stopped? && u.message == HeardAt((a + b)[k])
    {
      if k < |a| {
        forall j | 0 <= j < k ensures !IsHeard(a[j]) { assert (a + b)[j] == a[j]; }
        assert FirstIn(a, k);
      } else {
        forall j | 0 <= j < |a| ensures !IsHeard(a[j]) { assert (a + b)[j] == a[j]; }
        forall j | 0 <= j < k - |a| ensures !IsHeard(b[j]) { assert (a + b)[|a| + j] == b[j]; }
        assert FirstIn(b, k - |a|);
      }
    }
  }

  lemma OneVerdict(x: Xml)
    ensures VerdictFits(if IsVerdict(VerdictTag(x)) then Some(x) else None, [x])
    ensures !x.Element? ==> ScanFits(ScanNode(x), [x])
    ensures x.Element? ==> ScanFits(Searching, [x])
  {
    assert IsVerdict(VerdictTag(x)) <==> IsResult(x);
    assert IsResult(x) ==> LastIn([x], 0);
    assert IsHeard(x) ==> FirstIn([x], 0);
  }

  /** The recursive meaning and the listing agree on the last verdict and on the first character data. */
  lemma {:induction false} NodeFits(x: Xml)
    ensures VerdictFits(LastVerdict(x), Preorder(x)) && ScanFits(ScanNode(x), Preorder(x))
    decreases x, 1
  {
    OneVerdict(x);
    if x.Element? {
      ForestFits(x.children);
      VerdictConcat(if IsVerdict(VerdictTag(x)) then Some(x) else None, [x], LastVerdictAll(x.children),
                    PreorderAll(x.children));
      ScanConcat(Searching, [x], ScanAll(x.children), PreorderAll(x.children));
    }
  }

  lemma {:induction false} ForestFits(xs: seq<Xml>)
    ensures VerdictFits(LastVerdictAll(xs), PreorderAll(xs)) && ScanFits(ScanAll(xs), PreorderAll(xs))
    decreases xs, 0
  {
    if xs != [] {
      NodeFits(xs[0]);
      ForestFits(xs[1..]);
      VerdictConcat(LastVerdict(xs[0]), Preorder(xs[0]), LastVerdictAll(xs[1..]), PreorderAll(xs[1..]));
      ScanConcat(ScanNode(xs[0]), Preorder(xs[0]), ScanAll(xs[1..]), PreorderAll(xs[1..]));
    }
  }

  /** A `testcase` with no other inside. */
  predicate IsInnermost(x: Xml) {
    Named(x, "testcase") && forall k :: 0 <= k < |Inside(x)| ==> !Named(Inside(x)[k], "testcase")
  }

  /** The nodes of a listing that are innermost cases. */
  function Selected(nodes: seq<Xml>): seq<Xml> {
    if nodes == [] then [] else (if IsInnermost(nodes[0]) then [nodes[0]] else []) + Selected(nodes[1..])
  }

  lemma {:induction false} SelectedConcat(a: seq<Xml>, b: seq<Xml>)
    ensures Selected(a + b) == Selected(a) + Selected(b)
    decreases |a|
  {
    if a == [] {
      assert a + b == b;
    } else {
      assert (a + b)[1..] == a[1..] + b && (a + b)[0] == a[0];
      SelectedConcat(a[1..], b);
      Regroup(if IsInnermost(a[0]) then [a[0]] else [], Selected(a[1..]), Selected(b));
    }
  }

  predicate AnyNamed(nodes: seq<Xml>, tag: string) {
    exists k :: 0 <= k < |nodes| && Named(nodes[k], tag)
  }

  lemma AnyNamedConcat(a: seq<Xml>, b: seq<Xml>, tag: string)
    ensures AnyNamed(a + b, tag) <==> AnyNamed(a, tag) || AnyNamed(b, tag)
  {
    if k :| 0 <= k < |a| && Named(a[k], tag) { assert Named((a + b)[k], tag); }
    if k :| 0 <= k < |b| && Named(b[k], tag) { assert Named((a + b)[|a| + k], tag); }
  }

  lemma {:induction false} CaseListed(x: Xml)
    ensures HasCase(x) <==> AnyNamed(Preorder(x), "testcase")
    decreases x, 1
  {
    assert AnyNamed([x], "testcase") <==> Named([x][0], "testcase");
    if x.Element? {
      CasesListed(x.children);
      AnyNamedConcat([x], PreorderAll(x.children), "testcase");
    }
  }

  lemma {:induction false} CasesListed(xs: seq<Xml>)
    ensures AnyCase(xs) <==> AnyNamed(PreorderAll(xs), "testcase")
    decreases xs, 0
  {
    if xs != [] {
      CaseListed(xs[0]);
      CasesListed(xs[1..]);
      AnyNamedConcat(Preorder(xs[0]), PreorderAll(xs[1..]), "testcase");
    }
  }

  lemma {:induction false} NoneSelected(nodes: seq<Xml>)
    requires !AnyNamed(nodes, "testcase")
    ensures Selected(nodes) == []
    decreases |nodes|
  {
    if nodes != [] {
      forall k | 0 <= k < |nodes[1..]| ensures !Named(nodes[1..][k], "testcase") {
        assert nodes[1..][k] == nodes[k + 1];
      }
      NoneSelected(nodes[1..]);
    }
  }

  lemma InnermostIff(x: Xml)
    ensures IsInnermost(x) <==> Named(x, "testcase") && !AnyNamed(Inside(x), "testcase")
    ensures IsInnermost(x) <==> Named(x, "testcase") && (x.Element? ==> !AnyCase(x.children))
  {
    if x.Element? { CasesListed(x.children); }
  }

  /** The innermost cases are those of the listing. */
  lemma {:induction false} InnermostIsSelected(x: Xml)
    ensures Innermost(x) == Selected(Preorder(x))
    decreases x, 1
  {
    assert Selected([x]) == if IsInnermost(x) then [x] else [] by { assert [x][1..] == []; }
    InnermostIff(x);
    if x.Element? {
      InnermostAllIsSelected(x.children);
      SelectedConcat([x], PreorderAll(x.children));
      if IsInnermost(x) { NoneSelected(PreorderAll(x.children)); }
    }
  }

  lemma {:induction false} InnermostAllIsSelected(xs: seq<Xml>)
    ensures InnermostAll(xs) == Selected(PreorderAll(xs))
    decreases xs, 0
  {
    if xs != [] {
      InnermostIsSelected(xs[0]);
      InnermostAllIsSelected(xs[1..]);
      SelectedConcat(Preorder(xs[0]), PreorderAll(xs[1..]));
    }
  }

  /** Where a `testcase` stands: the name of the innermost enclosing `testsuite`, and whether it opens inside
      a verdict element of an enclosing case that still waits for its message. */
  datatype Setting = Setting(suite: Option<string>, waiting: bool)

  /** Neither a verdict nor character data nor a self-closing element, at or below. */
  predicate IsQuiet(x: Xml) {
    forall k :: 0 <= k < |Preorder(x)| ==> !IsResult(Preorder(x)[k]) && !IsHeard(Preorder(x)[k])
  }

  lemma StillOpenIsQuiet(x: Xml, open: bool)
    ensures StillOpen(x, open) <==> open && IsQuiet(x)
  {
    NodeFits(x);
  }

  /** The suite in force inside `x`. */
  function SuiteInside(x: Xml, suite: Option<string>): Option<string>
    requires x.Element?
  {
    if x.tag != "testsuite" then suite
    else if Attr(x.attrs, "name").Some? then Attr(x.attrs, "name")
    else Some("")
  }

  /** Whether a verdict waits for its message when the content of `x` begins. */
  function WaitingInside(x: Xml, inCase: bool, open: bool): bool
    requires x.Element?
  {
    if IsResult(x) then inCase && Attr(x.attrs, "message").None? && Attr(x.attrs, "type").None? else open
  }

  /** The settings of the innermost `testcase` elements, in document order. */
  function Settings(x: Xml, suite: Option<string>, inCase: bool, open: bool): seq<Setting>
    decreases x, 1
  {
    if IsInnermost(x) then [Setting(suite, open)]
    else if !x.Element? then []
    else
      SettingsAll(x.children, SuiteInside(x, suite), x.tag == "testcase" || inCase, WaitingInside(x, inCase, open))
  }

  function SettingsAll(xs: seq<Xml>, suite: Option<string>, inCase: bool, open: bool): seq<Setting>
    decreases xs, 0
  {
    if xs == [] then []
    else if AnyNamed(Preorder(xs[0]), "testcase") then
      Settings(xs[0], suite, inCase, open) + SettingsAll(xs[1..], suite, false, false)
    else SettingsAll(xs[1..], suite, inCase, open && IsQuiet(xs[0]))
  }

  /** The message is the first character data of the listing, unless it is blank or a self-closing element
      comes before it. */
  ghost predicate FirstHeard(message: Option<string>, nodes: seq<Xml>) {
    && ((forall k :: 0 <= k < |nodes| ==> !IsHeard(nodes[k])) ==> message == None)
    && (forall k :: 0 <= k < |nodes| && FirstIn(nodes, k) ==> message == HeardAt(nodes[k]))
  }

  /** `message` wins over `type`, and only an element with neither takes its first character data. */
  ghost predicate MessageRead(message: Option<string>, v: Xml) {
    && (v.Element? || v.SelfClosing?)
    && (Attr(v.attrs, "message").Some? ==> message == Some(Truncate(Attr(v.attrs, "message").value)))
    && (Attr(v.attrs, "message").None? && Attr(v.attrs, "type").Some? ==>
          message == Some(Truncate(Attr(v.attrs, "type").value)))
    && (Attr(v.attrs, "message").None? && Attr(v.attrs, "type").None? ==> FirstHeard(message, Inside(v)))
  }

  /** The case is passed exactly when no element below is a result; otherwise the one that begins last decides
      the outcome and the message. */
  ghost predicate OutcomeRead(c: TestCaseResult, nodes: seq<Xml>) {
    && (c.outcome == TestOutcome.Passed <==> forall k :: 0 <= k < |nodes| ==> !IsResult(nodes[k]))
    && (forall k :: 0 <= k < |nodes| && LastIn(nodes, k) ==>
          && (c.outcome == TestOutcome.Failed <==> Named(nodes[k], "failure"))
          && (c.outcome == Errored <==> Named(nodes[k], "error"))
          && (c.outcome == Skipped <==> Named(nodes[k], "skipped"))
          && MessageRead(c.message, nodes[k]))
  }

  /** The name, the suite and the duration. */
  ghost predicate FieldsRead(c: TestCaseResult, attrs: seq<Attribute>, s: Setting) {
    && (Attr(attrs, "name").Some? ==> c.name == Attr(attrs, "name").value)
    && (Attr(attrs, "name").None? ==> c.name == "<unnamed>")
    && (if Attr(attrs, "classname").Some? && Attr(attrs, "classname").value != "" then
          c.suite == Attr(attrs, "classname")
        else c.suite == if s.suite == Some("") then None else s.suite)
    && (var time := Find(attrs, "time");
        c.durationMs == if time.Some? && time.value.seconds.Some? then Millis(time.value.seconds.value) else 0)
  }

  ghost predicate Reports(c: TestCaseResult, x: Xml, s: Setting) {
    && Named(x, "testcase")
    && FieldsRead(c, x.attrs, s)
    && c.outcome == OutcomeIn(x)
    && OutcomeRead(c, Inside(x))
    && (c.outcome == TestOutcome.Passed ==> if s.waiting then FirstHeard(c.message, Inside(x)) else c.message == None)
  }

  /** Case by case. */
  ghost predicate ReportsAll(cs: seq<TestCaseResult>, xs: seq<Xml>, settings: seq<Setting>) {
    && |cs| == |xs| == |settings|
    && (cs != [] ==> Reports(cs[0], xs[0], settings[0]) && ReportsAll(cs[1..], xs[1..], settings[1..]))
  }

  lemma {:induction false} ReportsAt(cs: seq<TestCaseResult>, xs: seq<Xml>, settings: seq<Setting>, i: nat)
    requires ReportsAll(cs, xs, settings) && i < |cs|
    ensures |cs| == |xs| == |settings| && Reports(cs[i], xs[i], settings[i])
    decreases i
  {
    if i > 0 { ReportsAt(cs[1..], xs[1..], settings[1..], i - 1); }
  }

  lemma {:induction false} NoInnermost(x: Xml)
    requires !HasCase(x)
    ensures Innermost(x) == []
    decreases x, 1
  {
    if x.Element? { NoInnermostAll(x.children); }
  }

  lemma {:induction false} NoInnermostAll(xs: seq<Xml>)
    requires !AnyCase(xs)
    ensures InnermostAll(xs) == []
    decreases xs, 0
  {
    if xs != [] { NoInnermost(xs[0]); NoInnermostAll(xs[1..]); }
  }

  lemma HeardFirst(scan: Scan, nodes: seq<Xml>)
    requires ScanFits(scan, nodes)
    ensures FirstHeard(if scan.Stopped? then scan.message else None, nodes)
  {
  }

  lemma VerdictRead(v: Xml)
    requires IsVerdict(VerdictTag(v))
    ensures MessageRead(VerdictMessage(v), v)
  {
    if v.Element? {
      ForestFits(v.children);
      HeardFirst(ScanAll(v.children), Inside(v));
    }
  }

  lemma LeafOutcome(attrs: seq<Attribute>, children: seq<Xml>, suite: Option<string>, open: bool)
    requires !AnyCase(children)
    ensures OutcomeRead(CaseOf(attrs, children, suite, open), PreorderAll(children))
  {
    ForestFits(children);
    if LastVerdictAll(children).Some? {
      VerdictIsVerdict(children);
      VerdictRead(LastVerdictAll(children).value);
    }
  }

  lemma NewCaseReads(attrs: seq<Attribute>, suite: Option<string>, open: bool)
    ensures FieldsRead(NewCase(attrs, suite), attrs, Setting(suite, open))
  {
  }

  lemma LeafReports(attrs: seq<Attribute>, children: seq<Xml>, suite: Option<string>, open: bool)
    requires !AnyCase(children)
    ensures Reports(CaseOf(attrs, children, suite, open), Element("testcase", attrs, children), Setting(suite, open))
  {
    LeafOutcome(attrs, children, suite, open);
    NewCaseReads(attrs, suite, open);
    ForestFits(children);
    HeardFirst(ScanAll(children), PreorderAll(children));
    if LastVerdictAll(children).Some? { VerdictIsVerdict(children); }
  }

  lemma {:induction false} CasesReport(x: Xml, suite: Option<string>, inCase: bool, open: bool)
    ensures ReportsAll(Cases(x, suite, inCase, open), Innermost(x), Settings(x, suite, inCase, open))
    decreases x, 1
  {
    InnermostIff(x);
    if x.Element? {
      var tag, attrs := x.tag, x.attrs;
      if tag == "testcase" && !AnyCase(x.children) {
        LeafReports(attrs, x.children, suite, open);
      } else {
        assert SuiteInside(x, suite) == if tag == "testsuite" then Some(SuiteName(attrs)) else suite;
        assert WaitingInside(x, inCase, open) == if IsVerdict(tag) then inCase && AttrMessage(attrs).None? else open;
        CasesAllReport(x.children, SuiteInside(x, suite), tag == "testcase" || inCase, WaitingInside(x, inCase, open));
      }
    }
  }

  lemma Behead<T>(a: seq<T>, b: seq<T>)
    requires a != []
    ensures (a + b)[0] == a[0] && (a + b)[1..] == a[1..] + b
  {
  }

  lemma {:induction false} ReportsConcat(a: seq<TestCaseResult>, x: seq<Xml>, s: seq<Setting>, b: seq<TestCaseResult>,
                                         y: seq<Xml>, t: seq<Setting>)
    requires ReportsAll(a, x, s) && ReportsAll(b, y, t)
    ensures ReportsAll(a + b, x + y, s + t)
    decreases |a|
  {
    if a == [] {
      assert a + b == b && x + y == y && s + t == t;
    } else {
      ReportsConcat(a[1..], x[1..], s[1..], b, y, t);
      Behead(a, b);
      Behead(x, y);
      Behead(s, t);
    }
  }

  lemma {:induction false} CasesAllReport(xs: seq<Xml>, suite: Option<string>, inCase: bool, open: bool)
    ensures ReportsAll(CasesAll(xs, suite, inCase, open), InnermostAll(xs), SettingsAll(xs, suite, inCase, open))
    decreases xs, 0
  {
    if xs != [] {
      CaseListed(xs[0]);
      if HasCase(xs[0]) {
        CasesReport(xs[0], suite, inCase, open);
        CasesAllReport(xs[1..], suite, false, false);
        ReportsConcat(Cases(xs[0], suite, inCase, open), Innermost(xs[0]), Settings(xs[0], suite, inCase, open),
                      CasesAll(xs[1..], suite, false, false), InnermostAll(xs[1..]),
                      SettingsAll(xs[1..], suite, false, false));
      } else {
        NoInnermost(xs[0]);
        StillOpenIsQuiet(xs[0], open);
        CasesAllReport(xs[1..], suite, inCase, StillOpen(xs[0], open));
        assert InnermostAll(xs) == InnermostAll(xs[1..]);
      }
    }
  }

  /** The parser returns one case for each innermost `testcase` of the listing, in document order, and every
      field of it is read off that element and where it stands. */
  lemma ParsedCasesAreInnermost(doc: seq<Xml>)
    ensures Parse(FlattenAll(doc)).Ok?
    ensures InnermostAll(doc) == Selected(PreorderAll(doc))
    ensures ReportsAll(Parse(FlattenAll(doc)).value, Selected(PreorderAll(doc)), SettingsAll(doc, None, false, false))
  {
    ParserRefinement(doc);
    CasesAllReport(doc, None, false, false);
    InnermostAllIsSelected(doc);
  }

  // ---- Self-closing elements (XML 1.0, section 3.1) ----

  /** Every self-closing element written as a start tag and an end tag. */
  function Expand(x: Xml): Xml
    decreases x, 1
  {
    match x
    case Element(tag, attrs, children) => Element(tag, attrs, ExpandAll(children))
    case SelfClosing(tag, attrs) => Element(tag, attrs, [])
    case _ => x
  }

  function ExpandAll(xs: seq<Xml>): seq<Xml>
    decreases xs, 0
  {
    if xs == [] then [] else [Expand(xs[0])] + ExpandAll(xs[1..])
  }

  function ExpandEvents(events: seq<Event>): seq<Event> {
    if events == [] then []
    else
      (match events[0]
       case Empty(tag, attrs) => [Start(tag, attrs), End(tag)]
       case _ => [events[0]])
      + ExpandEvents(events[1..])
  }

  lemma {:induction false} ExpandEventsConcat(a: seq<Event>, b: seq<Event>)
    ensures ExpandEvents(a + b) == ExpandEvents(a) + ExpandEvents(b)
    decreases |a|
  {
    if a == [] {
      assert a + b == b;
    } else {
      assert (a + b)[1..] == a[1..] + b;
      ExpandEventsConcat(a[1..], b);
    }
  }

  lemma {:induction false} ExpandedEvents(x: Xml)
    ensures Flatten(Expand(x)) == ExpandEvents(Flatten(x))
    decreases x, 1
  {
    match x
    case Element(tag, attrs, children) =>
      ExpandedEventsAll(children);
      ExpandEventsConcat([Start(tag, attrs)] + FlattenAll(children), [End(tag)]);
      ExpandEventsConcat([Start(tag, attrs)], FlattenAll(children));
      assert ExpandEvents([Start(tag, attrs)]) == [Start(tag, attrs)] && ExpandEvents([End(tag)]) == [End(tag)];
    case SelfClosing(tag, attrs) =>
      assert FlattenAll([]) == [] && ExpandEvents([]) == [];
    case _ =>
      assert ExpandEvents([]) == [];
  }

  lemma {:induction false} ExpandedEventsAll(xs: seq<Xml>)
    ensures FlattenAll(ExpandAll(xs)) == ExpandEvents(FlattenAll(xs))
    decreases xs, 0
  {
    if xs != [] {
      ExpandedEvents(xs[0]);
      ExpandedEventsAll(xs[1..]);
      ExpandEventsConcat(Flatten(xs[0]), FlattenAll(xs[1..]));
      assert ExpandAll(xs)[1..] == ExpandAll(xs[1..]);
    }
  }

  /** The first character data of a node, self-closing elements or not. */
  function DataNode(x: Xml): Scan
    decreases x, 1
  {
    match x
    case Element(_, _, children) => DataAll(children)
    case TextNode(body) => Stopped(BodyMessage(body))
    case CDataNode(body) => Stopped(BodyMessage(body))
    case _ => Searching
  }

  function DataAll(xs: seq<Xml>): Scan
    decreases xs, 0
  {
    if xs == [] then Searching
    else if DataNode(xs[0]).Searching? then DataAll(xs[1..])
    else DataNode(xs[0])
  }

  /** The first character data is not blank. */
  predicate Speaks(xs: seq<Xml>) {
    DataAll(xs).Stopped? && DataAll(xs).message.Some?
  }

  /** A self-closing element comes before any character data. */
  predicate EmptyFirst(x: Xml)
    decreases x, 1
  {
    x.SelfClosing? || (x.Element? && EmptyFirstAll(x.children))
  }

  predicate EmptyFirstAll(xs: seq<Xml>)
    decreases xs, 0
  {
    xs != [] && (EmptyFirst(xs[0]) || (DataNode(xs[0]).Searching? && EmptyFirstAll(xs[1..])))
  }

  /** The parser's search is for the first character data, but a self-closing element before it ends it. */
  lemma {:induction false} ScanIsData(x: Xml)
    ensures ScanNode(x) == if EmptyFirst(x) then Stopped(None) else DataNode(x)
    decreases x, 1
  {
    if x.Element? { ScanIsDataAll(x.children); }
  }

  lemma {:induction false} ScanIsDataAll(xs: seq<Xml>)
    ensures ScanAll(xs) == if EmptyFirstAll(xs) then Stopped(None) else DataAll(xs)
    decreases xs, 0
  {
    if xs != [] {
      ScanIsData(xs[0]);
      ScanIsDataAll(xs[1..]);
    }
  }

  /** Where the two spellings give different messages: at an innermost `testcase` whose last verdict waits for
      its body and holds a self-closing element before a first character data that is not blank; or one
      without a verdict that opens inside a waiting verdict and whose own first character data, not blank,
      is behind a self-closing element, inside the case or before it. `open` and `open'` are the capture
      flags of the two spellings. */
  predicate Differ(x: Xml, inCase: bool, open: bool, open': bool)
    decreases x, 1
  {
    x.Element? &&
    (if x.tag == "testcase" && !AnyCase(x.children) then
       match LastVerdictAll(x.children)
       case Some(v) => v.Element? && AttrMessage(v.attrs).None? && EmptyFirstAll(v.children) && Speaks(v.children)
       case None => open' && Speaks(x.children) && (!open || EmptyFirstAll(x.children))
     else
       var waits := inCase && AttrMessage(x.attrs).None?;
       DifferAll(x.children, x.tag == "testcase" || inCase,
                 if IsVerdict(x.tag) then waits else open, if IsVerdict(x.tag) then waits else open'))
  }

  predicate DifferAll(xs: seq<Xml>, inCase: bool, open: bool, open': bool)
    decreases xs, 0
  {
    xs != [] &&
    if HasCase(xs[0]) then Differ(xs[0], inCase, open, open') || DifferAll(xs[1..], false, false, false)
    else
      var quiet := LastVerdict(xs[0]).None? && DataNode(xs[0]).Searching?;
      DifferAll(xs[1..], inCase, open && quiet && !EmptyFirst(xs[0]), open' && quiet)
  }

  function ExpandedOpt(v: Option<Xml>): Option<Xml> {
    match v
    case None => None
    case Some(x) => Some(Expand(x))
  }

  /** What becomes of a node when self-closing elements are written out. */
  lemma {:induction false} ExpandKeeps(x: Xml)
    ensures HasCase(Expand(x)) == HasCase(x)
    ensures LastVerdict(Expand(x)) == ExpandedOpt(LastVerdict(x))
    ensures ScanNode(Expand(x)) == DataNode(x)
    decreases x, 1
  {
    if x.Element? { ExpandKeepsAll(x.children); }
  }

  lemma {:induction false} ExpandKeepsAll(xs: seq<Xml>)
    ensures AnyCase(ExpandAll(xs)) == AnyCase(xs)
    ensures LastVerdictAll(ExpandAll(xs)) == ExpandedOpt(LastVerdictAll(xs))
    ensures ScanAll(ExpandAll(xs)) == DataAll(xs)
    decreases xs, 0
  {
    if xs != [] {
      ExpandKeeps(xs[0]);
      ExpandKeepsAll(xs[1..]);
      assert ExpandAll(xs)[1..] == ExpandAll(xs[1..]);
    }
  }

  lemma ExpandedVerdict(v: Xml)
    requires v.Element? || v.SelfClosing?
    ensures VerdictTag(Expand(v)) == VerdictTag(v)
    ensures VerdictMessage(Expand(v)) == VerdictMessage(v) <==>
            !(v.Element? && AttrMessage(v.attrs).None? && EmptyFirstAll(v.children) && Speaks(v.children))
  {
    if v.Element? {
      ScanIsDataAll(v.children);
      ExpandKeepsAll(v.children);
    }
  }

  lemma ExpandedLeaf(attrs: seq<Attribute>, children: seq<Xml>, suite: Option<string>, inCase: bool, open: bool,
                     open': bool)
    requires !AnyCase(children) && (open ==> open')
    ensures CaseOf(attrs, ExpandAll(children), suite, open') == CaseOf(attrs, children, suite, open) <==>
            !Differ(Element("testcase", attrs, children), inCase, open, open')
  {
    ExpandKeepsAll(children);
    ScanIsDataAll(children);
    if LastVerdictAll(children).Some? {
      VerdictIsVerdict(children);
      ExpandedVerdict(LastVerdictAll(children).value);
    }
  }

  lemma {:induction false} ExpandedCases(x: Xml, suite: Option<string>, inCase: bool, open: bool, open': bool)
    requires open ==> open'
    ensures |Cases(Expand(x), suite, inCase, open')| == |Cases(x, suite, inCase, open)|
    ensures Cases(Expand(x), suite, inCase, open') == Cases(x, suite, inCase, open) <==>
            !Differ(x, inCase, open, open')
    decreases x, 1
  {
    if x.Element? {
      var tag, attrs, children := x.tag, x.attrs, x.children;
      ExpandKeepsAll(children);
      if tag == "testcase" && !AnyCase(children) {
        ExpandedLeaf(attrs, children, suite, inCase, open, open');
        var a, b := CaseOf(attrs, ExpandAll(children), suite, open'), CaseOf(attrs, children, suite, open);
        assert [a] == [b] <==> [a][0] == [b][0];
      } else {
        var waits := inCase && AttrMessage(attrs).None?;
        ExpandedCasesAll(children, if tag == "testsuite" then Some(SuiteName(attrs)) else suite,
                         tag == "testcase" || inCase,
                         if IsVerdict(tag) then waits else open, if IsVerdict(tag) then waits else open');
      }
    }
  }

  lemma SameParts<T>(a: seq<T>, b: seq<T>, c: seq<T>, d: seq<T>)
    requires |a| == |c|
    ensures a + b == c + d <==> a == c && b == d
  {
    if a + b == c + d {
      assert a == (a + b)[..|a|] && c == (c + d)[..|a|];
      assert b == (a + b)[|a|..] && d == (c + d)[|a|..];
    }
  }

  lemma {:induction false} ExpandedCasesAll(xs: seq<Xml>, suite: Option<string>, inCase: bool, open: bool, open': bool)
    requires open ==> open'
    ensures |CasesAll(ExpandAll(xs), suite, inCase, open')| == |CasesAll(xs, suite, inCase, open)|
    ensures CasesAll(ExpandAll(xs), suite, inCase, open') == CasesAll(xs, suite, inCase, open) <==>
            !DifferAll(xs, inCase, open, open')
    decreases xs, 0
  {
    if xs != [] {
      ExpandKeeps(xs[0]);
      ScanIsData(xs[0]);
      assert ExpandAll(xs)[1..] == ExpandAll(xs[1..]);
      if HasCase(xs[0]) {
        ExpandedCases(xs[0], suite, inCase, open, open');
        ExpandedCasesAll(xs[1..], suite, false, false, false);
        SameParts(Cases(Expand(xs[0]), suite, inCase, open'), CasesAll(ExpandAll(xs[1..]), suite, false, false),
                  Cases(xs[0], suite, inCase, open), CasesAll(xs[1..], suite, false, false));
      } else {
        ExpandedCasesAll(xs[1..], suite, inCase, StillOpen(xs[0], open), StillOpen(Expand(xs[0]), open'));
      }
    }
  }

  /** The branch for self-closing elements agrees with the general one exactly when no message is behind a
      self-closing element: on every other report, writing each `Empty` event as a start and an end changes a
      case. */
  lemma EmptyIsStartEndIff(doc: seq<Xml>)
    ensures Parse(ExpandEvents(FlattenAll(doc))) == Parse(FlattenAll(doc)) <==> !DifferAll(doc, false, false, false)
  {
    ExpandedEventsAll(doc);
    ExpandedCasesAll(doc, None, false, false, false);
    ParserRefinement(doc);
    ParserRefinement(ExpandAll(doc));
  }

  // ---- Reports as the runners write them ----

  predicate CharacterData(xs: seq<Xml>) {
    forall i :: 0 <= i < |xs| ==> !xs[i].Element? && !xs[i].SelfClosing?
  }

  /** Verdict elements hold character data only. */
  predicate FlatVerdicts(x: Xml)
    decreases x, 1
  {
    x.Element? ==> (IsVerdict(x.tag) ==> CharacterData(x.children)) && FlatVerdictsAll(x.children)
  }

  predicate FlatVerdictsAll(xs: seq<Xml>)
    decreases xs, 0
  {
    xs == [] || (FlatVerdicts(xs[0]) && FlatVerdictsAll(xs[1..]))
  }

  lemma {:induction false} OfCharacterData(xs: seq<Xml>)
    requires CharacterData(xs)
    ensures !AnyCase(xs) && !EmptyFirstAll(xs)
    decreases |xs|
  {
    if xs != [] { OfCharacterData(xs[1..]); }
  }

  lemma {:induction false} LastIsFlat(x: Xml)
    requires FlatVerdicts(x) && LastVerdict(x).Some?
    ensures var v := LastVerdict(x).value; v.Element? ==> CharacterData(v.children)
    decreases x, 1
  {
    if x.Element? && LastVerdictAll(x.children).Some? { LastIsFlatAll(x.children); }
  }

  lemma {:induction false} LastIsFlatAll(xs: seq<Xml>)
    requires FlatVerdictsAll(xs) && LastVerdictAll(xs).Some?
    ensures var v := LastVerdictAll(xs).value; v.Element? ==> CharacterData(v.children)
    decreases xs, 0
  {
    if LastVerdictAll(xs[1..]).Some? { LastIsFlatAll(xs[1..]); } else { LastIsFlat(xs[0]); }
  }

  lemma {:induction false} FlatNeverDiffer(x: Xml, inCase: bool)
    requires FlatVerdicts(x) && HasCase(x)
    ensures !Differ(x, inCase, false, false)
    decreases x, 1
  {
    if x.Element? {
      if IsVerdict(x.tag) { OfCharacterData(x.children); }
      if x.tag == "testcase" && !AnyCase(x.children) {
        if LastVerdictAll(x.children).Some? {
          LastIsFlatAll(x.children);
          var v := LastVerdictAll(x.children).value;
          if v.Element? { OfCharacterData(v.children); }
        }
      } else {
        FlatNeverDifferAll(x.children, x.tag == "testcase" || inCase);
      }
    }
  }

  lemma {:induction false} FlatNeverDifferAll(xs: seq<Xml>, inCase: bool)
    requires FlatVerdictsAll(xs)
    ensures !DifferAll(xs, inCase, false, false)
    decreases xs, 0
  {
    if xs != [] {
      if HasCase(xs[0]) {
        FlatNeverDiffer(xs[0], inCase);
        FlatNeverDifferAll(xs[1..], false);
      } else {
        FlatNeverDifferAll(xs[1..], inCase);
      }
    }
  }

  /** So it does on every report whose verdict elements hold only character data. */
  lemma EmptyIsStartEnd(doc: seq<Xml>)
    requires FlatVerdictsAll(doc)
    ensures Parse(ExpandEvents(FlattenAll(doc))) == Parse(FlattenAll(doc))
  {
    FlatNeverDifferAll(doc, false);
    EmptyIsStartEndIff(doc);
  }

  /** A report on which the two spellings differ: a self-closing element before the text of a verdict. */
  lemma EmptyInVerdictDiffers()
    ensures var br := SelfClosing("br", []);
            var doc := [Element("testcase", [], [Element("failure", [], [br, TextNode("x")])])];
            && ReportCases(doc) == [NewCase([], None).(outcome := TestOutcome.Failed)]
            && ReportCases(ExpandAll(doc))
               == [NewCase([], None).(outcome := TestOutcome.Failed, message := Some("x"))]
  {
    var br, x := SelfClosing("br", []), TextNode("x");
    var failure := Element("failure", [], [br, x]);
    var whole := Element("testcase", [], [failure]);
    assert AttrMessage([]) == None && Trim("x") == "x";
    OfTwo(br, x);
    OfOne(failure);
    assert CasesAll([whole], None, false, false) == Cases(whole, None, false, false) + [];

    var br', failure' := Element("br", [], []), Element("failure", [], [Element("br", [], []), x]);
    var whole' := Element("testcase", [], [failure']);
    ExpandOne(x);
    ExpandOne(failure);
    ExpandOne(whole);
    assert [br, x][1..] == [x] && ExpandAll([br, x]) == [Expand(br)] + ExpandAll([x]);
    assert ExpandAll([br, x]) == [br', x] && Expand(failure) == failure' && Expand(whole) == whole';
    OfTwo(br', x);
    OfOne(failure');
    assert CasesAll([whole'], None, false, false) == Cases(whole', None, false, false) + [];
  }

  lemma ExpandOne(a: Xml)
    ensures ExpandAll([a]) == [Expand(a)]
  {
    assert [a][1..] == [] && ExpandAll([]) == [];
  }

  lemma OfOne(a: Xml)
    ensures AnyCase([a]) == HasCase(a) && LastVerdictAll([a]) == LastVerdict(a) && ScanAll([a]) == ScanNode(a)
  {
    assert [a][1..] == [];
  }

  lemma OfTwo(a: Xml, b: Xml)
    ensures AnyCase([a, b]) == (HasCase(a) || HasCase(b))
    ensures LastVerdictAll([a, b]) == OrElse(LastVerdict(b), LastVerdict(a))
    ensures ScanAll([a, b]) == if ScanNode(a).Searching? then ScanNode(b) else ScanNode(a)
  {
    assert [a, b][1..] == [b];
    OfOne(b);
  }
}
