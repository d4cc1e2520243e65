/** The meaning of a JUnit report as a tree, and the proof that the event loop computes it. */
module JunitTrees {
  import opened Wrappers
  import opened Grading
  import opened Junit

  datatype Xml =
    | Element(tag: string, attrs: seq<Attribute>, children: seq<Xml>)
    | SelfClosing(tag: string, attrs: seq<Attribute>)
    | TextNode(body: string)
    | CDataNode(body: string)
    | OtherNode

  function Flatten(x: Xml): seq<Event>
    decreases x, 1
  {
    match x
    case Element(tag, attrs, children) => [Start(tag, attrs)] + FlattenAll(children) + [End(tag)]
    case SelfClosing(tag, attrs) => [Empty(tag, attrs)]
    case TextNode(body) => [Text(body)]
    case CDataNode(body) => [CData(body)]
    case OtherNode => [Other]
  }

  function FlattenAll(xs: seq<Xml>): seq<Event>
    decreases xs, 0
  {
    if xs == [] then [] else Flatten(xs[0]) + FlattenAll(xs[1..])
  }

  // ---- What a report says ----

  predicate HasCase(x: Xml)
    decreases x, 1
  {
    match x
    case Element(tag, _, children) => tag == "testcase" || AnyCase(children)
    case SelfClosing(tag, _) => tag == "testcase"
    case _ => false
  }

  predicate AnyCase(xs: seq<Xml>)
    decreases xs, 0
  {
    xs != [] && (HasCase(xs[0]) || AnyCase(xs[1..]))
  }

  /** The verdict element that opens last. */
  function LastVerdict(x: Xml): Option<Xml>
    decreases x, 1
  {
    match x
    case Element(tag, _, children) =>
      OrElse(LastVerdictAll(children), if IsVerdict(tag) then Some(x) else None)
    case SelfClosing(tag, _) => if IsVerdict(tag) then Some(x) else None
    case _ => None
  }

  function LastVerdictAll(xs: seq<Xml>): Option<Xml>
    decreases xs, 0
  {
    if xs == [] then None else OrElse(LastVerdictAll(xs[1..]), LastVerdict(xs[0]))
  }

  /** A search for the first character data, which a self-closing element ends without a find. */
  datatype Scan = Searching | Stopped(message: Option<string>)

  function ScanNode(x: Xml): Scan
    decreases x, 1
  {
    match x
    case Element(_, _, children) => ScanAll(children)
    case SelfClosing(_, _) => Stopped(None)
    case TextNode(body) => Stopped(BodyMessage(body))
    case CDataNode(body) => Stopped(BodyMessage(body))
    case OtherNode => Searching
  }

  function ScanAll(xs: seq<Xml>): Scan
    decreases xs, 0
  {
    if xs == [] then Searching
    else if ScanNode(xs[0]).Searching? then ScanAll(xs[1..])
    else ScanNode(xs[0])
  }

  function FirstText(xs: seq<Xml>): Option<string> {
    match ScanAll(xs)
    case Searching => None
    case Stopped(message) => message
  }

  function VerdictTag(v: Xml): string {
    if v.Element? || v.SelfClosing? then v.tag else ""
  }

  /** `message`, failing that `type`, failing that the first character data of the element. */
  function VerdictMessage(v: Xml): Option<string> {
    match v
    case Element(_, attrs, children) => OrElse(AttrMessage(attrs), FirstText(children))
    case SelfClosing(_, attrs) => AttrMessage(attrs)
    case _ => None
  }

  /** A `testcase` element without `testcase` elements inside. `open` says that it begins inside a
      verdict element of an enclosing case that is still waiting for a message. */
  function CaseOf(attrs: seq<Attribute>, children: seq<Xml>, suite: Option<string>, open: bool): TestCaseResult {
    var c := NewCase(attrs, suite);
    match LastVerdictAll(children)
    case None => c.(message := if open then FirstText(children) else None)
    case Some(v) => c.(outcome := OutcomeOf(VerdictTag(v)), message := VerdictMessage(v))
  }

  predicate StillOpen(x: Xml, open: bool) {
    open && LastVerdict(x).None? && ScanNode(x).Searching?
  }

  /** The cases of a node in document order: the innermost `testcase` elements. `suite` is the name of
      the innermost enclosing `testsuite`, `inCase` says that an enclosing `testcase` has had no inner
      one yet. */
  function Cases(x: Xml, suite: Option<string>, inCase: bool, open: bool): seq<TestCaseResult>
    decreases x, 1
  {
    match x
    case Element(tag, attrs, children) =>
      if tag == "testcase" then
        if AnyCase(children) then CasesAll(children, suite, true, open)
        else [CaseOf(attrs, children, suite, open)]
      else if tag == "testsuite" then CasesAll(children, Some(SuiteName(attrs)), inCase, open)
      else if IsVerdict(tag) then CasesAll(children, suite, inCase, inCase && AttrMessage(attrs).None?)
      else CasesAll(children, suite, inCase, open)
    case SelfClosing(tag, attrs) => if tag == "testcase" then [NewCase(attrs, suite)] else []
    case _ => []
  }

  function CasesAll(xs: seq<Xml>, suite: Option<string>, inCase: bool, open: bool): seq<TestCaseResult>
    decreases xs, 0
  {
    if xs == [] then []
    else if HasCase(xs[0]) then Cases(xs[0], suite, inCase, open) + CasesAll(xs[1..], suite, false, false)
    else CasesAll(xs[1..], suite, inCase, StillOpen(xs[0], open))
  }

  function ReportCases(doc: seq<Xml>): seq<TestCaseResult> {
    CasesAll(doc, None, false, false)
  }

  // ---- The event loop computes it ----

  /** The state after content without a `testcase`. */
  function Quiet(st: State, v: Option<Xml>, scan: Scan): State {
    if st.current.None? then st
    else
      var c := st.current.value;
      match v
      case None =>
        var heard := st.capturing && scan.Stopped? && scan.message.Some?;
        st.(current := Some(if heard then c.(message := scan.message) else c),
            capturing := st.capturing && scan.Searching?)
      case Some(x) =>
        st.(current := Some(c.(outcome := OutcomeOf(VerdictTag(x)), message := VerdictMessage(x))),
            capturing := false)
  }

  function After(st: State, x: Xml): State {
    if HasCase(x) then
      State(st.cases + Cases(x, Last(st.suites), st.current.Some?, st.capturing), st.suites, None, false)
    else Quiet(st, LastVerdict(x), ScanNode(x))
  }

  function AfterAll(st: State, xs: seq<Xml>): State {
    if AnyCase(xs) then
      State(st.cases + CasesAll(xs, Last(st.suites), st.current.Some?, st.capturing), st.suites, None, false)
    else Quiet(st, LastVerdictAll(xs), ScanAll(xs))
  }

  /** A capture window belongs to an open case that has no message yet. */
  ghost predicate Sound(st: State) {
    st.capturing ==> st.current.Some? && st.current.value.message.None?
  }

  lemma {:induction false} NoCases(xs: seq<Xml>, suite: Option<string>, inCase: bool, open: bool)
    requires !AnyCase(xs)
    ensures CasesAll(xs, suite, inCase, open) == []
    decreases |xs|
  {
    if xs != [] { NoCases(xs[1..], suite, inCase, StillOpen(xs[0], open)); }
  }

  lemma QuietCons(st: State, xs: seq<Xml>)
    requires xs != [] && Sound(st) && !AnyCase(xs)
    ensures Quiet(Quiet(st, LastVerdict(xs[0]), ScanNode(xs[0])), LastVerdictAll(xs[1..]), ScanAll(xs[1..]))
            == Quiet(st, LastVerdictAll(xs), ScanAll(xs))
  {
  }

  lemma CasesCons(st: State, xs: seq<Xml>)
    requires xs != [] && Sound(st) && AnyCase(xs)
    ensures AfterAll(After(st, xs[0]), xs[1..]) == AfterAll(st, xs)
  {
    if !HasCase(xs[0]) {
      assert AnyCase(xs[1..]);
    } else if AnyCase(xs[1..]) {
      var a := Cases(xs[0], Last(st.suites), st.current.Some?, st.capturing);
      var b := CasesAll(xs[1..], Last(st.suites), false, false);
      assert st.cases + (a + b) == (st.cases + a) + b;
    } else {
      NoCases(xs[1..], Last(st.suites), false, false);
      assert CasesAll(xs, Last(st.suites), st.current.Some?, st.capturing)
             == Cases(xs[0], Last(st.suites), st.current.Some?, st.capturing) + [];
    }
  }

  lemma AfterCons(st: State, xs: seq<Xml>)
    requires xs != [] && Sound(st)
    ensures AfterAll(After(st, xs[0]), xs[1..]) == AfterAll(st, xs)
  {
    if AnyCase(xs) { CasesCons(st, xs); } else { QuietCons(st, xs); }
  }

  lemma RunOne(st: State, e: Event)
    ensures Run(st, [e]) == Step(st, e)
  {
    assert [e][1..] == [];
  }

  lemma RunElement(st: State, x: Xml)
    requires x.Element?
    ensures Run(st, Flatten(x)) == Step(Run(Step(st, Start(x.tag, x.attrs)), FlattenAll(x.children)), End(x.tag))
  {
    var first, last := Start(x.tag, x.attrs), End(x.tag);
    assert Flatten(x) == [first] + (FlattenAll(x.children) + [last]);
    RunConcat(st, [first], FlattenAll(x.children) + [last]);
    RunOne(st, first);
    RunConcat(Step(st, first), FlattenAll(x.children), [last]);
    RunOne(Run(Step(st, first), FlattenAll(x.children)), last);
  }

  lemma RunLeaf(st: State, x: Xml)
    requires Sound(st) && !x.Element?
    ensures Run(st, Flatten(x)) == After(st, x) && Sound(After(st, x))
  {
    RunOne(st, Flatten(x)[0]);
  }

  lemma {:induction false} RunNode(st: State, x: Xml)
    requires Sound(st)
    ensures Run(st, Flatten(x)) == After(st, x) && Sound(After(st, x))
    decreases x, 1
  {
    if x.Element? {
      RunElement(st, x);
      RunForest(Step(st, Start(x.tag, x.attrs)), x.children);
      ElementDone(st, x.tag, x.attrs, x.children);
    } else {
      RunLeaf(st, x);
    }
  }

  lemma CaseDone(st: State, attrs: seq<Attribute>, children: seq<Xml>)
    requires Sound(st)
    ensures Step(AfterAll(Step(st, Start("testcase", attrs)), children), End("testcase"))
            == After(st, Element("testcase", attrs, children))
  {
    var inner := Step(st, Start("testcase", attrs));
    if AnyCase(children) {
      assert AfterAll(inner, children).current.None?;
    } else {
      assert Quiet(inner, LastVerdictAll(children), ScanAll(children)).current
             == Some(CaseOf(attrs, children, Last(st.suites), st.capturing));
    }
  }

  lemma SuiteDone(st: State, attrs: seq<Attribute>, children: seq<Xml>)
    requires Sound(st)
    ensures Step(AfterAll(Step(st, Start("testsuite", attrs)), children), End("testsuite"))
            == After(st, Element("testsuite", attrs, children))
  {
    var inner := Step(st, Start("testsuite", attrs));
    assert Pop(inner.suites) == st.suites && Last(inner.suites) == Some(SuiteName(attrs));
  }

  lemma VerdictDone(st: State, tag: string, attrs: seq<Attribute>, children: seq<Xml>)
    requires Sound(st) && IsVerdict(tag)
    ensures Step(AfterAll(Step(st, Start(tag, attrs)), children), End(tag)) == After(st, Element(tag, attrs, children))
  {
  }

  lemma ElementDone(st: State, tag: string, attrs: seq<Attribute>, children: seq<Xml>)
    requires Sound(st)
    ensures Step(AfterAll(Step(st, Start(tag, attrs)), children), End(tag)) == After(st, Element(tag, attrs, children))
    ensures Sound(After(st, Element(tag, attrs, children)))
  {
    if tag == "testcase" {
      CaseDone(st, attrs, children);
    } else if tag == "testsuite" {
      SuiteDone(st, attrs, children);
    } else if IsVerdict(tag) {
      VerdictDone(st, tag, attrs, children);
    }
  }

  lemma {:induction false} RunForest(st: State, xs: seq<Xml>)
    requires Sound(st)
    ensures Run(st, FlattenAll(xs)) == AfterAll(st, xs) && Sound(AfterAll(st, xs))
    decreases xs, 0
  {
    if xs != [] {
      RunConcat(st, Flatten(xs[0]), FlattenAll(xs[1..]));
      RunNode(st, xs[0]);
      RunForest(After(st, xs[0]), xs[1..]);
      AfterCons(st, xs);
    }
  }

  lemma {:induction false} WellRead(x: Xml)
    ensures Malformed !in Flatten(x)
    decreases x, 1
  {
    if x.Element? { AllWellRead(x.children); }
  }

  lemma {:induction false} AllWellRead(xs: seq<Xml>)
    ensures Malformed !in FlattenAll(xs)
    decreases xs, 0
  {
    if xs != [] { WellRead(xs[0]); AllWellRead(xs[1..]); }
  }

  /** Parsing the events of any report gives the cases of its tree. */
  lemma ParserRefinement(doc: seq<Xml>)
    ensures Parse(FlattenAll(doc)) == Ok(ReportCases(doc))
  {
    AllWellRead(doc);
    RunForest(INITIAL, doc);
    assert [] + ReportCases(doc) == ReportCases(doc);
    if !AnyCase(doc) { NoCases(doc, None, false, false); }
  }
}
