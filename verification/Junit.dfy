/** crates/grader_lib/src/junit.rs: the streaming parser over decoded XML events. */
module Junit {
  import opened Wrappers
  import opened Grading

  const MAX_MESSAGE_CHARS: nat := 1000
  const MAX_MILLIS: nat := 0xFFFF_FFFF_FFFF_FFFF

  /** An attribute by its local name. `value` is `None` when the entities in it cannot be decoded, and
      `seconds` is the value read as a number, when it is one. */
  datatype Attribute = Attribute(key: string, value: Option<string>, seconds: Option<real>)

  datatype Event =
    | Start(tag: string, attrs: seq<Attribute>)
    | Empty(tag: string, attrs: seq<Attribute>)
    | Text(body: string)
    | CData(body: string)
    | End(tag: string)
    | Other
    | Malformed

  predicate IsVerdict(tag: string) {
    tag == "failure" || tag == "error" || tag == "skipped"
  }

  // ---- Expressions ----

  /** The first attribute of that name, if its value decodes. */
  function Find(attrs: seq<Attribute>, key: string): Option<Attribute> {
    if attrs == [] then None
    else if attrs[0].key == key then (if attrs[0].value.Some? then Some(attrs[0]) else None)
    else Find(attrs[1..], key)
  }

  /** An attribute is the first of its name, and nothing when that one does not decode. */
  lemma {:induction false} FindIsFirst(attrs: seq<Attribute>, key: string, i: nat)
    requires i < |attrs| && attrs[i].key == key && forall j :: 0 <= j < i ==> attrs[j].key != key
    ensures Find(attrs, key) == if attrs[i].value.Some? then Some(attrs[i]) else None
    ensures Attr(attrs, key) == attrs[i].value
    decreases |attrs|
  {
    if i > 0 { FindIsFirst(attrs[1..], key, i - 1); }
  }

  lemma {:induction false} FindIsAbsent(attrs: seq<Attribute>, key: string)
    requires forall j :: 0 <= j < |attrs| ==> attrs[j].key != key
    ensures Find(attrs, key) == None && Attr(attrs, key) == None
    decreases |attrs|
  {
    if attrs != [] { FindIsAbsent(attrs[1..], key); }
  }

  function Attr(attrs: seq<Attribute>, key: string): Option<string> {
    match Find(attrs, key)
    case None => None
    case Some(a) => a.value
  }

  function NonEmpty(s: Option<string>): Option<string> {
    if s == Some("") then None else s
  }

  function OrElse<T>(a: Option<T>, b: Option<T>): Option<T> {
    if a.Some? then a else b
  }

  /** Seconds to whole milliseconds: half away from zero, then the saturating cast to u64. */
  function Millis(seconds: real): nat {
    if seconds < 0.0 then 0
    else
      var ms := (seconds * 1000.0 + 0.5).Floor;
      if ms > MAX_MILLIS then MAX_MILLIS else ms
  }

  /** The nearest whole number of milliseconds, ties upward, inside the range of u64. */
  lemma MillisIsNearest(seconds: real)
    ensures seconds <= 0.0 ==> Millis(seconds) == 0
    ensures seconds >= 0.0 && seconds * 1000.0 < 18446744073709551615.0 ==>
              -0.5 < Millis(seconds) as real - seconds * 1000.0 <= 0.5
    ensures seconds * 1000.0 >= 18446744073709551615.0 ==> Millis(seconds) == 18446744073709551615
  {
  }

  function DurationMs(attrs: seq<Attribute>): nat {
    match Find(attrs, "time")
    case None => 0
    case Some(a) => if a.seconds.Some? then Millis(a.seconds.value) else 0
  }

  function Truncate(s: string): (r: string)
    ensures |s| <= 1000 ==> r == s
    ensures |s| > 1000 ==> |r| == 1001 && r[..1000] <= s && r[1000] == '\U{2026}'
  {
    if |s| <= MAX_MESSAGE_CHARS then s else s[..MAX_MESSAGE_CHARS] + ['\U{2026}']
  }

  /** The characters of the Unicode property White_Space. */
  predicate IsSpace(c: char) {
    '\U{9}' <= c <= '\U{D}' || c == ' ' || c == '\U{85}' || c == '\U{A0}' || c == '\U{1680}'
    || '\U{2000}' <= c <= '\U{200A}' || c == '\U{2028}' || c == '\U{2029}' || c == '\U{202F}'
    || c == '\U{205F}' || c == '\U{3000}'
  }

  /** White space by code point. */
  lemma SpaceIs(c: char)
    ensures IsSpace(c) <==>
            c as int in {9, 10, 11, 12, 13, 32, 133, 160, 5760, 8192, 8193, 8194, 8195, 8196, 8197, 8198, 8199, 8200,
                         8201, 8202, 8232, 8233, 8239, 8287, 12288}
  {
  }

  function TrimStart(s: string): string {
    if s != [] && IsSpace(s[0]) then TrimStart(s[1..]) else s
  }

  function TrimEnd(s: string): string {
    if s != [] && IsSpace(s[|s| - 1]) then TrimEnd(s[..|s| - 1]) else s
  }

  function Trim(s: string): string {
    TrimEnd(TrimStart(s))
  }

  predicate AllSpace(s: string) {
    forall i :: 0 <= i < |s| ==> IsSpace(s[i])
  }

  lemma {:induction false} TrimStartIs(s: string) returns (a: string)
    ensures s == a + TrimStart(s) && AllSpace(a)
    ensures TrimStart(s) != "" ==> !IsSpace(TrimStart(s)[0])
    decreases |s|
  {
    a := "";
    if s != [] && IsSpace(s[0]) {
      var b := TrimStartIs(s[1..]);
      a := [s[0]] + b;
    }
  }

  lemma {:induction false} TrimEndIs(s: string) returns (b: string)
    ensures s == TrimEnd(s) + b && AllSpace(b)
    ensures TrimEnd(s) != "" ==> !IsSpace(TrimEnd(s)[|TrimEnd(s)| - 1])
    decreases |s|
  {
    b := "";
    if s != [] && IsSpace(s[|s| - 1]) {
      var c := TrimEndIs(s[..|s| - 1]);
      b := c + [s[|s| - 1]];
    }
  }

  /** Trimming takes white space off both ends and stops at the first other character. */
  lemma TrimIs(s: string) returns (a: string, b: string)
    ensures s == a + Trim(s) + b && AllSpace(a) && AllSpace(b)
    ensures Trim(s) != "" ==> !IsSpace(Trim(s)[0]) && !IsSpace(Trim(s)[|Trim(s)| - 1])
  {
    a := TrimStartIs(s);
    b := TrimEndIs(TrimStart(s));
  }

  /** What a text or CDATA body contributes as a message. */
  function BodyMessage(body: string): Option<string> {
    if Trim(body) == "" then None else Some(Truncate(Trim(body)))
  }

  /** What the attributes of a verdict element contribute: `message`, and failing that `type`. */
  function AttrMessage(attrs: seq<Attribute>): Option<string> {
    match OrElse(Attr(attrs, "message"), Attr(attrs, "type"))
    case None => None
    case Some(m) => Some(Truncate(m))
  }

  function OutcomeOf(tag: string): TestOutcome {
    if tag == "failure" then TestOutcome.Failed
    else if tag == "error" then Errored
    else Skipped
  }

  function SuiteName(attrs: seq<Attribute>): string {
    match Attr(attrs, "name")
    case None => ""
    case Some(n) => n
  }

  /** A case as its opening tag gives it, inside the suites `stack`. */
  function NewCase(attrs: seq<Attribute>, suite: Option<string>): TestCaseResult {
    TestCaseResult(
      (match Attr(attrs, "name") case None => "<unnamed>" case Some(n) => n),
      OrElse(NonEmpty(Attr(attrs, "classname")), NonEmpty(suite)),
      TestOutcome.Passed,
      DurationMs(attrs),
      None)
  }

  function Last(stack: seq<string>): Option<string> {
    if stack == [] then None else Some(stack[|stack| - 1])
  }

  function Pop(stack: seq<string>): seq<string> {
    if stack == [] then [] else stack[..|stack| - 1]
  }

  // ---- The four variables of the loop ----

  datatype State = State(
    cases: seq<TestCaseResult>,
    suites: seq<string>,
    current: Option<TestCaseResult>,
    capturing: bool)

  const INITIAL := State([], [], None, false)

  function Opened(st: State, tag: string, attrs: seq<Attribute>): State {
    if tag == "testsuite" then st.(suites := st.suites + [SuiteName(attrs)])
    else if tag == "testcase" then st.(current := Some(NewCase(attrs, Last(st.suites))))
    else if IsVerdict(tag) && st.current.Some? then
      var message := AttrMessage(attrs);
      st.(current := Some(st.current.value.(outcome := OutcomeOf(tag), message := message)),
          capturing := message.None?)
    else st
  }

  function Finished(st: State): State {
    if st.current.Some? then st.(cases := st.cases + [st.current.value], current := None) else st
  }

  function WithBody(st: State, body: string): State {
    if st.current.Some? && BodyMessage(body).Some? then
      st.(current := Some(st.current.value.(message := BodyMessage(body))), capturing := false)
    else st.(capturing := false)
  }

  function Closed(st: State, tag: string): State {
    if tag == "testcase" then Finished(st.(capturing := false))
    else if tag == "testsuite" then st.(suites := Pop(st.suites))
    else if IsVerdict(tag) then st.(capturing := false)
    else st
  }

  function Step(st: State, e: Event): State {
    match e
    case Start(tag, attrs) => Opened(st, tag, attrs)
    case Empty(tag, attrs) =>
      var o := Opened(st, tag, attrs).(capturing := false);
      if tag == "testcase" then Finished(o)
      else if tag == "testsuite" then o.(suites := Pop(o.suites))
      else o
    case Text(body) => if st.capturing then WithBody(st, body) else st
    case CData(body) => if st.capturing then WithBody(st, body) else st
    case End(tag) => Closed(st, tag)
    case Other => st
    case Malformed => st
  }

  function Run(st: State, events: seq<Event>): State
    decreases |events|
  {
    if events == [] then st else Run(Step(st, events[0]), events[1..])
  }

  /** The parser as a function of the stream: an error if the reader meets one, else the cases. */
  function Parse(events: seq<Event>): Result<seq<TestCaseResult>, ()> {
    if Malformed in events then Err(()) else Ok(Run(INITIAL, events).cases)
  }

  lemma {:induction false} RunConcat(st: State, a: seq<Event>, b: seq<Event>)
    ensures Run(st, a + b) == Run(Run(st, a), b)
    decreases |a|
  {
    if a == [] {
      assert a + b == b;
    } else {
      assert (a + b)[1..] == a[1..] + b;
      RunConcat(Step(st, a[0]), a[1..], b);
    }
  }

  lemma RunSnoc(st: State, events: seq<Event>, i: nat)
    requires i < |events|
    ensures Run(st, events[..i + 1]) == Step(Run(st, events[..i]), events[i])
  {
    assert events[..i + 1] == events[..i] + [events[i]];
    RunConcat(st, events[..i], [events[i]]);
  }

  // ---- The loop ----

  method OpenElement(tag: string, attrs: seq<Attribute>, suites: seq<string>, current: Option<TestCaseResult>,
                     capturing: bool)
    returns (suites': seq<string>, current': Option<TestCaseResult>, capturing': bool)
    ensures forall cases :: Opened(State(cases, suites, current, capturing), tag, attrs) ==
                            State(cases, suites', current', capturing')
  {
    suites', current', capturing' := suites, current, capturing;
    if tag == "testsuite" {
      suites' := suites + [SuiteName(attrs)];
    } else if tag == "testcase" {
      current' := Some(NewCase(attrs, Last(suites)));
    } else if IsVerdict(tag) {
      if current.Some? {
        var case_ := current.value.(outcome := OutcomeOf(tag), message := AttrMessage(attrs));
        current', capturing' := Some(case_), case_.message.None?;
      }
    }
  }

  method SetMessage(current: Option<TestCaseResult>, body: string)
    returns (current': Option<TestCaseResult>, capturing': bool)
    ensures forall st: State :: st.current == current ==>
                                  WithBody(st, body) == st.(current := current', capturing := capturing')
  {
    current', capturing' := current, false;
    if current.Some? && Trim(body) != "" {
      current' := Some(current.value.(message := Some(Truncate(Trim(body)))));
    }
  }

  method ParseJunitXml(events: seq<Event>) returns (r: Result<seq<TestCaseResult>, ()>)
    ensures r == Parse(events)
    ensures r.Ok? <==> Malformed !in events
    ensures r.Ok? ==> r.value == Run(INITIAL, events).cases
  {
    var cases: seq<TestCaseResult> := [];
    var suites: seq<string> := [];
    var current: Option<TestCaseResult> := None;
    var capturing := false;
    var i := 0;
    while i < |events|
      invariant 0 <= i <= |events|
      invariant Malformed !in events[..i]
      invariant State(cases, suites, current, capturing) == Run(INITIAL, events[..i])
    {
      RunSnoc(INITIAL, events, i);
      assert events[..i + 1] == events[..i] + [events[i]];
      match events[i] {
      case Malformed =>
        return Err(());
      case Start(tag, attrs) =>
        suites, current, capturing := OpenElement(tag, attrs, suites, current, capturing);
      case Empty(tag, attrs) =>
        suites, current, capturing := OpenElement(tag, attrs, suites, current, capturing);
        capturing := false;
        if tag == "testcase" {
          if current.Some? {
            cases, current := cases + [current.value], None;
          }
        } else if tag == "testsuite" {
          suites := Pop(suites);
        }
      case Text(body) =>
        if capturing {
          current, capturing := SetMessage(current, body);
        }
      case CData(body) =>
        if capturing {
          current, capturing := SetMessage(current, body);
        }
      case End(tag) =>
        if tag == "testcase" {
          capturing := false;
          if current.Some? {
            cases, current := cases + [current.value], None;
          }
        } else if tag == "testsuite" {
          suites := Pop(suites);
        } else if IsVerdict(tag) {
          capturing := false;
        }
      case Other =>
      }
      i := i + 1;
    }
    assert events[..i] == events;
    r := Ok(cases);
  }
}
