/**
 * The Web context with the browser driver abstracted away: what the driver would hand
 * back (a looked-up element, a list of nodes, the outcome of a library assertion, the
 * current URL) is an input, and what the helpers decide from it is modelled.
 */
module Web {
  import opened Wrappers
  import opened Generic

  // ---------------------------------------------------------------------------
  // Driver data and exceptions
  // ---------------------------------------------------------------------------

  /** A page element as the driver reports it: an identity and its visibility. */
  datatype Node = Node(handle: nat, visible: bool)

  /**
   * Exceptions a step can throw. In the browser library ElementNotFound, ElementText and
   * ResponseText are subclasses of the expectation exception; Other is anything else.
   */
  datatype Exc = ElementNotFound | ElementText | ResponseText | Expectation(message: string) | Other

  /** Whether `catch (ExpectationException $e)` catches the exception. */
  predicate IsExpectation(e: Exc) {
    !e.Other?
  }

  /** How a call that returns nothing ended: normally, or by throwing. */
  datatype Completion = Completed | Raised(exc: Exc)

  /** Web's own `assert`: a failed check throws an expectation exception with its message. */
  function Throwing(c: Check): (r: Completion)
    ensures r.Completed? <==> c.Pass?
    ensures c.Fail? ==> r == Raised(Expectation(c.message))
  {
    match c
    case Pass => Completed
    case Fail(m) => Raised(Expectation(m))
  }

  /** The probe a waitFor helper runs at each attempt, from what the driver says then. */
  function Probes(probe: Completion -> Outcome, checks: nat -> Completion): nat -> Outcome {
    (i: nat) => probe(checks(i))
  }

  // ---------------------------------------------------------------------------
  // Visibility and the click helpers
  // ---------------------------------------------------------------------------

  /** `isVisible`: no element found means not visible; otherwise the element's own visibility. */
  function IsVisible(element: Option<Node>): (b: bool)
    ensures b <==> element.Some? && element.value.visible
  {
    if element.None? then false else element.value.visible
  }

  function AssertIsVisible(selector: string, element: Option<Node>): (r: Check)
    ensures r.Pass? <==> element.Some? && element.value.visible
    ensures r.Fail? ==> r.message == selector + " is not visible on page"
  {
    Assert(IsVisible(element), selector + " is not visible on page")
  }

  function AssertIsNotVisible(selector: string, element: Option<Node>): (r: Check)
    ensures r.Pass? <==> element.None? || !element.value.visible
    ensures r.Fail? ==> r.message == selector + " is visible on page"
  {
    Assert(!IsVisible(element), selector + " is visible on page")
  }

  /** What a click helper did to the page. */
  datatype Action = Clicked(node: Node) | DoubleClicked(node: Node)

  /** `click`: the null guard comes first; a found element is clicked, nothing else is. */
  function Click(selector: string, element: Option<Node>): (r: Result<Action>)
    ensures r.Ok? <==> element.Some?
    ensures r.Ok? ==> r.value == Clicked(element.value)
    ensures r.Err? ==> r.message == selector + " not found on the page"
  {
    match Assert(element.Some?, selector + " not found on the page")
    case Fail(m) => Err(m)
    case Pass => Ok(Clicked(element.value))
  }

  /** `doubleclick`: the same guard; a found element is double-clicked. */
  function Doubleclick(selector: string, element: Option<Node>): (r: Result<Action>)
    ensures r.Ok? <==> element.Some?
    ensures r.Ok? ==> r.value == DoubleClicked(element.value)
    ensures r.Err? ==> r.message == selector + " not found on the page"
  {
    match Assert(element.Some?, selector + " not found on the page")
    case Fail(m) => Err(m)
    case Pass => Ok(DoubleClicked(element.value))
  }

  ghost predicate AnyVisible(nodes: seq<Node>) {
    exists j :: 0 <= j < |nodes| && nodes[j].visible
  }

  /**
   * The probe of `waitForAtLeastOneVisibleElementOfType`: walks the nodes in order and
   * returns `true` at the first visible one, `false` when none is (or there are none).
   */
  function AtLeastOneVisibleProbe(nodes: seq<Node>): (o: Outcome)
    ensures o == Returned(Bool(AnyVisible(nodes)))
  {
    if nodes == [] then Returned(Bool(false))
    else if nodes[0].visible then Returned(Bool(true))
    else
      var rest := AtLeastOneVisibleProbe(nodes[1..]);
      assert AnyVisible(nodes[1..]) ==> AnyVisible(nodes) by {
        if AnyVisible(nodes[1..]) {
          var j :| 0 <= j < |nodes[1..]| && nodes[1..][j].visible;
          assert nodes[j + 1].visible;
        }
      }
      rest
  }

  /**
   * `clickFirstVisibleElementOfType`: clicks exactly one node, the first visible one in
   * list order, and returns its index; with no visible node it throws and clicks nothing.
   */
  method ClickFirstVisibleElementOfType(selector: string, nodes: seq<Node>) returns (r: Result<nat>)
    ensures r.Ok? ==> r.value < |nodes| && nodes[r.value].visible
    ensures r.Ok? ==> forall j :: 0 <= j < r.value ==> !nodes[j].visible
    ensures r.Err? ==> r.message == "No visible " + selector + " element found."
    ensures r.Ok? <==> AnyVisible(nodes)
  {
    var i := 0;
    while i < |nodes|
      invariant 0 <= i <= |nodes|
      invariant forall j :: 0 <= j < i ==> !nodes[j].visible
    {
      if nodes[i].visible {
        return Ok(i);
      }
      i := i + 1;
    }
    return Err("No visible " + selector + " element found.");
  }

  // ---------------------------------------------------------------------------
  // The probes of the waitFor helpers
  // ---------------------------------------------------------------------------

  /** `waitForSelectorExistence`'s probe: only a missing element becomes `false`. */
  function ExistenceProbe(assertion: Completion): (o: Outcome)
    ensures o == Returned(Bool(true)) <==> assertion.Completed?
    ensures o == Returned(Bool(false)) <==> assertion == Raised(ElementNotFound)
    ensures o == Threw <==> assertion.Raised? && assertion.exc != ElementNotFound
  {
    match assertion
    case Completed => Returned(Bool(true))
    case Raised(ElementNotFound) => Returned(Bool(false))
    case Raised(_) => Threw
  }

  /** `waitForSelectorVisibility`'s probe: any expectation failure becomes `false`. */
  function VisibilityProbe(assertion: Completion): (o: Outcome)
    ensures o == Returned(Bool(true)) <==> assertion.Completed?
    ensures o == Returned(Bool(false)) <==> assertion.Raised? && IsExpectation(assertion.exc)
    ensures o == Threw <==> assertion.Raised? && !IsExpectation(assertion.exc)
  {
    match assertion
    case Completed => Returned(Bool(true))
    case Raised(e) => if IsExpectation(e) then Returned(Bool(false)) else Threw
  }

  /** The visibility probe on a looked-up element answers exactly `isVisible`. */
  lemma VisibilityProbeIsIsVisible(selector: string, element: Option<Node>)
    ensures VisibilityProbe(Throwing(AssertIsVisible(selector, element))) == Returned(Bool(IsVisible(element)))
  {
  }

  /**
   * `waitForElementText`'s probe as written: the closure has no `return`, so it yields
   * `null` whether the text assertion held or failed; only a non-expectation exception
   * escapes it.
   */
  function ElementTextProbe(assertion: Completion): (o: Outcome)
    ensures !Succeeds(o)
    ensures o != Threw ==> o == Returned(Null)
    ensures o == Threw <==> assertion.Raised? && !IsExpectation(assertion.exc)
  {
    match assertion
    case Completed => Returned(Null)
    case Raised(e) => if IsExpectation(e) then Returned(Null) else Threw
  }

  /** `waitForElementText`'s probe as evidently intended: `true` once the text assertion holds. */
  function ElementTextProbeIntended(assertion: Completion): (o: Outcome)
    ensures Succeeds(o) <==> assertion.Completed?
  {
    match assertion
    case Completed => Returned(Bool(true))
    case Raised(e) => if IsExpectation(e) then Returned(Null) else Threw
  }

  /** `waitForVisibleText`'s probe: `true` when the page has the text, `null` on a miss. */
  function VisibleTextProbe(assertion: Completion): (o: Outcome)
    ensures Succeeds(o) <==> assertion.Completed?
    ensures assertion == Raised(ResponseText) ==> o == Returned(Null)
    ensures o == Threw <==> assertion.Raised? && assertion.exc != ResponseText
  {
    match assertion
    case Completed => Returned(Bool(true))
    case Raised(ResponseText) => Returned(Null)
    case Raised(_) => Threw
  }

  // ---------------------------------------------------------------------------
  // The waitFor helpers
  // ---------------------------------------------------------------------------

  /**
   * `waitForSelectorExistence`: `existence(i)` is how the library's element-exists
   * assertion ends at attempt i. Succeeds exactly when it passes within the budget.
   */
  method WaitForSelectorExistence(existence: nat -> Completion, attempts: int := 10, waitInterval: int := 1)
    returns (run: Run)
    ensures run == WaitForSpec(Probes(ExistenceProbe, existence), attempts, waitInterval)
    ensures run.result == Succeeded <==> exists k :: 0 <= k < attempts && existence(k).Completed?
  {
    var probe := Probes(ExistenceProbe, existence);
    run := WaitFor(probe, attempts, waitInterval);
    forall k: nat | k < attempts
      ensures Succeeds(probe(k)) <==> existence(k).Completed?
    {
      assert probe(k) == ExistenceProbe(existence(k));
    }
  }

  /** The probes of `waitForSelectorVisibility`, from the element looked up at each attempt. */
  function VisibilityProbes(selector: string, lookups: nat -> Option<Node>): nat -> Outcome {
    (i: nat) => VisibilityProbe(Throwing(AssertIsVisible(selector, lookups(i))))
  }

  /**
   * `waitForSelectorVisibility`: `lookups(i)` is the element found at attempt i.
   * Succeeds exactly when some lookup within the budget finds a visible element.
   */
  method WaitForSelectorVisibility(selector: string, lookups: nat -> Option<Node>, attempts: int := 10, waitInterval: int := 1)
    returns (run: Run)
    ensures run == WaitForSpec(VisibilityProbes(selector, lookups), attempts, waitInterval)
    ensures run.result == Succeeded <==> exists k :: 0 <= k < attempts && IsVisible(lookups(k))
  {
    run := WaitFor(VisibilityProbes(selector, lookups), attempts, waitInterval);
    forall k | 0 <= k < attempts
      ensures Succeeds(VisibilityProbes(selector, lookups)(k)) <==> IsVisible(lookups(k))
    {
      VisibilityProbeIsIsVisible(selector, lookups(k));
    }
  }

  /** The probes of `waitForAtLeastOneVisibleElementOfType`, from the nodes found at each attempt. */
  function AtLeastOneVisibleProbes(snapshots: nat -> seq<Node>): nat -> Outcome {
    (i: nat) => AtLeastOneVisibleProbe(snapshots(i))
  }

  /**
   * `waitForAtLeastOneVisibleElementOfType`, with the default 10 attempts one second
   * apart: succeeds exactly when some attempt finds a visible node.
   */
  method WaitForAtLeastOneVisibleElementOfType(snapshots: nat -> seq<Node>) returns (run: Run)
    ensures run == WaitForSpec(AtLeastOneVisibleProbes(snapshots), 10, 1)
    ensures run.result == Succeeded <==> exists k :: 0 <= k < 10 && AnyVisible(snapshots(k))
  {
    var probe := AtLeastOneVisibleProbes(snapshots);
    run := WaitFor(probe);
    forall k: nat | k < 10
      ensures Succeeds(probe(k)) <==> AnyVisible(snapshots(k))
    {
      assert probe(k) == AtLeastOneVisibleProbe(snapshots(k));
    }
  }

  /**
   * `waitForElementText` as written: whatever the page does, it makes all 10 probe calls,
   * sleeps 10 times, and throws the exhaustion exception.
   */
  method WaitForElementText(checks: nat -> Completion) returns (run: Run)
    ensures run == WaitForSpec(Probes(ElementTextProbe, checks), 10, 1)
    ensures run.result == Exhausted("Step did not succeed after 10 attempts.")
    ensures Calls(run.trace) == 10 && Sleeps(run.trace) == 10
  {
    run := WaitFor(Probes(ElementTextProbe, checks));
    ExhaustsWhenNoneSucceed(Probes(ElementTextProbe, checks), 10, 1);
    TenAttemptsMessage();
  }

  /** `waitForElementText` as evidently intended: succeeds once the text assertion holds. */
  method WaitForElementTextIntended(checks: nat -> Completion) returns (run: Run)
    ensures run == WaitForSpec(Probes(ElementTextProbeIntended, checks), 10, 1)
    ensures run.result == Succeeded <==> exists k :: 0 <= k < 10 && checks(k).Completed?
  {
    var probe := Probes(ElementTextProbeIntended, checks);
    run := WaitFor(probe);
    forall k: nat | k < 10
      ensures Succeeds(probe(k)) <==> checks(k).Completed?
    {
      assert probe(k) == ElementTextProbeIntended(checks(k));
    }
  }

  /**
   * `waitForVisibleText`: succeeds exactly when the page-text assertion passes within the
   * 10 attempts; a miss gives `null` and is retried.
   */
  method WaitForVisibleText(checks: nat -> Completion) returns (run: Run)
    ensures run == WaitForSpec(Probes(VisibleTextProbe, checks), 10, 1)
    ensures run.result == Succeeded <==> exists k :: 0 <= k < 10 && checks(k).Completed?
  {
    var probe := Probes(VisibleTextProbe, checks);
    run := WaitFor(probe);
    forall k: nat | k < 10
      ensures Succeeds(probe(k)) <==> checks(k).Completed?
    {
      assert probe(k) == VisibleTextProbe(checks(k));
    }
  }

  // ---------------------------------------------------------------------------
  // Query-string parameters
  // ---------------------------------------------------------------------------

  predicate OccursAt(pat: string, s: string, i: nat) {
    i + |pat| <= |s| && s[i..i + |pat|] == pat
  }

  /** The first index at or after `from` where `pat` occurs in `s`. */
  function FindFirst(pat: string, s: string, from: nat): (r: Option<nat>)
    decreases |s| - from
    ensures r.Some? ==> from <= r.value && OccursAt(pat, s, r.value)
    ensures r.Some? ==> forall j :: from <= j < r.value ==> !OccursAt(pat, s, j)
    ensures r.None? <==> forall j :: from <= j ==> !OccursAt(pat, s, j)
  {
    if |s| < from + |pat| then None
    else if s[from..from + |pat|] == pat then assert OccursAt(pat, s, from); Some(from)
    else FindFirst(pat, s, from + 1)
  }

  /** The longest run of characters from `start` that are neither '&' nor '#' (`[^&#]*`). */
  function ValueRun(s: string, start: nat): (v: string)
    requires start <= |s|
    decreases |s| - start
    ensures start + |v| <= |s| && v == s[start..start + |v|]
    ensures forall k :: 0 <= k < |v| ==> v[k] != '&' && v[k] != '#'
    ensures start + |v| == |s| || s[start + |v|] == '&' || s[start + |v|] == '#'
  {
    if start == |s| || s[start] == '&' || s[start] == '#' then ""
    else [s[start]] + ValueRun(s, start + 1)
  }

  /**
   * The value the pattern `name=([^&#]*)` captures in the URL: taken after the first
   * occurrence of "name=", anywhere in the URL, or None when there is none.
   */
  function QueryStringValue(name: string, url: string): (r: Option<string>)
    ensures r.None? <==> forall j :: !OccursAt(name + "=", url, j)
    ensures r.Some? ==> FindFirst(name + "=", url, 0).Some? &&
                        r.value == ValueRun(url, FindFirst(name + "=", url, 0).value + |name| + 1)
  {
    match FindFirst(name + "=", url, 0)
    case None => None
    case Some(i) => Some(ValueRun(url, i + |name| + 1))
  }

  /**
   * `assertQueryStringParameterValue`: throws when "name=" does not occur in the URL, or
   * when the captured value differs from the expected one; passes otherwise.
   */
  function AssertQueryStringParameterValue(name: string, expected: string, url: string): (r: Check)
    ensures r.Pass? <==> QueryStringValue(name, url) == Some(expected)
    ensures QueryStringValue(name, url).None? ==>
      r == Fail("Parameter " + name + " does not exist in querystring")
    ensures QueryStringValue(name, url).Some? && QueryStringValue(name, url).value != expected ==>
      r == Fail(QueryStringValue(name, url).value + " does not match expected " + expected)
  {
    match QueryStringValue(name, url)
    case None => Assert(false, "Parameter " + name + " does not exist in querystring")
    case Some(v) => Assert(v == expected, v + " does not match expected " + expected)
  }

  /** As written, "id" is found inside "pid=": the value of a different parameter is captured. */
  lemma QueryStringMatchesInsideLongerName()
    ensures QueryStringValue("id", "/p?pid=5&id=7") == Some("5")
    ensures AssertQueryStringParameterValue("id", "7", "/p?pid=5&id=7").Fail?
  {
    var url := "/p?pid=5&id=7";
    assert "id" + "=" == "id=";
    assert FindFirst("id=", url, 4) == Some(4) by { assert url[4..7] == "id="; }
    assert FindFirst("id=", url, 3) == Some(4) by { assert url[3..6][0] == 'p'; }
    assert FindFirst("id=", url, 2) == Some(4) by { assert url[2..5][0] == '?'; }
    assert FindFirst("id=", url, 1) == Some(4) by { assert url[1..4][0] == 'p'; }
    assert FindFirst("id=", url, 0) == Some(4) by { assert url[0..3][0] == '/'; }
    assert ValueRun(url, 7) == "5" by { assert ValueRun(url, 8) == ""; }
    assert QueryStringValue("id", url) == Some("5");
  }

  /** "name=" at `i` starts a whole parameter: it follows the '?' or an '&'. */
  predicate ParameterAt(name: string, url: string, i: nat) {
    0 < i <= |url| && (url[i - 1] == '?' || url[i - 1] == '&') && OccursAt(name + "=", url, i)
  }

  /** The first index at or after `from` where a whole parameter `name` starts. */
  function FindParameter(name: string, url: string, from: nat): (r: Option<nat>)
    decreases |url| - from
    ensures r.Some? ==> from <= r.value && ParameterAt(name, url, r.value)
    ensures r.Some? ==> forall j :: from <= j < r.value ==> !ParameterAt(name, url, j)
    ensures r.None? <==> forall j :: from <= j ==> !ParameterAt(name, url, j)
  {
    if |url| < from + |name| + 1 then None
    else if ParameterAt(name, url, from) then Some(from)
    else FindParameter(name, url, from + 1)
  }

  /** The value of the parameter named exactly `name`, as the assertion evidently intends. */
  function ParameterValue(name: string, url: string): (r: Option<string>)
    ensures r.None? <==> forall j :: !ParameterAt(name, url, j)
    ensures r.Some? ==> FindParameter(name, url, 0).Some? &&
                        r.value == ValueRun(url, FindParameter(name, url, 0).value + |name| + 1)
  {
    match FindParameter(name, url, 0)
    case None => None
    case Some(i) => Some(ValueRun(url, i + |name| + 1))
  }

  /** `assertQueryStringParameterValue` as evidently intended: matches whole parameter names. */
  function AssertQueryStringParameterValueIntended(name: string, expected: string, url: string): (r: Check)
    ensures r.Pass? <==> ParameterValue(name, url) == Some(expected)
  {
    match ParameterValue(name, url)
    case None => Assert(false, "Parameter " + name + " does not exist in querystring")
    case Some(v) => Assert(v == expected, v + " does not match expected " + expected)
  }

  /** Matching whole names, the same URL yields the value of "id" itself. */
  lemma ParameterValueMatchesWholeName()
    ensures ParameterValue("id", "/p?pid=5&id=7") == Some("7")
    ensures AssertQueryStringParameterValueIntended("id", "7", "/p?pid=5&id=7").Pass?
  {
    var url := "/p?pid=5&id=7";
    assert url[3] == 'p' && url[4] == 'i' && url[8] == '&';
    assert url[9..12] == "id=";
    assert !ParameterAt("id", url, 0) && !ParameterAt("id", url, 1) && !ParameterAt("id", url, 2);
    assert !ParameterAt("id", url, 3) && !ParameterAt("id", url, 4) && !ParameterAt("id", url, 5);
    assert !ParameterAt("id", url, 6) && !ParameterAt("id", url, 7) && !ParameterAt("id", url, 8);
    assert FindParameter("id", url, 0) == Some(9);
    assert ValueRun(url, 13) == "";
    assert ValueRun(url, 12) == "7";
  }
}
