/**
 * The Generic context: the retry poller `waitFor`, the integer assertion helpers
 * and `map`. Sleeping is recorded as an event, never performed.
 */
module Generic {
  import opened Wrappers

  // ---------------------------------------------------------------------------
  // Values, probes and the retry poller
  // ---------------------------------------------------------------------------

  /** A PHP value as a probe may return it: enough kinds to tell `=== true` from truthiness. */
  datatype Value = Bool(b: bool) | Null | Int(i: int) | Str(s: string)

  /** What one call of a probe did: it returned a value or it threw an exception. */
  datatype Outcome = Returned(value: Value) | Threw

  /** PHP's conversion to boolean for the value kinds above. */
  predicate Truthy(v: Value) {
    match v
    case Bool(b) => b
    case Null => false
    case Int(i) => i != 0
    case Str(s) => s != "" && s != "0"
  }

  /** The poller's success test: the probe returned a value identical (`===`) to `true`. */
  predicate Succeeds(o: Outcome) {
    o == Returned(Bool(true))
  }

  /** What the poller does, in order: a probe call (with its outcome) or a sleep. */
  datatype Event = Called(outcome: Outcome) | Slept(seconds: int)

  /** Normal return, or the exception thrown once the attempt budget is spent. */
  datatype WaitResult = Succeeded | Exhausted(message: string)

  /** One run of the poller: how it ended and everything it did on the way. */
  datatype Run = Run(result: WaitResult, trace: seq<Event>)

  function DigitChar(d: nat): (c: char)
    requires d < 10
    ensures '0' <= c <= '9'
  {
    ('0' as int + d) as char
  }

  /** The number a string of decimal digits spells, most significant digit first. */
  function DigitsValue(s: string): nat {
    if s == [] then 0
    else
      var d := s[|s| - 1] as int - '0' as int;
      DigitsValue(s[..|s| - 1]) * 10 + (if 0 <= d < 10 then d else 0)
  }

  /** Decimal rendering of a natural number, as PHP interpolates an int. */
  function NatToString(n: nat): (s: string)
    ensures |s| >= 1
    ensures forall k :: 0 <= k < |s| ==> '0' <= s[k] <= '9'
    ensures DigitsValue(s) == n
    ensures s[0] == '0' ==> |s| == 1
  {
    if n < 10 then [DigitChar(n)]
    else
      var prefix := NatToString(n / 10);
      var s := prefix + [DigitChar(n % 10)];
      assert s[..|s| - 1] == prefix;
      s
  }

  /** Decimal rendering of an integer, with a leading '-' when it is negative. */
  function IntToString(i: int): (s: string)
    ensures |s| >= 1
    ensures (s[0] == '-') <==> i < 0
    ensures i >= 0 ==> DigitsValue(s) == i
    ensures i < 0 ==> |s| >= 2 && DigitsValue(s[1..]) == -i
    ensures forall k :: (if i < 0 then 1 else 0) <= k < |s| ==> '0' <= s[k] <= '9'
    ensures s[if i < 0 then 1 else 0] == '0' ==> |s| == (if i < 0 then 2 else 1)
  {
    if i < 0 then
      var s := "-" + NatToString(-i);
      assert s[1..] == NatToString(-i);
      s
    else NatToString(i)
  }

  /** The message of the exception `waitFor` throws when every attempt has failed. */
  function ExhaustedMessage(attempts: int): string {
    "Step did not succeed after " + IntToString(attempts) + " attempts."
  }

  /** The message after the helpers' default budget of ten attempts. */
  lemma TenAttemptsMessage()
    ensures ExhaustedMessage(10) == "Step did not succeed after 10 attempts."
  {
  }

  /** The number of probe calls the loop `for ($i = 0; $i < $attempts; $i++)` can make. */
  function Budget(attempts: int): nat {
    if attempts < 0 then 0 else attempts
  }

  /** The least call index in [from, attempts) whose outcome succeeds, if there is one. */
  function FirstSuccess(probe: nat -> Outcome, from: nat, attempts: int): (r: Option<nat>)
    decreases attempts - from
    ensures r.Some? ==> from <= r.value < attempts && Succeeds(probe(r.value))
    ensures r.Some? ==> forall j :: from <= j < r.value ==> !Succeeds(probe(j))
    ensures r.None? <==> forall j :: from <= j < attempts ==> !Succeeds(probe(j))
  {
    if attempts <= from then None
    else if Succeeds(probe(from)) then Some(from)
    else FirstSuccess(probe, from + 1, attempts)
  }

  /** The trace of `n` failed attempts: each probe call followed by a sleep. */
  function Rounds(probe: nat -> Outcome, n: nat, waitInterval: int): seq<Event> {
    if n == 0 then [] else Rounds(probe, n - 1, waitInterval) + [Called(probe(n - 1)), Slept(waitInterval)]
  }

  /** Number of probe calls in a trace. */
  function Calls(trace: seq<Event>): nat {
    if trace == [] then 0 else Calls(trace[..|trace| - 1]) + (if trace[|trace| - 1].Called? then 1 else 0)
  }

  /** Number of sleeps in a trace. */
  function Sleeps(trace: seq<Event>): nat {
    if trace == [] then 0 else Sleeps(trace[..|trace| - 1]) + (if trace[|trace| - 1].Slept? then 1 else 0)
  }

  /**
   * What `waitFor` does, stated without its loop: find the first call whose outcome is
   * strictly `true` within the budget; before it, every call is followed by a sleep.
   */
  function WaitForSpec(probe: nat -> Outcome, attempts: int, waitInterval: int): (run: Run)
    ensures run.result.Succeeded? <==> exists k :: 0 <= k < attempts && Succeeds(probe(k))
    ensures run.result.Exhausted? ==> run.result.message == ExhaustedMessage(attempts)
  {
    match FirstSuccess(probe, 0, attempts)
    case Some(k) => Run(Succeeded, Rounds(probe, k, waitInterval) + [Called(probe(k))])
    case None => Run(Exhausted(ExhaustedMessage(attempts)), Rounds(probe, Budget(attempts), waitInterval))
  }

  /**
   * The retry poller. Calls the probe up to `attempts` times; a strict `true` returns at
   * once; any other value and any exception count as a failed attempt, after which it
   * sleeps `waitInterval`; when the budget is spent it throws.
   */
  method WaitFor(probe: nat -> Outcome, attempts: int := 10, waitInterval: int := 1) returns (run: Run)
    ensures run == WaitForSpec(probe, attempts, waitInterval)
  {
    var trace: seq<Event> := [];
    var i: nat := 0;
    while i < attempts
      invariant i <= Budget(attempts)
      invariant forall j :: 0 <= j < i ==> !Succeeds(probe(j))
      invariant trace == Rounds(probe, i, waitInterval)
    {
      // An exception thrown by the probe is swallowed: it is just another failed attempt.
      var outcome := probe(i);
      trace := trace + [Called(outcome)];
      if outcome == Returned(Bool(true)) {
        return Run(Succeeded, trace);
      }
      trace := trace + [Slept(waitInterval)];
      i := i + 1;
    }
    return Run(Exhausted(ExhaustedMessage(attempts)), trace);
  }

  // ---------------------------------------------------------------------------
  // Properties of the poller
  // ---------------------------------------------------------------------------

  lemma {:induction false} CallsAppend(a: seq<Event>, b: seq<Event>)
    ensures Calls(a + b) == Calls(a) + Calls(b)
    ensures Sleeps(a + b) == Sleeps(a) + Sleeps(b)
    decreases |b|
  {
    if b == [] {
      assert a + b == a;
    } else {
      var b' := b[..|b| - 1];
      assert (a + b)[..|a + b| - 1] == a + b';
      CallsAppend(a, b');
    }
  }

  lemma RoundCounts(call: Event, sleep: Event)
    requires call.Called? && sleep.Slept?
    ensures Calls([call, sleep]) == 1 && Sleeps([call, sleep]) == 1
  {
    assert [call, sleep][..1] == [call];
    assert [call][..0] == [];
    assert Calls([call]) == 1 && Sleeps([call]) == 0;
  }

  /** `n` failed attempts make `n` probe calls and `n` sleeps, strictly alternating. */
  lemma {:induction false} RoundsShape(probe: nat -> Outcome, n: nat, waitInterval: int)
    ensures |Rounds(probe, n, waitInterval)| == 2 * n
    ensures Calls(Rounds(probe, n, waitInterval)) == n
    ensures Sleeps(Rounds(probe, n, waitInterval)) == n
    ensures forall j :: 0 <= j < n ==>
      Rounds(probe, n, waitInterval)[2 * j] == Called(probe(j)) &&
      Rounds(probe, n, waitInterval)[2 * j + 1] == Slept(waitInterval)
  {
    if n > 0 {
      var prev := Rounds(probe, n - 1, waitInterval);
      RoundsShape(probe, n - 1, waitInterval);
      CallsAppend(prev, [Called(probe(n - 1)), Slept(waitInterval)]);
      RoundCounts(Called(probe(n - 1)), Slept(waitInterval));
    }
  }

  /**
   * If the first strictly-`true` outcome is at call k < attempts, the poller returns
   * normally after exactly k + 1 probe calls and k sleeps, and its last act is that call.
   */
  lemma SucceedsAtFirstTrue(probe: nat -> Outcome, attempts: int, waitInterval: int, k: nat)
    requires k < attempts && Succeeds(probe(k))
    requires forall j :: 0 <= j < k ==> !Succeeds(probe(j))
    ensures WaitForSpec(probe, attempts, waitInterval).result == Succeeded
    ensures Calls(WaitForSpec(probe, attempts, waitInterval).trace) == k + 1
    ensures Sleeps(WaitForSpec(probe, attempts, waitInterval).trace) == k
    ensures |WaitForSpec(probe, attempts, waitInterval).trace| == 2 * k + 1
    ensures WaitForSpec(probe, attempts, waitInterval).trace[2 * k] == Called(probe(k))
  {
    var run := WaitForSpec(probe, attempts, waitInterval);
    assert FirstSuccess(probe, 0, attempts) == Some(k);
    RoundsShape(probe, k, waitInterval);
    CallsAppend(Rounds(probe, k, waitInterval), [Called(probe(k))]);
    assert [Called(probe(k))][..0] == [];
  }

  /**
   * If no call within the budget returns strictly `true`, the poller throws the exhaustion
   * message after exactly `attempts` calls, and sleeps after the last failure too.
   */
  lemma ExhaustsWhenNoneSucceed(probe: nat -> Outcome, attempts: int, waitInterval: int)
    requires forall j :: 0 <= j < attempts ==> !Succeeds(probe(j))
    ensures WaitForSpec(probe, attempts, waitInterval).result == Exhausted(ExhaustedMessage(attempts))
    ensures Calls(WaitForSpec(probe, attempts, waitInterval).trace) == Budget(attempts)
    ensures Sleeps(WaitForSpec(probe, attempts, waitInterval).trace) == Budget(attempts)
  {
    RoundsShape(probe, Budget(attempts), waitInterval);
  }

  /** With no budget the probe is never called, nothing sleeps, and the poller throws at once. */
  lemma NoBudgetThrowsAtOnce(probe: nat -> Outcome, attempts: int, waitInterval: int)
    requires attempts <= 0
    ensures WaitForSpec(probe, attempts, waitInterval) == Run(Exhausted(ExhaustedMessage(attempts)), [])
  {
  }

  /**
   * Every call before the first success is made and followed by a sleep: a failed
   * attempt, whether it returned a non-`true` value or threw, never ends the run.
   */
  lemma ReachesAttempt(probe: nat -> Outcome, attempts: int, waitInterval: int, k: nat)
    requires k < attempts
    requires forall j :: 0 <= j < k ==> !Succeeds(probe(j))
    ensures 2 * k < |WaitForSpec(probe, attempts, waitInterval).trace|
    ensures WaitForSpec(probe, attempts, waitInterval).trace[2 * k] == Called(probe(k))
    ensures k > 0 ==> WaitForSpec(probe, attempts, waitInterval).trace[2 * k - 1] == Slept(waitInterval)
  {
    var first := FirstSuccess(probe, 0, attempts);
    if first.Some? {
      var m := first.value;
      assert k <= m;
      RoundsShape(probe, m, waitInterval);
      if k < m {
        assert (Rounds(probe, m, waitInterval) + [Called(probe(m))])[2 * k] == Rounds(probe, m, waitInterval)[2 * k];
        if k > 0 {
          assert (Rounds(probe, m, waitInterval) + [Called(probe(m))])[2 * k - 1] == Rounds(probe, m, waitInterval)[2 * (k - 1) + 1];
        }
      } else if k > 0 {
        assert (Rounds(probe, m, waitInterval) + [Called(probe(m))])[2 * k - 1] == Rounds(probe, m, waitInterval)[2 * (k - 1) + 1];
      }
    } else {
      RoundsShape(probe, Budget(attempts), waitInterval);
    }
  }

  /**
   * Only strict success matters: two probes whose calls succeed at the same indices give
   * the same result after the same number of calls and sleeps. So an exception, `false`,
   * `null` and a truthy non-boolean are all the same failed attempt.
   */
  lemma OnlyStrictSuccessMatters(p: nat -> Outcome, q: nat -> Outcome, attempts: int, waitInterval: int)
    requires forall j :: 0 <= j < attempts ==> (Succeeds(p(j)) <==> Succeeds(q(j)))
    ensures WaitForSpec(p, attempts, waitInterval).result == WaitForSpec(q, attempts, waitInterval).result
    ensures Calls(WaitForSpec(p, attempts, waitInterval).trace) == Calls(WaitForSpec(q, attempts, waitInterval).trace)
    ensures Sleeps(WaitForSpec(p, attempts, waitInterval).trace) == Sleeps(WaitForSpec(q, attempts, waitInterval).trace)
  {
    var first := FirstSuccess(p, 0, attempts);
    if first.Some? {
      SucceedsAtFirstTrue(p, attempts, waitInterval, first.value);
      SucceedsAtFirstTrue(q, attempts, waitInterval, first.value);
    } else {
      ExhaustsWhenNoneSucceed(p, attempts, waitInterval);
      ExhaustsWhenNoneSucceed(q, attempts, waitInterval);
    }
  }

  /**
   * A first call that returns a truthy value other than `true` itself (1, "yes") does
   * not end the poll: the poller sleeps and calls the probe again.
   */
  lemma TruthyValueIsRetried(probe: nat -> Outcome, attempts: int, waitInterval: int, v: Value)
    requires 2 <= attempts && probe(0) == Returned(v) && Truthy(v) && v != Bool(true)
    ensures 2 < |WaitForSpec(probe, attempts, waitInterval).trace|
    ensures WaitForSpec(probe, attempts, waitInterval).trace[..3]
         == [Called(Returned(v)), Slept(waitInterval), Called(probe(1))]
  {
    ReachesAttempt(probe, attempts, waitInterval, 0);
    ReachesAttempt(probe, attempts, waitInterval, 1);
    var trace := WaitForSpec(probe, attempts, waitInterval).trace;
    assert trace[..3] == [trace[0], trace[1], trace[2]];
  }

  /** A probe returning false, false, true with three attempts returns after three calls. */
  lemma FalseFalseTrueScenario()
    ensures WaitForSpec(k => if k < 2 then Returned(Bool(false)) else Returned(Bool(true)), 3, 0)
         == Run(Succeeded, [Called(Returned(Bool(false))), Slept(0), Called(Returned(Bool(false))), Slept(0),
                            Called(Returned(Bool(true)))])
  {
  }

  /** A probe that always throws, with two attempts, ends in the exhaustion exception. */
  lemma AlwaysThrowsScenario()
    ensures WaitForSpec(_ => Threw, 2, 0)
         == Run(Exhausted("Step did not succeed after 2 attempts."), [Called(Threw), Slept(0), Called(Threw), Slept(0)])
  {
  }

  // ---------------------------------------------------------------------------
  // Assertion helpers (integers only) and map
  // ---------------------------------------------------------------------------

  /** An assertion either passes or throws with a message. */
  datatype Check = Pass | Fail(message: string)

  /** `assert`: throws the given message exactly when the condition is false. */
  function Assert(condition: bool, failureMessage: string := ""): (r: Check)
    ensures r.Pass? <==> condition
    ensures r.Fail? ==> r.message == failureMessage
  {
    if !condition then Fail(failureMessage) else Pass
  }

  /**
   * `$msg == null ? default : $msg`. The comparison is PHP's loose one: null is turned
   * into "" before it is compared with a string, so a missing message and the empty
   * string select the default, and every other string, "0" included, is kept.
   */
  function MessageOr(msg: Option<string>, default: string): (m: string)
    ensures msg.None? || msg.value == "" ==> m == default
    ensures msg.Some? && msg.value != "" ==> m == msg.value
  {
    if msg.None? || msg.value == "" then default else msg.value
  }

  /** The empty message is replaced by the default; "0", falsy in PHP, is kept. */
  lemma LooseNullMessage(d: string)
    ensures MessageOr(Some(""), d) == d
    ensures MessageOr(Some("0"), d) == "0"
    ensures AssertEqual(1, 2, Some("0")) == Fail("0")
  {
  }

  function AssertEqual(expected: int, actual: int, msg: Option<string> := None): (r: Check)
    ensures r.Pass? <==> expected == actual
    ensures r.Fail? ==> r.message == MessageOr(msg, "Expected " + IntToString(expected) + " to equal " + IntToString(actual))
  {
    Assert(expected == actual, MessageOr(msg, "Expected " + IntToString(expected) + " to equal " + IntToString(actual)))
  }

  function AssertLessThan(expected: int, actual: int, msg: Option<string> := None): (r: Check)
    ensures r.Pass? <==> expected < actual
    ensures r.Fail? ==> r.message == MessageOr(msg, "Expected " + IntToString(expected) + " to be less than " + IntToString(actual))
  {
    Assert(expected < actual, MessageOr(msg, "Expected " + IntToString(expected) + " to be less than " + IntToString(actual)))
  }

  function AssertGreaterThan(expected: int, actual: int, msg: Option<string> := None): (r: Check)
    ensures r.Pass? <==> expected > actual
    ensures r.Fail? ==> r.message == MessageOr(msg, "Expected " + IntToString(expected) + " to be greater than " + IntToString(actual))
  {
    Assert(expected > actual, MessageOr(msg, "Expected " + IntToString(expected) + " to be greater than " + IntToString(actual)))
  }

  /** The lower bound of `assertValueInRange`: expected - range, but never below 0. */
  function LowerBound(expected: int, range: int): (lo: int)
    ensures lo >= 0 && lo >= expected - range
    ensures lo == expected - range || lo == 0
  {
    if expected - range < 0 then 0 else expected - range
  }

  /**
   * `assertValueInRange`: passes exactly when max(0, expected - range) <= actual <=
   * expected + range, and otherwise throws a message naming both bounds.
   */
  function AssertValueInRange(expected: int, actual: int, range: int := 5): (r: Check)
    ensures r.Pass? <==> LowerBound(expected, range) <= actual <= expected + range
    ensures r.Fail? ==> r.message == "Value not in expected range: " + IntToString(LowerBound(expected, range))
                                     + " <= " + IntToString(actual) + " >= " + IntToString(expected + range)
  {
    var lowerBound := LowerBound(expected, range);
    var upperBound := expected + range;
    Assert(lowerBound <= actual && upperBound >= actual,
           "Value not in expected range: " + IntToString(lowerBound) + " <= " + IntToString(actual)
           + " >= " + IntToString(upperBound))
  }

  /** Because the lower bound is clamped at 0, a negative value never passes, nor does a negative range. */
  lemma RangeNeverAdmitsNegativesOrNegativeRange(expected: int, actual: int, range: int)
    requires actual < 0 || range < 0
    ensures AssertValueInRange(expected, actual, range).Fail?
  {
  }

  /** `map`: a list as long as `items` whose i-th element is `f` of the i-th item. */
  function Map<T, U>(items: seq<T>, f: T -> U): (r: seq<U>)
    ensures |r| == |items|
    ensures forall i :: 0 <= i < |items| ==> r[i] == f(items[i])
  {
    if items == [] then [] else [f(items[0])] + Map(items[1..], f)
  }
}
