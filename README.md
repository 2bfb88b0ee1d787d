# behat-contexts: a Dafny model of the step helpers

This project models the logic of two PHP helper layers for Behat/Mink browser tests:

- the **Generic** context (`src/LinusShops/Contexts/Generic.php`): the retry poller
  `waitFor`, the integer assertion helpers and `map`;
- the **Web** context (`src/LinusShops/Contexts/Web.php`): the probes that the `waitFor*`
  steps hand to the poller, the click helpers and their guards, `isVisible`, and the
  query-string assertion.

The browser driver is not modelled. Whatever it would hand back becomes an input:
- an element lookup is an `Option<Node>` (a node has an identity and a visibility flag);
- `findAll` is a `seq<Node>`;
- a Mink assertion is a `Completion` (it completes, or it raises one of the library's exceptions);
- the current URL is a string.

A probe is a function from the call index to an `Outcome`: a returned PHP `Value` or a
thrown exception. So "the i-th call of the closure" is `probe(i)`. The poller's sleeps
are recorded as `Slept` events in a trace, never performed.

Files:
- `Wrappers.dfy`: `Option` and `Result`.
- `Generic.dfy`: module `Generic`. `WaitFor` is a method whose loop is proved against the
  declarative `WaitForSpec`. The lemmas about `WaitForSpec` give the counts of calls and
  sleeps, the strict-`true` rule and the exhaustion behaviour.
- `Web.dfy`: module `Web`. The probes, the `waitFor*` steps (methods that call
  `Generic.WaitFor`), `ClickFirstVisibleElementOfType` (a loop), the click guards, and
  the `name=([^&#]*)` extraction.

Some facts about the browser library are not in the repository, and the model takes
them as given:
- Mink's `ElementNotFoundException`, `ElementTextException` and `ResponseTextException`
  are subclasses of `ExpectationException` (`Web.IsExpectation`).
- `Web` overrides `assert` (`Web.php:281-286`), so a failed assertion in a Web context
  throws an `ExpectationException` (`Web.Throwing`).

Three behaviours of `waitFor` are worth stating plainly:
- A budget of zero or less is accepted: the probe is never called, and the exhaustion exception is thrown at once.
- Only a return value identical to `true` counts as success, as the docblock at `Generic.php:19-21` says.
- The poller sleeps after every failed attempt, the last one included. Here the code and its docblock differ: `Generic.php:15-16` speaks of "waiting X seconds between each attempt", but line 37 also sleeps after the final failure. The model follows the code.

## Model

| member | source | states |
|---|---|---|
| `Generic.WaitFor` | src/LinusShops/Contexts/Generic.php:26-43 | the loop's result and its trace of probe calls and sleeps are exactly those of `WaitForSpec` for every probe, budget and interval |
| `Generic.WaitForSpec` | src/LinusShops/Contexts/Generic.php:26-43 | the poll succeeds iff some call with index below `attempts` returns strictly `true`; otherwise it throws "Step did not succeed after {attempts} attempts." |
| `Generic.FirstSuccess` | src/LinusShops/Contexts/Generic.php:28-32 | finds the least call index in the range whose outcome is strictly `true`, or reports that none is |
| `Generic.SucceedsAtFirstTrue` | src/LinusShops/Contexts/Generic.php:28-37 | if the first strict `true` is at call k < attempts, the poll returns normally after exactly k+1 calls and k sleeps, ending with that call |
| `Generic.ExhaustsWhenNoneSucceed` | src/LinusShops/Contexts/Generic.php:28-42 | if no call in the budget returns strict `true`, the poll throws the exhaustion message after exactly max(attempts, 0) calls and the same number of sleeps, one after the last failure too |
| `Generic.NoBudgetThrowsAtOnce` | src/LinusShops/Contexts/Generic.php:28-42 | with attempts <= 0 the probe is never called, nothing sleeps, and the exhaustion exception is thrown at once |
| `Generic.ReachesAttempt` | src/LinusShops/Contexts/Generic.php:29-37 | every call up to the first success is made, and each call after the first follows a sleep: a returned non-`true` value or a swallowed exception never ends the poll |
| `Generic.OnlyStrictSuccessMatters` | src/LinusShops/Contexts/Generic.php:29-35 | two probes that succeed at the same indices give the same result with the same numbers of calls and sleeps, so an exception, `false`, `null` and a truthy non-boolean are one and the same failed attempt |
| `Generic.TruthyValueIsRetried` | src/LinusShops/Contexts/Generic.php:19-37 | a first call returning a truthy value other than `true` itself (such as 1 or "yes") does not end the poll: the poller sleeps and calls the probe a second time |
| `Generic.RoundsShape` | src/LinusShops/Contexts/Generic.php:28-38 | n failed attempts produce 2n events, n calls and n sleeps, each call followed by its sleep, in order of the call index |
| `Generic.FalseFalseTrueScenario` | src/LinusShops/Contexts/Generic.php:26-43 | a probe returning false, false, true with a budget of 3 returns normally after 3 calls and 2 sleeps |
| `Generic.AlwaysThrowsScenario` | src/LinusShops/Contexts/Generic.php:26-43 | a probe that always throws, with a budget of 2, ends in "Step did not succeed after 2 attempts." after 2 calls and 2 sleeps |
| `Generic.TenAttemptsMessage` | src/LinusShops/Contexts/Generic.php:40-42 | with the default budget the exhaustion message reads "Step did not succeed after 10 attempts." |
| `Generic.IntToString` | src/LinusShops/Contexts/Generic.php:40-42 | the interpolated integer begins with '-' exactly when it is negative, and the characters after it are decimal digits without a leading zero that spell the integer's absolute value, so the exhaustion message carries the attempt count for every budget |
| `Generic.Assert` | src/LinusShops/Contexts/Generic.php:66-71 | passes iff the condition holds; otherwise throws the given message |
| `Generic.MessageOr` | src/LinusShops/Contexts/Generic.php:83 | a missing message or the empty string selects the default; every other message is kept |
| `Generic.LooseNullMessage` | src/LinusShops/Contexts/Generic.php:79-85 | `$msg == null` turns null into "" before comparing, so "" selects the default but "0" is kept: `assertEqual(1, 2, "0")` throws "0" |
| `Generic.AssertEqual` | src/LinusShops/Contexts/Generic.php:79-85 | passes iff expected equals actual; otherwise throws the caller's message or "Expected {expected} to equal {actual}" |
| `Generic.AssertLessThan` | src/LinusShops/Contexts/Generic.php:107-113 | passes iff expected < actual; otherwise throws the caller's message or the default one |
| `Generic.AssertGreaterThan` | src/LinusShops/Contexts/Generic.php:121-127 | passes iff expected > actual; otherwise throws the caller's message or the default one |
| `Generic.LowerBound` | src/LinusShops/Contexts/Generic.php:137-138 | the lower bound is expected - range clamped at 0: never negative, never below expected - range |
| `Generic.AssertValueInRange` | src/LinusShops/Contexts/Generic.php:135-142 | passes iff max(0, expected - range) <= actual <= expected + range; otherwise throws a message naming both bounds and the value |
| `Generic.RangeNeverAdmitsNegativesOrNegativeRange` | src/LinusShops/Contexts/Generic.php:137-140 | a negative actual value, or a negative range, always fails the range assertion |
| `Generic.Map` | src/LinusShops/Contexts/Generic.php:152-155 | the result has the length of the items and its i-th element is the function applied to the i-th item |
| `Web.Throwing` | src/LinusShops/Contexts/Web.php:281-286 | a passing check completes; a failing one raises an expectation exception carrying its message |
| `Web.IsVisible` | src/LinusShops/Contexts/Web.php:264-272 | no element found means not visible; otherwise the element's own visibility |
| `Web.AssertIsVisible` | src/LinusShops/Contexts/Web.php:309-312 | passes iff an element is found and it is visible; otherwise "{selector} is not visible on page" |
| `Web.AssertIsNotVisible` | src/LinusShops/Contexts/Web.php:320-323 | passes iff no element is found or it is hidden; otherwise "{selector} is visible on page" |
| `Web.Click` | src/LinusShops/Contexts/Web.php:206-213 | clicks iff the lookup found an element, and then that element; on a null lookup throws "{selector} not found on the page" and clicks nothing |
| `Web.Doubleclick` | src/LinusShops/Contexts/Web.php:223-230 | double-clicks iff the lookup found an element, and then that element; on a null lookup throws "{selector} not found on the page" |
| `Web.AtLeastOneVisibleProbe` | src/LinusShops/Contexts/Web.php:127-138 | the probe returns `true` iff some found node is visible and `false` otherwise, including for an empty list |
| `Web.ClickFirstVisibleElementOfType` | src/LinusShops/Contexts/Web.php:240-256 | clicks exactly one node, the first visible one in list order; throws "No visible {selector} element found." and clicks nothing iff no node is visible; it succeeds exactly when the at-least-one-visible probe returns `true` |
| `Web.ExistenceProbe` | src/LinusShops/Contexts/Web.php:83-92 | `false` exactly when the existence assertion throws element-not-found, `true` exactly when it passes; any other exception escapes the probe |
| `Web.VisibilityProbe` | src/LinusShops/Contexts/Web.php:102-111 | `false` exactly when the visibility assertion throws an expectation exception, `true` exactly when it passes; any other exception escapes |
| `Web.VisibilityProbeIsIsVisible` | src/LinusShops/Contexts/Web.php:102-111 | on a looked-up element the visibility probe returns exactly `isVisible` of that element |
| `Web.ElementTextProbe` | src/LinusShops/Contexts/Web.php:142-151 | the probe never returns strict `true`: unless a non-expectation exception escapes, it returns `null`, whether or not the text assertion held |
| `Web.ElementTextProbeIntended` | src/LinusShops/Contexts/Web.php:142-151 | the corrected probe succeeds exactly when the text assertion holds |
| `Web.VisibleTextProbe` | src/LinusShops/Contexts/Web.php:154-165 | `true` exactly when the page contains the text; a response-text miss yields `null`, which the poller retries |
| `Web.WaitForSelectorExistence` | src/LinusShops/Contexts/Web.php:81-93 | succeeds iff the existence assertion passes at some attempt within the budget |
| `Web.WaitForSelectorVisibility` | src/LinusShops/Contexts/Web.php:100-112 | succeeds iff some lookup within the budget finds a visible element |
| `Web.WaitForAtLeastOneVisibleElementOfType` | src/LinusShops/Contexts/Web.php:125-140 | with the default 10 attempts, succeeds iff some attempt finds at least one visible node |
| `Web.WaitForElementText` | src/LinusShops/Contexts/Web.php:142-152 | always makes all 10 calls and 10 sleeps and throws "Step did not succeed after 10 attempts.", whatever the page does |
| `Web.WaitForElementTextIntended` | src/LinusShops/Contexts/Web.php:142-152 | the corrected step succeeds iff the text assertion passes at some of the 10 attempts |
| `Web.WaitForVisibleText` | src/LinusShops/Contexts/Web.php:154-165 | succeeds iff the page-text assertion passes at some of the 10 attempts |
| `Web.FindFirst` | src/LinusShops/Contexts/Web.php:333-337 | finds the first index where the pattern occurs, or reports that it occurs nowhere |
| `Web.ValueRun` | src/LinusShops/Contexts/Web.php:334 | captures the longest run after the match with no '&' or '#', ending at one of them or at the end of the URL |
| `Web.QueryStringValue` | src/LinusShops/Contexts/Web.php:332-337 | there is no capture iff "name=" occurs nowhere in the URL; otherwise the capture is the run after its first occurrence |
| `Web.AssertQueryStringParameterValue` | src/LinusShops/Contexts/Web.php:330-344 | passes iff the captured value equals the expected one; throws "Parameter {name} does not exist in querystring" without a match, and "{captured} does not match expected {expected}" on a mismatch |
| `Web.QueryStringMatchesInsideLongerName` | src/LinusShops/Contexts/Web.php:333-337 | as written, asking for "id" in "/p?pid=5&id=7" captures "5", the value of "pid", and the assertion that id is 7 fails |
| `Web.FindParameter` | src/LinusShops/Contexts/Web.php:333-337 | finds the first index where "name=" starts a whole parameter, right after '?' or '&' |
| `Web.ParameterValue` | src/LinusShops/Contexts/Web.php:333-337 | there is no capture iff no whole parameter has the name; otherwise the capture is that parameter's value |
| `Web.AssertQueryStringParameterValueIntended` | src/LinusShops/Contexts/Web.php:330-344 | the corrected assertion passes iff the parameter with exactly that name has the expected value |
| `Web.ParameterValueMatchesWholeName` | src/LinusShops/Contexts/Web.php:330-344 | with whole-name matching, "/p?pid=5&id=7" yields "7" for "id" and the assertion passes |

## Left out

- `takeScreenshotAfterFailedStep` (`Web.php:35-53`): it writes files, reads the clock and takes screenshot bytes from the driver. All of that is I/O.
- `setViewportSize`, `getElementByCssSelector`, `getElementsByCssSelector`, `assertElementExists`: they only pass a call to the browser library. Their results are inputs of the model.
- `wait` (`Generic.php:54-57`): no real time passes. Each sleep is a `Slept` event in the trace.
- `mapElements` (`Web.php:355-364`): it passes a single node, not an array, to `map`, so what it does depends on PHP's runtime type errors.
- `reduce` (`Generic.php:157-160`): it only calls `array_reduce` without an initial value, so its behaviour is the PHP library's.
- `assertExactlyEqual` (`Generic.php:93-99`): on integers, `===` and `==` agree, so its pass condition is the same as `AssertEqual`'s. Only its default message differs: "Expected {expected} to exactly equal {actual}" instead of "to equal". It is not modelled.
- `Generic.AssertEqual`, `Generic.AssertLessThan`, `Generic.AssertGreaterThan`, `Generic.AssertValueInRange`: they are modelled on unbounded integers only. PHP's loose comparison of other types is not modelled. Neither is the overflow of a 64-bit int into a float.
- `Web.AssertQueryStringParameterValue`: the captured value is compared by string equality. PHP's loose `==` would also equate numeric strings such as "1" and "01".
- `Generic.WaitFor`: a negative `waitInterval` is recorded as a `Slept` event and the loop goes on. In PHP 8, `sleep` rejects a negative argument with a `ValueError`. That call is outside the `try` (`Generic.php:37`), so the error would leave `waitFor` after the first failed attempt. The model does not capture that error.
- `Generic.Map`: the result is a sequence. `array_map` on a single array keeps that array's keys (`Generic.php:154`), and a `seq` has no keys.
- `Web.QueryStringValue`: the parameter name is placed inside a `/…/` pattern. A name containing the delimiter `/` breaks the pattern, and that case is not modelled.
- `Web.QueryStringValue`: it models only the `name=([^&#]*)` pattern for a name without regular-expression metacharacters. The general regex engine is not modelled.
- Exceptions thrown by the element lookups themselves (`find`, `findAll`) inside the visibility probes are not modelled. The lookup results are the inputs.
- The closure's `$context` argument and the driver object attached to each `ExpectationException` carry no logic and are left out.
- A probe that raises a PHP `\Error` (not an `\Exception`) would escape `waitFor`. Only exceptions are modelled.
- Probe return values are booleans, null, integers and strings. Floats, arrays and objects are not modelled.
- `src/LinusShops/Contexts/Magento.php`: its only method throws a pending-step exception and has no logic.

## Findings

| source | as written | input that shows it | evidently intended | confidence | as-written member | corrected member |
|---|---|---|---|---|---|---|
| src/LinusShops/Contexts/Web.php:142-151 | the closure of `waitForElementText` has no `return`, so it gives `null` even when the text assertion passes, and the poller never sees `true` | any page, including one where the element holds the text at the first attempt: the step throws after 10 attempts | return `true` once `assertElementContainsText` passes, as `waitForVisibleText` does | high; not executed | `Web.WaitForElementText` | `Web.WaitForElementTextIntended` |
| src/LinusShops/Contexts/Web.php:333-337 | the pattern `{name}=([^&#]*)` is not anchored to a parameter boundary, so it matches inside a longer parameter name | name "id", URL "/p?pid=5&id=7": captures "5", so asserting id = 7 fails | match only a parameter that starts right after '?' or '&' | medium; not executed | `Web.QueryStringMatchesInsideLongerName` | `Web.AssertQueryStringParameterValueIntended` |
