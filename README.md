# HoneyGain bot: countdown, balance and cycle decisions in Dafny

`bot.js` logs into the Honeygain dashboard with a headless browser, reads the displayed
balance, and then either waits out the "Next pot available in …" countdown or clicks the
claim button and reads the balance again. It schedules itself with `setTimeout` forever.
Most of the file drives the browser. This model covers the part that decides things:

- `wrappers.dfy`: the `Option` type. It stands for a regex that did not match, or an element that was not found.
- `text.dfy` (module `Text`): the string vocabulary of the source.
  - `\d` and `\s` of JavaScript regular expressions (`IsSpace` is the ECMAScript WhiteSpace and LineTerminator set, which `trim` also removes).
  - `String.prototype.trim`, `includes`, ASCII case folding.
  - `FirstMatch`, the left-to-right scan a regular expression without the `g` flag performs. `FirstSome` is the "first element that yields something" loop.
- `countdown.dfy` (module `Countdown`): `parseCountdownText` and `timeToMilliseconds`.
  - The pattern `/(\d+) hours (\d+) min (\d+) sec/` is an anchored matcher (`MatchAt`) plus the leftmost scan.
  - `parseInt(…, 10)` on the captured digits is `DecimalValue`.
- `balance.dfy` (module `Balance`): the pattern `/Current Balance\s*([\d,.]+)/i`.
  - The text scan over the page's `div`, `span` and `p` elements.
  - The four balance strategies of `runCycle`, tried in order while `balanceFound` is false.
- `cycle.dfy` (module `Cycle`): the rest of `runCycle` and all of `login`.
  - The countdown test and the wait it computes.
  - The retry loop of `login`.
  - The outcome of one cycle and the delay it schedules.
  - The class `Bot` holding the module globals `isFirstRun` and `browser` (`browserOpen`).
  - A loop that chains cycles the way `setTimeout(runCycle, …)` does.

Page reads become abstract inputs: `CycleInput`, `SessionInput`, `ClaimInput` and `BalanceProbe` say what each Puppeteer call saw or whether it threw.

Behaviour of the code worth noting:
- Only the plural `" hours "` is accepted. A singular "hour" makes the parse fall back to zero.
- A countdown is waited out even when it parses as zero. The wait is then the 20-second grace period.
- "Balance incremented" is string inequality of the two readings. It is not a numeric comparison with locale separators normalised.
- There is no claim-label allow-list, no remembered locator index, no escalating backoff and no webhook notifier.
- Any failure inside the claim branch, including a failed reload or a missing second balance, is caught by the inner handler. It leads to the 5-minute retry, not to the 60-second error path.

## Model

| member | source | states |
|---|---|---|
| `Countdown.MatchAt` | bot.js:26-27 | An anchored match has three non-empty digit captures, and the text begins with `<h> hours <m> min <s> sec` built from them |
| `Countdown.MatchAtComplete` | bot.js:26-27 | Every text that begins with such a rendering matches with exactly those captures: greedy `\d+` followed by a space has one possible match |
| `Countdown.ParseCountdownText` | bot.js:24-40 | When the pattern matches at no position, the result is `(0,0,0)` and no error is raised |
| `Countdown.ParseLeftmost` | bot.js:26-35 | A countdown phrase embedded in text, with no match starting earlier, parses to exactly its three numbers |
| `Countdown.ParseRoundTrip` | bot.js:24-35 | Parsing `"<h> hours <m> min <s> sec"` for any naturals gives back `(h, m, s)` |
| `Countdown.MatchStartsAtDigitRun` | bot.js:26-27 | The leftmost match never starts inside a digit run, so whole digit runs are captured |
| `Countdown.ZeroWithoutHoursWord` | bot.js:37-39 | Text without `" hours "` (for instance the singular "hour") parses as `(0,0,0)` |
| `Countdown.ParseCommentExample` | bot.js:25 | `"06 hours 23 min 28 sec"` parses as `(6, 23, 28)` |
| `Countdown.DecimalValue` | bot.js:31-33 | `parseInt(…, 10)` of a run of `n` decimal digits is below `10^n`, and `DecimalValue(Numeral(n)) == n` |
| `Countdown.Numeral` | bot.js:31-33 | `parseInt` of the decimal numeral of `n` is `n`, and the numeral is a digit run |
| `Countdown.TimeToMilliseconds` | bot.js:43-45 | The result is a multiple of 1000, and it is 0 exactly for `(0,0,0)` |
| `Countdown.MillisecondsRoundTrip` | bot.js:43-45 | Every whole number of seconds in milliseconds is the conversion of its normalised duration |
| `Countdown.DurationRoundTrip` | bot.js:43-45 | A duration with minutes and seconds below 60 is recovered from its milliseconds |
| `Text.FirstMatch` | bot.js:27 | The leftmost scan returns the first position where the anchored pattern matches, or none exactly when no position matches |
| `Text.Trim` | bot.js:335 | `trim` removes only white space, from both ends, and leaves a text that neither begins nor ends with white space |
| `Text.TrimUnique` | bot.js:335 | A text that neither begins nor ends with white space is what `trim` leaves of it with white space around it |
| `Text.IndexOfIgnoreCase` | bot.js:335 | The first position where the phrase occurs with case ignored, or none exactly when it occurs nowhere |
| `Balance.BalanceAt` | bot.js:228 | An anchored balance match is the case-insensitive label, white space, then a maximal non-empty run of `[0-9,.]` |
| `Balance.BalanceAtComplete` | bot.js:228 | Whenever the label, white space and a maximal run begin the text, the capture is that run: the greedy `\s*` is the only choice |
| `Balance.ExtractBalance` | bot.js:228-232 | The capture is a non-empty run of `[0-9,.]`; `None` exactly when no position matches |
| `Balance.ExtractBalanceLeftmost` | bot.js:228-232 | The capture follows the leftmost label occurrence that has a run after it; earlier occurrences without one are skipped |
| `Balance.ExtractBalanceExample` | bot.js:228 | `"Current Balance 1,234.50 USD"` yields `"1,234.50"` |
| `Balance.ExtractBalanceIgnoresCase` | bot.js:228 | `"CURRENT BALANCE\n12.5"` yields `"12.5"`: label case is ignored and a line break is white space |
| `Balance.ElementBalance` | bot.js:265-270 | An element contributes only when its text includes the label exactly, case and all, and then it contributes the pattern's capture; the emptiness test adds nothing |
| `Balance.OriginalBalance` | bot.js:218-235 | When the element is found, the reading is the pattern's capture over its text, a non-empty run of `[0-9,.]`; with no reading, the pattern matches nowhere in that text |
| `Balance.GenericBalance` | bot.js:291-304 | Present exactly when the element is found. The reading is the element's text with white space removed from both ends: what remains neither begins nor ends with white space, so by `Text.TrimUnique` it is the trim. There is no check that it is a number |
| `Balance.FirstElementBalance` | bot.js:248-259 | The scan yields `None` exactly when no element yields a balance, otherwise the balance of the first element that does |
| `Balance.ScanElements` | bot.js:264-276 | The loop with its early return computes the text scan |
| `Balance.SelectBalance` | bot.js:193-312 | The balance is missing exactly when all four strategies fail. Otherwise it comes from the first strategy that yields one, in the order container span, original selector, text scan, generic selector |
| `Balance.ReadBalance` | bot.js:193-312 | The step-by-step `balanceFound` updates compute the strategy order of `SelectBalance` |
| `Cycle.IsCountdownText` | bot.js:333 | An exact occurrence of the phrase is always detected, and a text shorter than the phrase never is |
| `Cycle.IsCountdownTextIgnoresCase` | bot.js:333-335 | The lower-cased `includes` test holds exactly when the case-insensitive `replace` finds the phrase |
| `Cycle.TimePart` | bot.js:335 | The result is the trimming of the text with the first case-insensitive occurrence of the phrase cut out (of the whole text when there is none). When the phrase is found, the result is shorter than the text by at least the phrase. In both cases it neither begins nor ends with white space |
| `Cycle.CountdownWait` | bot.js:339-340 | The wait is at least 20000 ms, even for unparsable text, and a whole number of seconds |
| `Cycle.CountdownWaitRendered` | bot.js:333-340 | `"Next pot available in <h> hours <m> min <s> sec"` is a countdown, and its wait is `timeToMilliseconds(h, m, s) + 20000` |
| `Cycle.Login` | bot.js:72-94 | At most 3 attempts. It succeeds exactly when one of them does, at the first that does, after 30 s per earlier failure. Otherwise it fails after the third |
| `Cycle.SessionReady` | bot.js:99-184 | A first run is ready when the page and credentials are there, one of the three login attempts goes through and the URL is the dashboard; a later run when the reload succeeds. `Cycle.Bot.RunCycle` computes it with the `Login` loop |
| `Cycle.CycleOutcome` | bot.js:97-531 | A cycle that does not fail had its session ready; a claim needs the button clicked and the page reloaded; a wait or an empty claim reports the balance the strategies read |
| `Cycle.NextDelay` | bot.js:340-529 | A countdown outcome waits its own computed time; otherwise the delay is 60000 ms exactly for a failure and 300000 ms exactly for a claim or nothing to claim |
| `Cycle.CycleOutcomeCases` | bot.js:310-508 | A cycle fails exactly when session setup or the balance read fails. It waits out a countdown exactly when the countdown text carries the phrase, for `CountdownWait` of that text. It claims exactly when it neither fails nor waits, the button is clicked, the page reloads and the second balance read succeeds |
| `Cycle.NextDelayPerOutcome` | bot.js:340-529 | The next delay is 60000 ms after a failure and 300000 ms after a claim or nothing to claim. After a countdown it is the countdown wait. Always at least 20000 ms |
| `Cycle.ClaimIncrementIsStringInequality` | bot.js:494-500 | A claim compares the two balance readings, and "incremented" holds exactly when the strings differ |
| `Cycle.LaterCyclesIgnoreSession` | bot.js:179-184 | Once logged in, a cycle's outcome does not depend on the login inputs |
| `Cycle.Bot.constructor` | bot.js:67-69 | A fresh bot has `isFirstRun` set and no browser |
| `Cycle.Bot.RunCycle` | bot.js:97-531 | One cycle produces `CycleOutcome` and its delay. `isFirstRun` is set again exactly after a failure, and the browser is closed exactly then |
| `Cycle.Bot.Run` | bot.js:526-534 | Chained cycles: each one is a first run exactly when it is the first cycle or follows a failed one, and each delay is that of its outcome |

## Left out

- Puppeteer: launching, `goto`, `reload`, `waitForSelector`, `click`, `type`, `$eval` and the CSS selectors. Each becomes a boolean or an optional text in the cycle inputs. The page is a live third-party site.
- `waitForFunction` polling: the text scan is evaluated once over the element texts. Changes to the page between polls are not modelled.
- Date and time formatting (`getCurrentDateTime`, `getFutureDateTime`), console output and the `toFixed(2)` minutes display. They affect logging only.
- `setTimeout` and `page.waitForTimeout`: only the chosen delays are modelled (and the 30 s between login attempts, as `waitedMs`). The timer itself is not. Node replaces a delay above 2^31 - 1 ms with 1 ms, so a countdown of about 596.5 hours or more would start the next cycle almost at once, while `NextDelay` gives the full value.
- Cycle.Bot.RunCycle: sets `isFirstRun` at the end of a failed cycle. The source sets it in the 60-second timer callback, just before the next cycle, and nothing reads it in between.
- Closing the browser after an error: the model records that it is closed. An error from `close` is swallowed in the source and does not change the outcome.
- SIGINT and SIGTERM handlers, and `process.env` reads: credentials are the boolean `credentialsSet`.
- The "browser does not support JavaScript" check and the optional initial button. The first only logs, and errors from the second are swallowed.
- `parseInt` beyond safe integers: numbers are unbounded naturals.
- Unicode: the model works on code points, not UTF-16 code units, and folds ASCII letters only.
  - Both patterns are pure ASCII.
  - In JavaScript, no non-ASCII character matches an ASCII letter under the `i` flag without `u`.
  - No non-ASCII character lower-cases into a way to complete "next pot available in".
  - So the model's case-insensitive comparisons agree with the source's.
- `Numeral` does not come from the source. It is a right inverse of `parseInt` (`DecimalValue(Numeral(n)) == n`), used to state the parse round trip.
- `FromMilliseconds` does not come from the source. It is the inverse used to state the round trips of `timeToMilliseconds`.
