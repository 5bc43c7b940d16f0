/**
 The decisions of `runCycle` and `login` in bot.js, with every page interaction replaced
 by an abstract input: whether the login form was reached, whether each login attempt
 went through, what each balance strategy saw, the countdown element's text, and
 whether the claim button was found and the page reloaded after clicking it.
 */
module Cycle {
  import opened Wrappers
  import opened Text
  import opened Countdown
  import opened Balance

  /** The label whose presence marks the countdown element. */
  const CountdownPhrase := "Next pot available in"
  /** Added to the countdown before the next cycle. */
  const GraceMs := 20000
  /** Delay after a claim, and after finding neither countdown nor claim button. */
  const ClaimIntervalMs := 300000
  /** Delay before re-launching the browser after an error. */
  const ErrorRetryMs := 60000
  const LoginAttempts := 3
  const LoginRetryMs := 30000
  /** What the URL after a successful login must contain. */
  const DashboardMarker := "dashboard.honeygain.com/"

  /** `countdownText.toLowerCase().includes("next pot available in")`. */
  predicate IsCountdownText(text: string): (b: bool)
    ensures Contains(text, CountdownPhrase) ==> b
    ensures b ==> |text| >= |CountdownPhrase|
  {
    ContainsLower(text, CountdownPhrase);
    Contains(Lower(text), Lower(CountdownPhrase))
  }

  /** The lower-casing test agrees with the case-insensitive search that `replace` performs. */
  lemma {:induction false} IsCountdownTextIgnoresCase(text: string)
    ensures IsCountdownText(text) <==> IndexOfIgnoreCase(text, CountdownPhrase).Some?
  {
    var p := CountdownPhrase;
    forall i | 0 <= i <= |text|
      ensures StartsWith(Lower(text)[i..], Lower(p)) <==> StartsWithIgnoreCase(text[i..], p)
    {
      LowerSuffix(text, i);
      if |p| <= |text[i..]| {
        LowerPrefix(text[i..], |p|);
      }
    }
    if IsCountdownText(text) {
      var i :| 0 <= i <= |Lower(text)| && StartsWith(Lower(text)[i..], Lower(p));
      assert StartsWithIgnoreCase(text[i..], p);
    }
    if IndexOfIgnoreCase(text, p).Some? {
      var i := IndexOfIgnoreCase(text, p).value;
      assert StartsWith(Lower(text)[i..], Lower(p));
    }
  }

  /** The text with the phrase found at `i` cut out. */
  function WithoutPhraseAt(text: string, i: nat): string
    requires i + |CountdownPhrase| <= |text|
  {
    text[..i] + text[i + |CountdownPhrase|..]
  }

  /** `countdownText.replace(/Next pot available in/i, '').trim()`. */
  function TimePart(text: string): (r: string)
    ensures IndexOfIgnoreCase(text, CountdownPhrase).Some? ==> |r| <= |text| - |CountdownPhrase|
    ensures r != [] ==> !IsSpace(r[0]) && !IsSpace(r[|r| - 1])
    ensures match IndexOfIgnoreCase(text, CountdownPhrase)
            case Some(i) => exists j :: IsTrimmingOf(r, WithoutPhraseAt(text, i), j)
            case None => exists j :: IsTrimmingOf(r, text, j)
  {
    match IndexOfIgnoreCase(text, CountdownPhrase)
    case Some(i) =>
      var u := WithoutPhraseAt(text, i);
      var r := Trim(u);
      assert |r| <= |text| - |CountdownPhrase|;
      assert exists j :: IsTrimmingOf(r, u, j);
      r
    case None =>
      var r := Trim(text);
      assert exists j :: IsTrimmingOf(r, text, j);
      r
  }

  /** `timeToMilliseconds(parseCountdownText(timePart)) + 20000`. */
  function CountdownWait(text: string): (ms: nat)
    ensures ms >= GraceMs && ms % 1000 == 0
  {
    var d := ParseCountdownText(TimePart(text));
    WholeSecondsAfterGrace(TimeToMilliseconds(d));
    TimeToMilliseconds(d) + GraceMs
  }

  lemma WholeSecondsAfterGrace(ms: nat)
    requires ms % 1000 == 0
    ensures (ms + GraceMs) % 1000 == 0
  {
  }

  /**
   A countdown reading the phrase, a space and `"<h> hours <m> min <s> sec"` makes the
   bot wait exactly that long plus the grace period.
   */
  lemma {:induction false} CountdownWaitRendered(h: nat, m: nat, s: nat)
    ensures var text := CountdownPhrase + " " + Render(Captures(Numeral(h), Numeral(m), Numeral(s)));
            IsCountdownText(text)
            && CountdownWait(text) == TimeToMilliseconds(Duration(h, m, s)) + GraceMs
  {
    var body := Render(Captures(Numeral(h), Numeral(m), Numeral(s)));
    RenderNotPadded(Captures(Numeral(h), Numeral(m), Numeral(s)));
    TimePartAfterPhrase(body);
    ParseRoundTrip(h, m, s);
  }

  /** A rendering starts with a digit and ends with the `c` of `sec`, so trimming leaves it alone. */
  lemma RenderNotPadded(c: Captures)
    requires WellFormed(c)
    ensures var body := Render(c);
            body != [] && !IsSpace(body[0]) && !IsSpace(body[|body| - 1])
  {
    var body := Render(c);
    assert body[0] == c.hours[0];
    assert body[|body| - 1] == 'c';
  }

  /** The phrase is found at the very start of a text that begins with it. */
  lemma PhraseAtStart(rest: string)
    ensures IndexOfIgnoreCase(CountdownPhrase + rest, CountdownPhrase) == Some(0)
  {
    var text := CountdownPhrase + rest;
    assert text[0..][..|CountdownPhrase|] == CountdownPhrase;
    assert StartsWithIgnoreCase(text[0..], CountdownPhrase);
  }

  /** After the phrase and a space, the time part is the rest of the text when that is already trimmed. */
  lemma {:induction false} TimePartAfterPhrase(body: string)
    requires body != [] && !IsSpace(body[0]) && !IsSpace(body[|body| - 1])
    ensures IsCountdownText(CountdownPhrase + " " + body)
    ensures TimePart(CountdownPhrase + " " + body) == body
  {
    var text := CountdownPhrase + " " + body;
    assert text == CountdownPhrase + (" " + body);
    assert StartsWith(text[0..], CountdownPhrase);
    PhraseAtStart(" " + body);
    assert WithoutPhraseAt(text, 0) == " " + body;
    TrimLeadingSpace(body);
  }

  lemma {:induction false} TrimLeadingSpace(body: string)
    requires body != [] && !IsSpace(body[0]) && !IsSpace(body[|body| - 1])
    ensures Trim(" " + body) == body
  {
    var padded := " " + body;
    assert padded[1..1 + |body|] == body && padded[..1] == " " && padded[1 + |body|..] == [];
    assert IsTrimmingOf(body, padded, 1);
    TrimUnique(padded, body, 1);
  }

  /** The outcome of `login`: the attempt that went through, or the error thrown after the last one. */
  datatype LoginResult =
    | LoggedIn(attempt: nat, waitedMs: nat)
    | LoginFailed(attempts: nat, waitedMs: nat)

  /** Some attempt among the three `login` makes goes through. */
  predicate LoginSucceedsWithin(succeeds: nat -> bool) {
    exists k | 1 <= k <= LoginAttempts :: succeeds(k)
  }

  /**
   `login`: up to three attempts, `succeeds(k)` telling whether attempt `k` reached the
   dashboard; 30 seconds pass between attempts and the third failure throws.
   */
  method Login(succeeds: nat -> bool) returns (r: LoginResult)
    ensures r.LoggedIn? <==> exists k :: 1 <= k <= LoginAttempts && succeeds(k)
    ensures r.LoggedIn? ==> 1 <= r.attempt <= LoginAttempts && succeeds(r.attempt)
    ensures r.LoggedIn? ==> forall k :: 1 <= k < r.attempt ==> !succeeds(k)
    ensures r.LoggedIn? ==> r.waitedMs == (r.attempt - 1) * LoginRetryMs
    ensures r.LoginFailed? ==> r.attempts == LoginAttempts && r.waitedMs == (LoginAttempts - 1) * LoginRetryMs
  {
    var waited := 0;
    var attempt := 1;
    while attempt <= LoginAttempts
      invariant 1 <= attempt <= LoginAttempts
      invariant forall k :: 1 <= k < attempt ==> !succeeds(k)
      invariant waited == (attempt - 1) * LoginRetryMs
    {
      if succeeds(attempt) {
        return LoggedIn(attempt, waited);
      }
      if attempt == LoginAttempts {
        return LoginFailed(attempt, waited);
      }
      waited := waited + LoginRetryMs;
      attempt := attempt + 1;
    }
  }

  /** How the first part of a cycle went when it had to launch the browser and log in. */
  datatype SessionInput = SessionInput(
    pageReady: bool,           // launch, `goto` and the wait for the login fields all succeeded
    credentialsSet: bool,      // EMAIL and PASSWORD are both set and non-empty
    loginSucceeds: nat -> bool,
    urlAfterLogin: string)

  /** How the claim branch went: button found and clicked, page reloaded, and what the second balance read saw. */
  datatype ClaimInput = ClaimInput(buttonClicked: bool, reloaded: bool, after: BalanceProbe)

  /** Everything one run of `runCycle` learns from the page. */
  datatype CycleInput = CycleInput(
    session: SessionInput,     // consulted on a first run only
    reloaded: bool,            // the dashboard reload of later runs succeeded
    balance: BalanceProbe,
    countdownText: Option<string>,  // text of the countdown element, `None` if it did not appear
    claim: ClaimInput)

  /** How a cycle ended, which decides when the next one starts. */
  datatype Outcome =
    | Waiting(balance: string, waitMs: nat)
    | Claimed(before: string, after: string, incremented: bool)
    | NothingToClaim(balance: string)
    | Failed

  /** The delay `runCycle` passes to `setTimeout` for each way a cycle can end. */
  function NextDelay(o: Outcome): (ms: nat)
    ensures o.Waiting? ==> ms == o.waitMs
    ensures !o.Waiting? ==> (ms == ErrorRetryMs <==> o.Failed?) && (ms == ClaimIntervalMs <==> !o.Failed?)
  {
    match o
    case Waiting(_, w) => w
    case Claimed(_, _, _) => ClaimIntervalMs
    case NothingToClaim(_) => ClaimIntervalMs
    case Failed => ErrorRetryMs
  }

  /** The session part of a cycle raised no error: login on a first run, the reload otherwise. */
  predicate SessionReady(firstRun: bool, c: CycleInput) {
    if firstRun then
      c.session.pageReady && c.session.credentialsSet
      && LoginSucceedsWithin(c.session.loginSucceeds)
      && Contains(c.session.urlAfterLogin, DashboardMarker)
    else c.reloaded
  }

  /** The outcome of one cycle, as a function of whether it is a first run and of what the page shows. */
  function CycleOutcome(firstRun: bool, c: CycleInput): (o: Outcome)
    ensures !o.Failed? ==> SessionReady(firstRun, c)
    ensures o.Claimed? ==> c.claim.buttonClicked && c.claim.reloaded
    ensures o.Waiting? || o.NothingToClaim? ==> SelectBalance(c.balance) == Some(o.balance)
  {
    if !SessionReady(firstRun, c) then Failed
    else
      match SelectBalance(c.balance)
      case None => Failed
      case Some(before) =>
        if c.countdownText.Some? && IsCountdownText(c.countdownText.value) then
          Waiting(before, CountdownWait(c.countdownText.value))
        else if c.claim.buttonClicked && c.claim.reloaded && SelectBalance(c.claim.after).Some? then
          var after := SelectBalance(c.claim.after).value;
          Claimed(before, after, after != before)
        else NothingToClaim(before)
  }

  /**
   A cycle fails exactly when the session could not be set up or refreshed or no
   balance strategy succeeded; it waits out the countdown exactly when it did not fail
   and the countdown element's text carries the phrase, and then for the computed wait.
   */
  lemma {:induction false} CycleOutcomeCases(firstRun: bool, c: CycleInput)
    ensures var o := CycleOutcome(firstRun, c);
            (o.Failed? <==> !SessionReady(firstRun, c) || SelectBalance(c.balance).None?)
            && (o.Waiting? <==> !o.Failed? && c.countdownText.Some? && IsCountdownText(c.countdownText.value))
            && (o.Waiting? ==> o.waitMs == CountdownWait(c.countdownText.value))
            && (o.Claimed? <==> !o.Failed? && !o.Waiting? && c.claim.buttonClicked && c.claim.reloaded
                                && SelectBalance(c.claim.after).Some?)
  {
  }

  /**
   The next cycle starts 60 seconds after a failure, 5 minutes after a claim or after
   finding nothing to claim, and never sooner than the grace period after a countdown.
   */
  lemma {:induction false} NextDelayPerOutcome(firstRun: bool, c: CycleInput)
    ensures var o := CycleOutcome(firstRun, c);
            var ms := NextDelay(o);
            ms >= GraceMs && ms % 1000 == 0
            && (o.Failed? ==> ms == ErrorRetryMs)
            && (o.Claimed? || o.NothingToClaim? ==> ms == ClaimIntervalMs)
            && (o.Waiting? ==> ms == CountdownWait(c.countdownText.value))
  {
    var o := CycleOutcome(firstRun, c);
    CycleOutcomeCases(firstRun, c);
    match o
    case Waiting(_, w) =>
      assert NextDelay(o) == w;
    case Failed =>
      assert NextDelay(o) == ErrorRetryMs && ErrorRetryMs % 1000 == 0;
    case _ =>
      assert NextDelay(o) == ClaimIntervalMs && ClaimIntervalMs % 1000 == 0;
  }

  /** "Balance incremented" is string inequality of the two readings, not a numeric comparison. */
  lemma {:induction false} ClaimIncrementIsStringInequality(firstRun: bool, c: CycleInput)
    requires CycleOutcome(firstRun, c).Claimed?
    ensures var o := CycleOutcome(firstRun, c);
            o.before == SelectBalance(c.balance).value
            && o.after == SelectBalance(c.claim.after).value
            && (o.incremented <==> o.after != o.before)
  {
  }

  /** Once logged in, a cycle no longer looks at the login inputs. */
  lemma {:induction false} LaterCyclesIgnoreSession(c: CycleInput, s: SessionInput)
    ensures CycleOutcome(false, c) == CycleOutcome(false, c.(session := s))
  {
  }

  /** Whether cycle `k` of a run runs as a first run, given the outcomes of the cycles before it. */
  function FirstRunAt(firstRun: bool, outcomes: seq<Outcome>, k: nat): bool
    requires k <= |outcomes|
  {
    if k == 0 then firstRun else outcomes[k - 1].Failed?
  }

  /** Outcome `k` is what cycle `k` yields when a failure makes the following cycle log in again. */
  predicate Chained(firstRun: bool, inputs: seq<CycleInput>, outcomes: seq<Outcome>, k: nat)
    requires k < |inputs| && k < |outcomes|
  {
    outcomes[k] == CycleOutcome(FirstRunAt(firstRun, outcomes, k), inputs[k])
  }

  /** Appending the outcome of the next cycle keeps every earlier outcome chained. */
  lemma {:induction false} ChainStep(firstRun: bool, inputs: seq<CycleInput>, done: seq<Outcome>, o: Outcome)
    requires |done| < |inputs|
    requires forall j :: 0 <= j < |done| ==> Chained(firstRun, inputs, done, j)
    requires o == CycleOutcome(FirstRunAt(firstRun, done, |done|), inputs[|done|])
    ensures forall j :: 0 <= j <= |done| ==> Chained(firstRun, inputs, done + [o], j)
    ensures FirstRunAt(firstRun, done + [o], |done| + 1) == o.Failed?
  {
    var next := done + [o];
    forall j | 0 <= j <= |done| ensures Chained(firstRun, inputs, next, j) {
      assert FirstRunAt(firstRun, next, j) == FirstRunAt(firstRun, done, j) by {
        if j > 0 {
          assert next[j - 1] == done[j - 1];
        }
      }
      if j < |done| {
        assert Chained(firstRun, inputs, done, j);
        assert next[j] == done[j];
      } else {
        assert next[j] == o;
      }
    }
  }

  /** The module globals `isFirstRun` and `browser` of bot.js. */
  class Bot {
    var isFirstRun: bool
    var browserOpen: bool

    /** A later run reloads the page of the browser the first run opened. */
    ghost predicate Valid()
      reads this
    {
      !isFirstRun ==> browserOpen
    }

    constructor ()
      ensures Valid() && isFirstRun && !browserOpen
    {
      isFirstRun := true;
      browserOpen := false;
    }

    /**
     `runCycle`: set up or refresh the session, read the balance, then wait out the
     countdown or claim. Returns the delay it schedules the next cycle after.
     */
    method RunCycle(c: CycleInput) returns (outcome: Outcome, delayMs: nat)
      requires Valid()
      modifies this
      ensures Valid()
      ensures outcome == CycleOutcome(old(isFirstRun), c)
      ensures delayMs == NextDelay(outcome)
      ensures isFirstRun == outcome.Failed?
      ensures browserOpen == !outcome.Failed?
    {
      var ready: bool;
      if isFirstRun {
        browserOpen := true;
        ready := c.session.pageReady && c.session.credentialsSet;
        if ready {
          var login := Login(c.session.loginSucceeds);
          ready := login.LoggedIn? && Contains(c.session.urlAfterLogin, DashboardMarker);
        }
        if ready {
          isFirstRun := false;
        }
      } else {
        // A later run reloads the page of the browser the first run left open.
        assert browserOpen;
        ready := c.reloaded;
      }
      var balance := None;
      if ready {
        balance := ReadBalance(c.balance);
      }
      if !ready || balance.None? {
        // The outer catch: close the browser and log in again after 60 seconds.
        browserOpen := false;
        isFirstRun := true;
        outcome := Failed;
        return outcome, ErrorRetryMs;
      }
      var before := balance.value;
      if c.countdownText.Some? && IsCountdownText(c.countdownText.value) {
        var waitMs := CountdownWait(c.countdownText.value);
        outcome := Waiting(before, waitMs);
        return outcome, waitMs;
      }
      // Not a countdown: look for the claim button; any error here is caught and retried in 5 minutes.
      outcome := NothingToClaim(before);
      if c.claim.buttonClicked && c.claim.reloaded {
        var after := ReadBalance(c.claim.after);
        if after.Some? {
          outcome := Claimed(before, after.value, after.value != before);
        }
      }
      delayMs := ClaimIntervalMs;
    }

    /**
     Cycles one after the other, as `setTimeout(runCycle, delay)` chains them: each
     cycle is a first run exactly when it is the bot's first or follows a failed one.
     */
    method Run(inputs: seq<CycleInput>) returns (outcomes: seq<Outcome>, delays: seq<nat>)
      requires Valid()
      modifies this
      ensures Valid()
      ensures |outcomes| == |delays| == |inputs|
      ensures forall k :: 0 <= k < |inputs| ==> Chained(old(isFirstRun), inputs, outcomes, k)
      ensures forall k :: 0 <= k < |delays| ==> delays[k] == NextDelay(outcomes[k])
      ensures isFirstRun == FirstRunAt(old(isFirstRun), outcomes, |inputs|)
      ensures browserOpen == if |inputs| == 0 then old(browserOpen) else !outcomes[|inputs| - 1].Failed?
    {
      outcomes, delays := [], [];
      for k := 0 to |inputs|
        invariant Valid()
        invariant |outcomes| == |delays| == k
        invariant isFirstRun == FirstRunAt(old(isFirstRun), outcomes, k)
        invariant browserOpen == if k == 0 then old(browserOpen) else !outcomes[k - 1].Failed?
        invariant forall j :: 0 <= j < k ==> Chained(old(isFirstRun), inputs, outcomes, j)
        invariant forall j :: 0 <= j < k ==> delays[j] == NextDelay(outcomes[j])
      {
        var o, d := RunCycle(inputs[k]);
        ChainStep(old(isFirstRun), inputs, outcomes, o);
        outcomes, delays := outcomes + [o], delays + [d];
      }
    }
  }
}
