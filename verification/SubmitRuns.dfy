/** What the protocol does on pages that behave in a known way, and runs that show what its error flag leaves open. */
module SubmitRuns {
  import opened Wrappers
  import opened Errors
  import opened AnswerWait
  import opened PageLog
  import opened SubmitProtocol

  /** The prompt executed on a page whose set-up goes well. */
  method RunFresh(script: nat -> Reply, polls: nat -> Poll, start: Millis, prompt: string, settings: Settings)
    returns (page: Page, r: Try<string>)
    requires TicksAlways(settings, polls) && IsReady(script, 0, settings.settleMs)
    ensures Determined(script, 10, polls, start, prompt, settings, page.attempts, r)
    ensures Follows(prompt, page.before, page.attempts, page.threw, r)
  {
    page := new Page(script, polls, start);
    r := page.ExecutePrompt(prompt, settings);
  }

  /**
   * A page on which everything can be found and the wait ends in an answer: the answer is returned, sent by one click.
   */
  method RunOnSmoothPage(
    script: nat -> Reply, polls: nat -> Poll, start: Millis, prompt: string, settings: Settings, answer: string)
    returns (page: Page, r: Try<string>)
    requires TicksAlways(settings, polls)
    requires IsReady(script, 0, settings.settleMs) && SendsByButton(script, 10, prompt) && !script(25).throws
    requires Yields(SettingAt(settings, script, 10), polls, start, answer)
    ensures r == Fine(answer) && ButtonSent(page.attempts)
  {
    page, r := RunFresh(script, polls, start, prompt, settings);
    SmoothEnds(script, polls, start, prompt, settings, answer, page.before, page.attempts, page.threw, r);
  }

  lemma SmoothEnds(
    script: nat -> Reply, polls: nat -> Poll, start: Millis, prompt: string, settings: Settings, answer: string,
    before: seq<Event>, attempts: seq<Attempt>, threw: bool, r: Try<string>)
    requires Determined(script, 10, polls, start, prompt, settings, attempts, r)
    requires SendsByButton(script, 10, prompt) && !script(25).throws
    requires Yields(SettingAt(settings, script, 10), polls, start, answer)
    requires Follows(prompt, before, attempts, threw, r)
    ensures r == Fine(answer) && ButtonSent(attempts)
  {
    Concluded(SettingAt(settings, script, 10), polls, start, true, r, answer);
  }

  /**
   * A page without a button, and without an input box by the time the button is given up, that nevertheless shows a
   * bubble and an answer: the run is reported as submitted by Enter, and nothing was pressed.
   */
  method RunOnBarrenPage(
    script: nat -> Reply, polls: nat -> Poll, start: Millis, prompt: string, settings: Settings, answer: string)
    returns (page: Page, r: Try<string>)
    requires TicksAlways(settings, polls)
    requires IsReady(script, 0, settings.settleMs) && SendsNothing(script, 10, prompt) && !script(30).throws
    requires Yields(SettingAt(settings, script, 10), polls, start, answer)
    ensures r == Failed(Error(SubmitDegraded, Some(true))) && page.attempts == []
  {
    page, r := RunFresh(script, polls, start, prompt, settings);
    BarrenEnds(script, polls, start, prompt, settings, answer, page.attempts, r);
  }

  lemma BarrenEnds(
    script: nat -> Reply, polls: nat -> Poll, start: Millis, prompt: string, settings: Settings, answer: string,
    attempts: seq<Attempt>, r: Try<string>)
    requires Determined(script, 10, polls, start, prompt, settings, attempts, r)
    requires SendsNothing(script, 10, prompt) && !script(30).throws
    requires Yields(SettingAt(settings, script, 10), polls, start, answer)
    ensures r == Failed(Error(SubmitDegraded, Some(true))) && attempts == []
  {
    Concluded(SettingAt(settings, script, 10), polls, start, false, r, answer);
  }

  // ------------------------------------------------------------------ such pages exist

  const ANSWER := "A complete answer."
  const PATIENT: Settings :=
    Settings(AnswerWait.Config(600_000, 1_000, 1, 180_000), (text: string) => text, 15_000, true)

  /** A page that shows one finished answer at every poll. */
  const ANSWERING: nat -> Poll :=
    (i: nat) => Poll(100_000 + 1_000 * i, true, None, Some([Candidate(ANSWER, false, false)]), Some(false), true,
                     100_000 + 1_000 * i, 100_000 + 1_000 * i, true)

  lemma AnsweringYields(urlKnown: bool)
    ensures TicksAlways(PATIENT, ANSWERING)
    ensures Yields(SettingFor(PATIENT, [], urlKnown), ANSWERING, 0, ANSWER)
  {
    var s := SettingFor(PATIENT, [], urlKnown);
    var candidates := [Candidate(ANSWER, false, false)];
    assert forall t :: t in PLACEHOLDERS ==> |t| <= 4;
    assert |ANSWER| == 18;
    assert IsSubstantive(s, candidates[0]);
    assert AnswerAt(s, ANSWERING(0)) == ANSWER;
    assert candidates[0] in candidates && !Streams(s, ANSWERING(0));
    assert Explains(s, ANSWERING, 0, 0, Answered(ANSWER));
  }

  /** A reply that serves every purpose: nothing thrown, something there, no answers yet, the prompt in the box. */
  function Good(prompt: string): Reply {
    Reply(false, true, 0, prompt, [], Healthy, 0)
  }

  function Nothing(prompt: string, elapsed: nat): Reply {
    Reply(false, false, 0, prompt, [], Healthy, elapsed)
  }

  /** All goes well: no dialog at calls 11 and 18, a button at call 20. */
  function SmoothReply(prompt: string, i: nat): Reply {
    if i == 11 || i == 18 then Nothing(prompt, 0) else if i == 20 then Good(prompt).(count := 1) else Good(prompt)
  }

  /** No button for twenty seconds from call 20, no dialog at call 26, no input box for ten seconds from call 27. */
  function BarrenReply(prompt: string, i: nat): Reply {
    if i == 11 || i == 18 || i == 26 then Nothing(prompt, 0)
    else if i == 20 then Nothing(prompt, 20_000)
    else if i == 27 then Nothing(prompt, 10_000)
    else Good(prompt)
  }

  /** No dialog at call 11, and the query for the input box throws at call 12. */
  function FailingReply(prompt: string, i: nat): Reply {
    if i == 11 then Nothing(prompt, 0) else if i == 12 then Good(prompt).(throws := true) else Good(prompt)
  }

  /** Up to the hand-over all calls are good. */
  lemma ReadyWhenGood(script: nat -> Reply, prompt: string)
    requires forall i: nat :: i < 10 ==> script(i) == Good(prompt)
    ensures IsReady(script, 0, PATIENT.settleMs)
  {
    assert IsHealthy(script, 0) && Reaches(script, 1) && IsHealthy(script, 9);
    assert IsEmpty(script, 6, PATIENT.settleMs);
  }

  /** The prompt goes in and is read back, and no answer stands on the page. */
  lemma FillsWhenGood(script: nat -> Reply, prompt: string)
    requires script(10) == Good(prompt) && script(11) == Nothing(prompt, 0) && script(18) == Nothing(prompt, 0)
    requires script(19) == Good(prompt) && forall i: nat :: 12 <= i < 18 ==> script(i) == Good(prompt)
    ensures Fills(script, 11, prompt)
    ensures SettingAt(PATIENT, script, 10) == SettingFor(PATIENT, [], prompt != "")
  {
    assert Types(script, 13, prompt);
    assert TakesPrompt(script, 12, prompt);
  }

  method SmoothRun(prompt: string) returns (page: Page, r: Try<string>)
    ensures r == Fine(ANSWER) && ButtonSent(page.attempts)
  {
    var script := (i: nat) => SmoothReply(prompt, i);
    ReadyWhenGood(script, prompt);
    FillsWhenGood(script, prompt);
    AnsweringYields(prompt != "");
    assert Clickable(script, 20) && Shows(script, 24);
    page, r := RunOnSmoothPage(script, ANSWERING, 0, prompt, PATIENT, ANSWER);
  }

  lemma ShowsNothingToPress(script: nat -> Reply, prompt: string)
    requires forall i: nat :: script(i) == BarrenReply(prompt, i)
    ensures HasNothingToPress(script, 20) && Shows(script, 29) && !script(30).throws
  {
    assert HasNoButton(script, 20) && StaysAway(script, 27, 10_000);
  }

  /** A degraded submission in which nothing was pressed. */
  method DegradedWithoutAttempt(prompt: string) returns (page: Page, r: Try<string>)
    ensures r == Failed(Error(SubmitDegraded, Some(true))) && page.attempts == []
  {
    var script := (i: nat) => BarrenReply(prompt, i);
    ReadyWhenGood(script, prompt);
    FillsWhenGood(script, prompt);
    AnsweringYields(prompt != "");
    ShowsNothingToPress(script, prompt);
    page, r := RunOnBarrenPage(script, ANSWERING, 0, prompt, PATIENT, ANSWER);
  }

  /**
   * The page fails before the prompt is typed: the flag says that the prompt was submitted, and nothing was attempted.
   */
  method FlagWithoutAttempt(prompt: string) returns (page: Page, r: Try<string>)
    ensures r == Failed(Error(UnknownError, Some(true))) && page.attempts == []
  {
    var script := (i: nat) => FailingReply(prompt, i);
    ReadyWhenGood(script, prompt);
    AnsweringYields(true);
    page, r := RunFresh(script, ANSWERING, 0, prompt, PATIENT);
  }
}
