/**
 * Executing one prompt on a page that may answer anything. The page is an oracle; what the protocol does to it is
 * kept as two logs: everything of note before the first attempt to send, and the attempts. A third log keeps what the
 * page was asked; with the page's replies it determines the other two.
 */
module SubmitProtocol {
  import opened Wrappers
  import opened Text
  import opened Errors
  import opened AnswerWait
  import opened PageLog

  /** How an attempt to fill the input box ended. */
  datatype Fill = Verified | Unavailable | Mismatched

  datatype Settings = Settings(answer: AnswerWait.Config, normalize: string -> string, settleMs: nat, anonymous: bool)

  datatype Submission = Submission(baselineAnswers: seq<string>, sentByButton: bool, urlBeforeSend: string)

  // --------------------------------------------------------------- the safety properties

  /** The text without its white space. */
  function Strip(s: string): string {
    if s == "" then "" else if IsSpace(s[0]) then Strip(s[1..]) else [s[0]] + Strip(s[1..])
  }

  /** The last two events are read-backs of the prompt, modulo white space. */
  predicate EndsVerified(prompt: string, before: seq<Event>) {
    && |before| >= 2
    && before[|before| - 1].ReadBack? && Strip(before[|before| - 1].text) == Strip(prompt)
    && before[|before| - 2].ReadBack? && Strip(before[|before| - 2].text) == Strip(prompt)
  }

  /** The last events before a send: the prompt verified, then the answers already on the page. */
  predicate EndsPrepared(prompt: string, before: seq<Event>) {
    before != [] && before[|before| - 1].AnswersRead? && EndsVerified(prompt, before[..|before| - 1])
  }

  /** Two polls in a row found no answer on the page. */
  ghost predicate FreshConfirmed(before: seq<Event>) {
    exists i :: 0 <= i < |before| - 1 && before[i] == Polled(0) && before[i + 1] == Polled(0)
  }

  /** The last thing seen before the prompt was handed over is a healthy session. */
  ghost predicate HandedOverHealthy(before: seq<Event>) {
    exists i :: 0 <= i < |before| - 1 && before[i] == Inspected(Healthy) && before[i + 1] == Submitting
  }

  predicate EndsPolled(before: seq<Event>, answers: nat) {
    before != [] && before[|before| - 1] == Polled(answers)
  }

  predicate EndsInspected(before: seq<Event>, session: Session) {
    before != [] && before[|before| - 1] == Inspected(session)
  }

  /** Attempts that came to nothing, all of them on the button. */
  predicate OnlyMissed(attempts: seq<Attempt>) {
    forall i :: 0 <= i < |attempts| ==> attempts[i] == Attempt(Button, false)
  }

  /** Missed clicks, then at most one attempt of another kind: a completed click, or a press of Enter. */
  predicate SendsAtMostOnce(attempts: seq<Attempt>) {
    OnlyMissed(attempts) || OnlyMissed(attempts[..|attempts| - 1])
  }

  predicate ButtonSent(attempts: seq<Attempt>) {
    attempts != [] && attempts[|attempts| - 1] == Attempt(Button, true)
  }

  /** The prompt was handed over for submission and the input box did not refuse it. */
  predicate MayHaveBeenSent(before: seq<Event>) {
    Submitting in before && FillRejected !in before
  }

  /** What a run may have done when it ends with `outcome`. */
  ghost predicate Follows<T>(prompt: string, before: seq<Event>, attempts: seq<Attempt>, threw: bool, outcome: Try<T>) {
    && SendsAtMostOnce(attempts)
    && (Submitting in before ==> FreshConfirmed(before) && HandedOverHealthy(before))
    && (attempts != [] ==> EndsPrepared(prompt, before) && MayHaveBeenSent(before))
    && match outcome
       case Fine(_) => ButtonSent(attempts)
       case Failed(e) =>
         && e.promptSubmitted == Some(MayHaveBeenSent(before))
         && (e.code in {AnswerNotFound, Timeout, RateLimited, SubmitDegraded} ==>
           MayHaveBeenSent(before) && EndsPrepared(prompt, before))
         && (e.code.SubmitDegraded? ==> !ButtonSent(attempts))
         && (e.code.SubmissionFailed? ==>
           FillRejected in before || (MayHaveBeenSent(before) && EndsPrepared(prompt, before)))
         && (e.code.ConversationResetFailed? ==> Submitting !in before && !FreshConfirmed(before))
         && (e.code.VerificationRequired? ==> EndsInspected(before, Verification))
         && (e.code.AccessRestricted? ==> EndsInspected(before, Restricted))
         && (e.code.SessionExpired? || e.code.LoginRequired? ==> EndsInspected(before, Login))
         && (e.code.UnknownError? ==> threw)
  }

  /** How many attempts were completed. */
  function Completed(attempts: seq<Attempt>): nat {
    if attempts == [] then 0
    else Completed(attempts[..|attempts| - 1]) + if attempts[|attempts| - 1].completed then 1 else 0
  }

  lemma {:induction false} MissedCompleteNothing(attempts: seq<Attempt>)
    requires OnlyMissed(attempts)
    ensures Completed(attempts) == 0
  {
    if attempts != [] {
      MissedCompleteNothing(attempts[..|attempts| - 1]);
    }
  }

  /**
   * At most one send is completed, nothing is attempted after it, and a normal return means one completed click. The
   * flag is `false` only when nothing was attempted and `true` whenever something was. When the retry rule allows
   * another run, nothing was attempted either, unless the code is one of the two for which a second copy of the
   * question is accepted; after a completed click it is the one for a missing answer.
   */
  lemma {:induction false} ExecutionIsSafe<T>(
    prompt: string, before: seq<Event>, attempts: seq<Attempt>, threw: bool, outcome: Try<T>)
    requires Follows(prompt, before, attempts, threw, outcome)
    ensures Completed(attempts) <= 1
    ensures forall i :: 0 <= i < |attempts| && attempts[i].completed ==> i == |attempts| - 1
    ensures outcome.Fine? ==> Completed(attempts) == 1 && attempts[|attempts| - 1].means.Button?
    ensures outcome.Failed? && outcome.error.promptSubmitted == Some(false) ==> attempts == []
    ensures outcome.Failed? && attempts != [] ==> outcome.error.promptSubmitted == Some(true)
    ensures outcome.Failed? && CanRetryOutcome(outcome.error) ==>
      attempts == [] || outcome.error.code.AnswerNotFound? || outcome.error.code.SubmitDegraded?
    ensures outcome.Failed? && CanRetryOutcome(outcome.error) && ButtonSent(attempts) ==>
      outcome.error.code.AnswerNotFound?
  {
    if OnlyMissed(attempts) {
      MissedCompleteNothing(attempts);
    } else {
      var front := attempts[..|attempts| - 1];
      MissedCompleteNothing(front);
      assert forall i :: 0 <= i < |attempts| - 1 ==> !attempts[i].completed;
    }
  }

  // ------------------------------------------------------- when something is attempted

  /**
   * When a run attempted to send: exactly when the page showed an enabled control while the button was looked for, or
   * the input box while it was looked for to press Enter. So an error whose flag says that the prompt was submitted
   * belongs to a run without any attempt exactly when the prompt was handed over and not refused and the page showed
   * neither; and a submission that is reported as degraded pressed Enter exactly when the page showed the box.
   */
  lemma AttemptedIffOffered<T>(
    script: nat -> Reply, asked: seq<Call>, prompt: string, before: seq<Event>, attempts: seq<Attempt>, threw: bool,
    outcome: Try<T>)
    requires Follows(prompt, before, attempts, threw, outcome)
    requires LeadsTo(script, asked, Stage(Free, before, attempts))
    ensures attempts != [] <==> exists c: nat :: ShowsControl(script, asked, c) || ShowsBox(script, asked, c)
    ensures Tried(attempts, Button) <==> exists c: nat :: ShowsControl(script, asked, c)
    ensures Tried(attempts, Enter) <==> exists c: nat :: ShowsBox(script, asked, c)
    ensures NoneClicked(attempts) ==> Announced(script, asked, |asked|) == Looked(asked, |asked|)
    ensures outcome.Failed? ==>
      (outcome.error.promptSubmitted == Some(true) && attempts == []
       <==> MayHaveBeenSent(before) && !exists c: nat :: ShowsControl(script, asked, c) || ShowsBox(script, asked, c))
    ensures outcome.Failed? && outcome.error.code.SubmitDegraded? ==>
      (Completed(attempts) == 1 ==> exists c: nat :: ShowsBox(script, asked, c))
  {
    AttemptsAreOffers(script, asked, Stage(Free, before, attempts));
    if NoneClicked(attempts) {
      CandidatesLookedAt(script, asked, Stage(Free, before, attempts));
    }
    if attempts != [] {
      assert attempts[0].means.Button? ==> Tried(attempts, Button);
      assert attempts[0].means.Enter? ==> Tried(attempts, Enter);
    }
    if Completed(attempts) == 1 && !ButtonSent(attempts) {
      EnterCompleted(attempts);
    }
  }

  lemma EnterCompleted(attempts: seq<Attempt>)
    requires SendsAtMostOnce(attempts) && Completed(attempts) == 1 && !ButtonSent(attempts)
    ensures Tried(attempts, Enter)
  {
    if OnlyMissed(attempts) {
      MissedCompleteNothing(attempts);
    } else {
      MissedCompleteNothing(attempts[..|attempts| - 1]);
    }
  }

  // --------------------------------------------------------- what the page showed before

  /** The call read the prompt back from the input box, modulo white space. */
  ghost predicate ReadsPrompt(script: nat -> Reply, asked: seq<Call>, c: nat, prompt: string) {
    c < |asked| && exists text :: Tells(script, asked, c, ReadBack(text)) && Strip(text) == Strip(prompt)
  }

  /** The last three things of note come from three calls, and nothing is learned in between or behind. */
  lemma PreparedByCalls(script: nat -> Reply, asked: seq<Call>, stages: seq<Stage>, prompt: string)
    returns (c: nat, d: nat, e: nat)
    requires Run(script, asked, stages) && EndsPrepared(prompt, stages[|asked|].before)
    ensures ReadsPrompt(script, asked, c, prompt) && ReadsPrompt(script, asked, d, prompt)
    ensures Tells(script, asked, e, AnswersRead(script(e).texts))
    ensures NothingBetween(script, asked, c, d) && NothingBetween(script, asked, d, e)
    ensures NothingBetween(script, asked, e, |asked|) && |stages[c].before| == |stages[|asked|].before| - 3
  {
    var before := stages[|asked|].before;
    var n := |before|;
    assert before[..n - 1][n - 2] == before[n - 2] && before[..n - 1][n - 3] == before[n - 3];
    c := EventFromCall(script, asked, stages, |asked|, n - 3);
    d := EventFromCall(script, asked, stages, |asked|, n - 2);
    e := EventFromCall(script, asked, stages, |asked|, n - 1);
    assert Tells(script, asked, c, ReadBack(before[n - 3].text));
    assert Tells(script, asked, d, ReadBack(before[n - 2].text));
    OneAfterTheOther(script, asked, stages, c, d);
    OneAfterTheOther(script, asked, stages, d, e);
    OneAfterTheOther(script, asked, stages, e, |asked|);
  }

  lemma OneAfterTheOther(script: nat -> Reply, asked: seq<Call>, stages: seq<Stage>, c: nat, d: nat)
    requires Run(script, asked, stages) && c < |asked| && d <= |asked| && ReportOf(asked[c], script(c)) != []
    requires |stages[d].before| == |stages[c].before| + 1
    ensures NothingBetween(script, asked, c, d)
  {
    CallsInOrder(script, asked, stages, c, d);
    NothingLearned(script, asked, stages, c, d);
  }

  lemma EarlierThanPrepared(prompt: string, before: seq<Event>, i: nat)
    requires EndsPrepared(prompt, before) && i < |before| && (before[i].Polled? || before[i].Inspected?)
    ensures i < |before| - 3
  {
    var n := |before|;
    assert before[..n - 1][n - 2] == before[n - 2] && before[..n - 1][n - 3] == before[n - 3];
  }

  /** What was found before the prompt was typed comes from a call before the call `c` that read it back. */
  lemma EarlierCall(
    script: nat -> Reply, asked: seq<Call>, stages: seq<Stage>, prompt: string, i: nat, c: nat) returns (h: nat)
    requires Run(script, asked, stages) && c < |asked| && |stages[c].before| == |stages[|asked|].before| - 3
    requires EndsPrepared(prompt, stages[|asked|].before) && i < |stages[|asked|].before|
    requires stages[|asked|].before[i].Polled? || stages[|asked|].before[i].Inspected?
    ensures Tells(script, asked, h, stages[|asked|].before[i]) && |stages[h].before| == i && h < c
  {
    EarlierThanPrepared(prompt, stages[|asked|].before, i);
    h := EventFromCall(script, asked, stages, |asked|, i);
    CallsInOrder(script, asked, stages, h, c);
  }

  lemma PolledByCalls(script: nat -> Reply, asked: seq<Call>, stages: seq<Stage>, prompt: string, c: nat)
    returns (p: nat, q: nat)
    requires Run(script, asked, stages) && c < |asked| && |stages[c].before| == |stages[|asked|].before| - 3
    requires EndsPrepared(prompt, stages[|asked|].before) && FreshConfirmed(stages[|asked|].before)
    ensures Tells(script, asked, p, Polled(0)) && Tells(script, asked, q, Polled(0))
    ensures NothingBetween(script, asked, p, q) && q < c
  {
    var before := stages[|asked|].before;
    var i :| 0 <= i < |before| - 1 && before[i] == Polled(0) && before[i + 1] == Polled(0);
    p := EarlierCall(script, asked, stages, prompt, i, c);
    q := EarlierCall(script, asked, stages, prompt, i + 1, c);
    OneAfterTheOther(script, asked, stages, p, q);
  }

  lemma InspectedByCall(script: nat -> Reply, asked: seq<Call>, stages: seq<Stage>, prompt: string, c: nat)
    returns (h: nat)
    requires Run(script, asked, stages) && c < |asked| && |stages[c].before| == |stages[|asked|].before| - 3
    requires EndsPrepared(prompt, stages[|asked|].before) && HandedOverHealthy(stages[|asked|].before)
    ensures Tells(script, asked, h, Inspected(Healthy)) && h < c
  {
    var before := stages[|asked|].before;
    var i :| 0 <= i < |before| - 1 && before[i] == Inspected(Healthy) && before[i + 1] == Submitting;
    h := EarlierCall(script, asked, stages, prompt, i, c);
  }

  /**
   * What the page showed when something is clicked or pressed with call `k`: two polls in a row without an answer, a
   * healthy session, then the prompt read back twice in a row, then the answers so far; after that nothing is read.
   */
  lemma SendsOnlyAfterReading<T>(
    script: nat -> Reply, asked: seq<Call>, prompt: string, before: seq<Event>, attempts: seq<Attempt>, threw: bool,
    outcome: Try<T>, k: nat) returns (p: nat, q: nat, h: nat, c: nat, d: nat, e: nat)
    requires Follows(prompt, before, attempts, threw, outcome)
    requires LeadsTo(script, asked, Stage(Free, before, attempts)) && k < |asked| && IsSend(asked[k])
    ensures Tells(script, asked, p, Polled(0)) && Tells(script, asked, q, Polled(0))
    ensures Tells(script, asked, h, Inspected(Healthy))
    ensures ReadsPrompt(script, asked, c, prompt) && ReadsPrompt(script, asked, d, prompt)
    ensures Tells(script, asked, e, AnswersRead(script(e).texts))
    ensures NothingBetween(script, asked, p, q) && NothingBetween(script, asked, c, d)
    ensures NothingBetween(script, asked, d, e) && NothingBetween(script, asked, e, |asked|)
    ensures q < c && h < c && e < k
  {
    var stages :| Run(script, asked, stages) && stages[|asked|] == Stage(Free, before, attempts);
    AttemptsStay(script, asked, stages, k, |asked|);
    c, d, e := PreparedByCalls(script, asked, stages, prompt);
    p, q := PolledByCalls(script, asked, stages, prompt, c);
    h := InspectedByCall(script, asked, stages, prompt, c);
    SendsComeLast(script, asked, stages, e, k);
  }

  // ------------------------------------------------------------------------- the page

  class Page {
    const script: nat -> Reply
    const polls: nat -> Poll
    var calls: nat
    var now: Millis
    var threw: bool
    ghost var asked: seq<Call>
    ghost var before: seq<Event>
    ghost var attempts: seq<Attempt>

    /** The logs agree with each other and with the page, and `due` is what has to come next. */
    ghost predicate Logs(due: Due)
      reads this`calls, this`asked, this`before, this`attempts
    {
      |asked| == calls && LeadsTo(script, asked, Stage(due, before, attempts))
    }

    constructor (script: nat -> Reply, polls: nat -> Poll, now: Millis)
      ensures this.script == script && this.polls == polls && before == [] && attempts == [] && !threw
      ensures Logs(Free) && calls == 0 && this.now == now
    {
      this.script, this.polls, this.now := script, polls, now;
      calls, threw, asked, before, attempts := 0, false, [], [], [];
      new;
      assert Run(script, asked, [Stage(Free, before, attempts)]);
    }

    /** One awaited call on the page. */
    method Await() returns (r: Reply)
      modifies this`calls, this`now, this`threw
      ensures r == script(old(calls)) && calls == old(calls) + 1 && now == old(now) + r.elapsed
      ensures threw == (old(threw) || r.throws)
    {
      r := script(calls);
      calls := calls + 1;
      threw := threw || r.throws;
      now := now + r.elapsed;
    }

    /** A call that neither tells anything of note nor sends. */
    method Look(call: Call, ghost due: Due) returns (r: Reply)
      requires Logs(due) && Allows(due, call) && !IsReport(call) && !IsSend(call)
      modifies this`calls, this`now, this`threw, this`asked
      ensures Logs(Moved(due, call, r))
      ensures r == script(old(calls)) && calls == old(calls) + 1 && now == old(now) + r.elapsed
      ensures threw == (old(threw) || r.throws)
    {
      r := Await();
      LeadsOn(script, asked, Stage(due, before, attempts), call, Stage(Moved(due, call, r), before, attempts));
      asked := asked + [call];
    }

    /** A call whose reply only steers the code. */
    method Ask() returns (r: Reply)
      requires Logs(Free)
      modifies this`calls, this`now, this`threw, this`asked
      ensures Logs(Free)
      ensures r == script(old(calls)) && calls == old(calls) + 1 && now == old(now) + r.elapsed
      ensures threw == (old(threw) || r.throws)
    {
      r := Look(Other, Free);
    }

    /** A call that tells something of note. */
    method Report(call: Call) returns (r: Reply)
      requires Logs(Free) && attempts == [] && IsReport(call)
      modifies this`calls, this`now, this`threw, this`asked, this`before
      ensures Logs(Free) && before == old(before) + ReportOf(call, r)
      ensures r == script(old(calls)) && calls == old(calls) + 1 && now == old(now) + r.elapsed
      ensures threw == (old(threw) || r.throws)
    {
      r := Await();
      ghost var told := before + ReportOf(call, r);
      LeadsOn(script, asked, Stage(Free, before, attempts), call, Stage(Free, told, attempts));
      asked, before := asked + [call], told;
    }

    /** An attempt to send. */
    method Act(call: Call, ghost due: Due) returns (r: Reply)
      requires Logs(due) && Allows(due, call) && IsSend(call)
      modifies this`calls, this`now, this`threw, this`asked, this`attempts
      ensures Logs(Moved(due, call, r)) && attempts == old(attempts) + SentBy(call, r)
      ensures r == script(old(calls)) && calls == old(calls) + 1 && now == old(now) + r.elapsed
      ensures threw == (old(threw) || r.throws)
    {
      r := Await();
      ghost var sent := attempts + SentBy(call, r);
      LeadsOn(script, asked, Stage(due, before, attempts), call, Stage(Moved(due, call, r), before, sent));
      asked, attempts := asked + [call], sent;
    }

    /** `page.waitForTimeout(ms)`: not earlier than `ms` from now, if it does not throw. */
    method Wait(ms: nat) returns (r: Try<()>)
      requires Logs(Free)
      modifies this`calls, this`now, this`threw, this`asked
      ensures Logs(Free)
      ensures calls == old(calls) + 1 && now == old(now) + ms + script(old(calls)).elapsed
      ensures r == if script(old(calls)).throws then Failed(PAGE_ERROR) else Fine(())
      ensures r.Failed? ==> threw
    {
      var reply := Ask();
      now := now + ms;
      r := if reply.throws then Failed(PAGE_ERROR) else Fine(());
    }

    /** A query that lets its exception escape. */
    method Query() returns (r: Try<Reply>)
      requires Logs(Free)
      modifies this`calls, this`now, this`threw, this`asked
      ensures Logs(Free)
      ensures calls == old(calls) + 1 && now == old(now) + script(old(calls)).elapsed
      ensures r == if script(old(calls)).throws then Failed(PAGE_ERROR) else Fine(script(old(calls)))
      ensures r.Failed? ==> threw
    {
      var reply := Ask();
      r := if reply.throws then Failed(PAGE_ERROR) else Fine(reply);
    }

    /** Something of note that is the code's own doing. */
    ghost method Note(e: Event)
      requires Logs(Free) && attempts == [] && !IsPages(e)
      modifies this`before
      ensures Logs(Free) && before == old(before) + [e]
    {
      LeadsToNoted(script, asked, Stage(Free, before, attempts), e);
      before := before + [e];
    }

    // ------------------------------------------------------------------ before sending

    method WaitForTextbox(timeoutMs: nat, call: Call) returns (r: Try<bool>)
      requires Logs(Free) && (call.Other? || call.FindBoxToPress?)
      modifies this`calls, this`now, this`threw, this`asked
      ensures Logs(if call.FindBoxToPress? && r == Fine(true) then Pressing else Free)
      ensures now >= old(now)
      ensures r.Failed? ==> r.error == PAGE_ERROR && threw
      ensures timeoutMs > 0 && script(old(calls)).throws ==> r == Failed(PAGE_ERROR)
      ensures timeoutMs > 0 && Shows(script, old(calls)) ==> r == Fine(true) && calls == old(calls) + 1
      ensures timeoutMs > 0 && StaysAway(script, old(calls), timeoutMs) ==> r == Fine(false) && calls == old(calls) + 2
    {
      var deadline := now + timeoutMs;
      while now < deadline
        invariant Logs(Free)
        invariant now >= old(now) && calls >= old(calls) && (calls == old(calls) ==> now == old(now))
        invariant Shows(script, old(calls)) || script(old(calls)).throws ==> calls == old(calls)
        invariant StaysAway(script, old(calls), timeoutMs) && calls != old(calls) ==>
          calls == old(calls) + 2 && now >= deadline
        decreases deadline - now
      {
        var box := Look(call, Free);
        if box.throws {
          return Failed(PAGE_ERROR);
        }
        if box.yes {
          return Fine(true);
        }
        var _ :- Wait(500);
      }
      r := Fine(false);
    }

    /** Fails closed on every session that is not positively healthy. */
    method RequireHealthySession(settings: Settings) returns (r: Try<()>)
      requires settings.answer.pollMs > 0 && attempts == []
      requires Logs(Free)
      modifies this`calls, this`now, this`threw, this`asked, this`before
      ensures Logs(Free)
      ensures InspectedSince(old(before), before)
      ensures r.Fine? ==> |before| > |old(before)| && EndsInspected(before, Healthy)
      ensures r.Failed? ==> SessionRefused(r.error, before, threw)
      ensures now >= old(now)
      ensures IsHealthy(script, old(calls)) ==> r.Fine? && calls == old(calls) + 1
    {
      var deadline := now + if settings.answer.timeoutMs < 30_000 then settings.answer.timeoutMs else 30_000;
      var state :- InspectSession();
      while state.Unknown? && now < deadline
        invariant Logs(Free)
        invariant InspectedSince(old(before), before) && |before| > |old(before)| && EndsInspected(before, state)
        invariant now >= old(now) && (IsHealthy(script, old(calls)) ==> state.Healthy? && calls == old(calls) + 1)
        decreases deadline - now
      {
        var _ :- Wait(settings.answer.pollMs);
        state :- InspectSession();
      }
      if state.Healthy? {
        return Fine(());
      }
      var hadStoredAuth := false;
      if !settings.anonymous {
        var stored :- Query();
        hadStoredAuth := stored.yes;
      }
      var code := match state
        case Verification => VerificationRequired
        case Restricted => AccessRestricted
        case Login => if hadStoredAuth then SessionExpired else LoginRequired
        case _ => PageChanged;
      r := Failed(Error(code, None));
    }

    method InspectSession() returns (r: Try<Session>)
      requires attempts == []
      requires Logs(Free)
      modifies this`calls, this`now, this`threw, this`asked, this`before
      ensures Logs(Free)
      ensures now >= old(now)
      ensures r.Failed? ==> r.error == PAGE_ERROR && threw && before == old(before)
      ensures r.Fine? ==> before == old(before) + [Inspected(r.value)]
      ensures calls == old(calls) + 1
      ensures IsHealthy(script, old(calls)) ==> r == Fine(Healthy)
    {
      var reply := Report(Inspect);
      r := if reply.throws then Failed(PAGE_ERROR) else Fine(reply.session);
    }

    method PollAnswers() returns (r: Try<nat>)
      requires Logs(Free) && attempts == [] && Quiet(before) && !FreshConfirmed(before)
      modifies this`calls, this`now, this`threw, this`asked, this`before
      ensures Logs(Free) && Quiet(before)
      ensures r.Failed? ==> r.error == PAGE_ERROR && threw && before == old(before)
      ensures r.Fine? ==> before == old(before) + [Polled(r.value)]
      ensures r.Fine? ==>
        (FreshConfirmed(before) <==> EndsPolled(old(before), 0) && r.value == 0)
      ensures calls == old(calls) + 1 && now == old(now) + script(old(calls)).elapsed
      ensures !script(old(calls)).throws ==> r == Fine(script(old(calls)).count)
    {
      FreshNext(before, Polled(script(calls).count));
      var candidates := Report(CountAnswers);
      r := if candidates.throws then Failed(PAGE_ERROR) else Fine(candidates.count);
    }

    /** Confirms exactly when two polls in a row find no answer on the page. */
    method WaitForEmptyConversation(timeoutMs: nat) returns (r: Try<bool>)
      requires attempts == [] && NonePolled(before)
      requires Logs(Free)
      modifies this`calls, this`now, this`threw, this`asked, this`before
      ensures Logs(Free)
      ensures r.Failed? ==> r.error == PAGE_ERROR && threw
      ensures Quiet(before)
      ensures r.Fine? ==> (r.value <==> FreshConfirmed(before))
      ensures now >= old(now)
      ensures IsEmpty(script, old(calls), timeoutMs) ==> r == Fine(true) && calls == old(calls) + 3
    {
      var deadline := now + timeoutMs;
      var stableEmptyPolls := 0;
      ghost var empty := IsEmpty(script, calls, timeoutMs);
      while now < deadline
        invariant Logs(Free)
        invariant stableEmptyPolls <= 1 && Quiet(before) && !FreshConfirmed(before)
        invariant stableEmptyPolls == 1 <==> EndsPolled(before, 0)
        invariant now >= old(now)
        invariant empty ==> calls == old(calls) + 2 * stableEmptyPolls && now == old(now) + 400 * stableEmptyPolls
        decreases deadline - now
      {
        var candidates :- PollAnswers();
        if candidates == 0 {
          stableEmptyPolls := stableEmptyPolls + 1;
          if stableEmptyPolls >= 2 {
            return Fine(true);
          }
        } else {
          stableEmptyPolls := 0;
        }
        var _ :- Wait(400);
      }
      r := Fine(false);
    }

    /** Opens a new conversation by whatever control works, and empties the input box. */
    method OpenConversation() returns (r: Try<()>)
      requires Logs(Free)
      modifies this`calls, this`now, this`threw, this`asked
      ensures Logs(Free)
      ensures r.Failed? ==> r.error.promptSubmitted.None? && r.error.code in {PageChanged, NetworkError, UnknownError}
      ensures r.Failed? && r.error.code.UnknownError? ==> threw
      ensures now >= old(now)
      ensures Reaches(script, old(calls)) ==> r.Fine? && calls == old(calls) + 5
    {
      var _ :- Query();
      var clicked :- Query();
      if !clicked.yes {
        var reached :- Query();
        if !reached.yes {
          return Failed(Error(if reached.count == 0 then PageChanged else NetworkError, None));
        }
      }
      var box :- WaitForTextbox(30_000, Other);
      if !box {
        return Failed(Error(PageChanged, None));
      }
      var _ :- Query();
      r := Wait(400);
    }

    /** Opens a new conversation and reports whether it is empty. */
    method StartCleanConversation(settings: Settings) returns (r: Try<bool>)
      requires attempts == [] && NonePolled(before)
      requires Logs(Free)
      modifies this`calls, this`now, this`threw, this`asked, this`before
      ensures Logs(Free)
      ensures Quiet(before)
      ensures r.Failed? ==> r.error.promptSubmitted.None? && r.error.code in {PageChanged, NetworkError, UnknownError}
      ensures r.Failed? && r.error.code.UnknownError? ==> threw
      ensures r.Fine? ==> (r.value <==> FreshConfirmed(before))
      ensures now >= old(now)
      ensures Opens(script, old(calls), settings.settleMs) ==> r == Fine(true) && calls == old(calls) + 8
    {
      var _ :- OpenConversation();
      r := WaitForEmptyConversation(settings.settleMs);
    }

    /** Types the prompt and reads it back twice; gives up after three attempts rather than sending something else. */
    method FillVerifiedPrompt(prompt: string) returns (r: Try<()>)
      requires attempts == [] && !EndsRefused(before)
      requires Logs(Free)
      modifies this`calls, this`now, this`threw, this`asked, this`before
      ensures Logs(Free)
      ensures Since(old(before), before)
      ensures r.Fine? ==> EndsVerified(prompt, before) && !EndsRefused(before)
      ensures r.Failed? ==> r.error.code in {PageChanged, SubmissionFailed, UnknownError}
      ensures r.Failed? ==> r.error.promptSubmitted == if EndsRefused(before) then Some(false) else None
      ensures r.Failed? ==> EndsRefused(before) || (r.error.code.UnknownError? && threw)
      ensures r.Failed? && r.error.code.UnknownError? ==> threw
      ensures now >= old(now)
      ensures script(old(calls)).throws ==> r == Failed(PAGE_ERROR)
      ensures TakesPrompt(script, old(calls), prompt) ==> r.Fine? && calls == old(calls) + 6
    {
      var unavailable := false;
      for attempt := 1 to 4
        invariant Logs(Free) && OnlyReadBack(old(before), before)
        invariant now >= old(now)
        invariant TakesPrompt(script, old(calls), prompt) || script(old(calls)).throws ==>
          attempt == 1 && calls == old(calls)
      {
        var fill :- FillBox(prompt);
        if fill.Verified? {
          return Fine(());
        }
        unavailable := fill.Unavailable?;
        if attempt < 3 {
          var _ :- Wait(1_000);
        }
      }
      Note(FillRejected);
      assert before[|before| - 1].FillRejected?;
      r := Failed(Error(if unavailable then PageChanged else SubmissionFailed, Some(false)));
    }

    /** One attempt: finds the input box and fills it. */
    method FillBox(prompt: string) returns (r: Try<Fill>)
      requires attempts == []
      requires Logs(Free)
      modifies this`calls, this`now, this`threw, this`asked, this`before
      ensures Logs(Free)
      ensures OnlyReadBack(old(before), before)
      ensures r.Failed? ==> r.error == PAGE_ERROR && threw
      ensures r == Fine(Verified) ==> EndsVerified(prompt, before)
      ensures now >= old(now)
      ensures script(old(calls)).throws ==> r == Failed(PAGE_ERROR)
      ensures TakesPrompt(script, old(calls), prompt) ==> r == Fine(Verified) && calls == old(calls) + 6
    {
      var box :- WaitForTextbox(15_000, Other);
      if !box {
        return Fine(Unavailable);
      }
      var verified := FillOnce(prompt);
      r := Fine(if verified then Verified else Mismatched);
    }

    /** Clears the box, types the prompt and reads it back, at once and after a pause; every exception is caught. */
    method FillOnce(prompt: string) returns (verified: bool)
      requires attempts == []
      requires Logs(Free)
      modifies this`calls, this`now, this`threw, this`asked, this`before
      ensures Logs(Free)
      ensures OnlyReadBack(old(before), before)
      ensures verified ==> EndsVerified(prompt, before)
      ensures now >= old(now)
      ensures Types(script, old(calls), prompt) ==> verified && calls == old(calls) + 5
    {
      var cleared := Ask();
      if cleared.throws {
        return false;
      }
      var filled := Ask();
      if filled.throws {
        return false;
      }
      var actual := Report(ReadBox);
      if actual.throws {
        return false;
      }
      if Strip(actual.text) != Strip(prompt) {
        return false;
      }
      var pause := Wait(700);
      if pause.Failed? {
        return false;
      }
      var settled := Report(ReadBoxAgain);
      var text := if settled.throws then "" else settled.text;
      verified := Strip(text) == Strip(prompt);
    }

    // ------------------------------------------------------------------------- sending

    /** Tries the send button until it can be clicked, for up to 20 seconds. */
    method TryClickSend() returns (r: Try<bool>)
      requires OnlyMissed(attempts)
      requires Logs(Free)
      modifies this`calls, this`now, this`threw, this`asked, this`attempts
      ensures Logs(Free)
      ensures r.Failed? ==> r.error == PAGE_ERROR && threw
      ensures r == Fine(true) ==> ButtonSent(attempts) && OnlyMissed(attempts[..|attempts| - 1])
      ensures r != Fine(true) ==> OnlyMissed(attempts)
      ensures now >= old(now)
      ensures Clickable(script, old(calls)) ==> r == Fine(true) && calls == old(calls) + 4
      ensures HasNoButton(script, old(calls)) ==>
        r == Fine(false) && calls == old(calls) + 6 && attempts == old(attempts)
    {
      var deadline := now + 20_000;
      ghost var barren := HasNoButton(script, calls);
      while now < deadline
        invariant Logs(Free)
        invariant OnlyMissed(attempts) && now >= old(now) && calls >= old(calls)
          && (calls == old(calls) ==> now == old(now))
        invariant Clickable(script, old(calls)) ==> calls == old(calls)
        invariant barren ==> attempts == old(attempts)
        invariant barren && calls != old(calls) ==> calls == old(calls) + 6 && now >= deadline
        decreases deadline - now
      {
        var clicked :- TrySelectors();
        if clicked {
          return Fine(true);
        }
        var _ :- Wait(300);
      }
      r := Fine(false);
    }

    /** One round over the selectors of the send button. */
    method TrySelectors() returns (r: Try<bool>)
      requires OnlyMissed(attempts)
      requires Logs(Free)
      modifies this`calls, this`now, this`threw, this`asked, this`attempts
      ensures Logs(Free)
      ensures r.Failed? ==> r.error == PAGE_ERROR && threw
      ensures r == Fine(true) ==> ButtonSent(attempts) && OnlyMissed(attempts[..|attempts| - 1])
      ensures r != Fine(true) ==> OnlyMissed(attempts)
      ensures now >= old(now) && calls > old(calls)
      ensures Clickable(script, old(calls)) ==> r == Fine(true) && calls == old(calls) + 4
      ensures HasNoButton(script, old(calls)) ==>
        r == Fine(false) && calls == old(calls) + 5 && attempts == old(attempts) && now >= old(now) + 20_000
    {
      ghost var barren := HasNoButton(script, calls);
      for selector := 0 to SEND_SELECTORS
        invariant Logs(DueBefore(selector))
        invariant OnlyMissed(attempts) && now >= old(now) && calls >= old(calls) + selector
        invariant selector == 0 ==> calls == old(calls)
        invariant selector > 0 ==> !Clickable(script, old(calls))
        invariant barren ==> calls == old(calls) + selector && attempts == old(attempts)
        invariant barren && selector > 0 ==> now >= old(now) + 20_000
      {
        var clicked :- TrySelector(selector);
        if clicked {
          return Fine(true);
        }
      }
      r := Fine(false);
    }

    method TrySelector(selector: nat) returns (r: Try<bool>)
      requires OnlyMissed(attempts) && selector < SEND_SELECTORS
      requires Logs(DueBefore(selector))
      modifies this`calls, this`now, this`threw, this`asked, this`attempts
      ensures Logs(if r == Fine(false) then DueBefore(selector + 1) else Free)
      ensures r.Failed? ==> r.error == PAGE_ERROR && threw
      ensures r == Fine(true) ==> ButtonSent(attempts) && OnlyMissed(attempts[..|attempts| - 1])
      ensures r != Fine(true) ==> OnlyMissed(attempts)
      ensures now >= old(now) + script(old(calls)).elapsed && calls > old(calls)
      ensures Clickable(script, old(calls)) ==> r == Fine(true) && calls == old(calls) + 4
      ensures FindsNothing(script(old(calls))) ==>
        r == Fine(false) && calls == old(calls) + 1 && attempts == old(attempts)
    {
      var found := Look(CountButtons(selector), DueBefore(selector));
      if found.throws {
        return Failed(PAGE_ERROR);
      }
      var clicked := ClickLast(selector, Candidates(found.count));
      r := Fine(clicked);
    }

    /** Clicks the last visible and enabled candidate whose click does not throw. */
    method ClickLast(ghost selector: nat, count: nat) returns (clicked: bool)
      requires OnlyMissed(attempts)
      requires Logs(Round(selector, count))
      modifies this`calls, this`now, this`threw, this`asked, this`attempts
      ensures Logs(if clicked then Free else Round(selector, 0))
      ensures now >= old(now)
      ensures clicked ==> ButtonSent(attempts) && OnlyMissed(attempts[..|attempts| - 1])
      ensures !clicked ==> OnlyMissed(attempts)
      ensures calls >= old(calls)
      ensures count == 0 ==> !clicked && calls == old(calls) && attempts == old(attempts)
      ensures count > 0 && Clicks(script, old(calls)) ==> clicked && calls == old(calls) + 3
    {
      for index := count downto 0
        invariant Logs(Round(selector, index))
        invariant OnlyMissed(attempts) && now >= old(now) && calls >= old(calls)
        invariant index == count ==> calls == old(calls) && attempts == old(attempts)
        invariant index < count ==> !Clicks(script, old(calls))
      {
        var visible := Look(IsVisible, Looking(selector, index + 1));
        if !visible.throws && visible.yes {
          var enabled := Look(IsEnabled, Checking(selector, index));
          if !enabled.throws && enabled.yes {
            var click := Act(Click, Clicking(selector, index));
            if !click.throws {
              return true;
            }
          }
        }
      }
      clicked := false;
    }

    /** Presses Enter in the input box, if there is one; an exception of the press is swallowed. */
    method PressEnter() returns (r: Try<()>)
      requires OnlyMissed(attempts)
      requires Logs(Free)
      modifies this`calls, this`now, this`threw, this`asked, this`attempts
      ensures Logs(Free)
      ensures r.Failed? ==> r.error == PAGE_ERROR && threw
      ensures SendsAtMostOnce(attempts) && !ButtonSent(attempts)
      ensures now >= old(now)
      ensures StaysAway(script, old(calls), 10_000) ==> r.Fine? && calls == old(calls) + 2 && attempts == old(attempts)
    {
      var box :- WaitForTextbox(10_000, FindBoxToPress);
      if box {
        ghost var missed := attempts;
        var press := Act(Press, Pressing);
        assert attempts[..|attempts| - 1] == missed;
      }
      r := Fine(());
    }

    /** A promotion dialog is closed: how many, and how long it took, is up to the page. */
    method DismissPromoDialog() returns (r: Try<bool>)
      requires Logs(Free)
      modifies this`calls, this`now, this`threw, this`asked
      ensures Logs(Free)
      ensures calls == old(calls) + 1 && now >= old(now)
      ensures r == if script(old(calls)).throws then Failed(PAGE_ERROR) else Fine(script(old(calls)).yes)
      ensures r.Failed? ==> threw
    {
      var cover :- Query();
      r := Fine(cover.yes);
    }

    method SubmitPrompt(prompt: string) returns (r: Try<Submission>)
      requires attempts == [] && !EndsRefused(before)
      requires Logs(Free)
      modifies this`calls, this`now, this`threw, this`asked, this`before, this`attempts
      ensures Logs(Free)
      ensures Since(old(before), before)
      ensures SendsAtMostOnce(attempts)
      ensures attempts != [] ==> EndsPrepared(prompt, before)
      ensures EndsRefused(before) ==> attempts == [] && r.Failed?
      ensures r.Failed? ==> IsRefusal(before, threw, r.error)
      ensures r.Failed? && r.error.code.SubmissionFailed? ==> EndsRefused(before) || EndsPrepared(prompt, before)
      ensures r.Fine? ==> r.value.sentByButton == ButtonSent(attempts) && EndsPrepared(prompt, before)
      ensures r.Fine? ==> before[|before| - 1] == AnswersRead(r.value.baselineAnswers)
      ensures now >= old(now)
      ensures LosesBox(script, old(calls) + 1) ==> r == Failed(PAGE_ERROR) && attempts == []
      ensures r.Fine? ==> r.value.urlBeforeSend == script(old(calls)).text
      ensures SendsByButton(script, old(calls), prompt) ==>
        r == Fine(Submission(script(old(calls) + 9).texts, true, script(old(calls)).text)) && calls == old(calls) + 15
      ensures SendsNothing(script, old(calls), prompt) ==>
        && r == Fine(Submission(script(old(calls) + 9).texts, false, script(old(calls)).text))
        && calls == old(calls) + 20 && attempts == []
    {
      var urlBeforeSend := Ask();
      var baselineAnswers :- EnterPrompt(prompt);
      var sentByButton :- SendConfirmed();
      r := Fine(Submission(baselineAnswers, sentByButton, urlBeforeSend.text));
    }

    /**
     * The part of the submission before the send: dialogs out of the way, the prompt typed, the answers so far read.
     */
    method EnterPrompt(prompt: string) returns (r: Try<seq<string>>)
      requires attempts == [] && !EndsRefused(before)
      requires Logs(Free)
      modifies this`calls, this`now, this`threw, this`asked, this`before
      ensures Logs(Free)
      ensures Since(old(before), before)
      ensures r.Fine? ==> EndsPrepared(prompt, before) && before[|before| - 1] == AnswersRead(r.value)
      ensures r.Fine? ==> !EndsRefused(before)
      ensures r.Failed? ==> IsRefusal(before, threw, r.error) && (EndsRefused(before) || r.error.code.UnknownError?)
      ensures now >= old(now)
      ensures LosesBox(script, old(calls)) ==> r == Failed(PAGE_ERROR)
      ensures Fills(script, old(calls), prompt) ==> r == Fine(script(old(calls) + 8).texts) && calls == old(calls) + 9
    {
      var _ :- ClearDialog();
      var _ :- FillVerifiedPrompt(prompt);
      var _ :- ClearDialog();
      ghost var filled := before;
      var baseline := Report(ReadAnswers);
      if baseline.throws {
        return Failed(PAGE_ERROR);
      }
      PreparedFacts(prompt, old(before), filled, baseline.texts);
      r := Fine(baseline.texts);
    }

    /** Closes a promotion dialog if there is one, and gives the page a moment then. */
    method ClearDialog() returns (r: Try<()>)
      requires Logs(Free)
      modifies this`calls, this`now, this`threw, this`asked
      ensures Logs(Free)
      ensures r.Failed? ==> r.error == PAGE_ERROR && threw
      ensures now >= old(now)
      ensures ShowsNothing(script(old(calls))) ==> r.Fine? && calls == old(calls) + 1
    {
      var dismissed :- DismissPromoDialog();
      if dismissed {
        r := Wait(600);
      } else {
        r := Fine(());
      }
    }

    /** The send, and the page's confirmation that it took the prompt. */
    method SendConfirmed() returns (r: Try<bool>)
      requires attempts == []
      requires Logs(Free)
      modifies this`calls, this`now, this`threw, this`asked, this`attempts
      ensures Logs(Free)
      ensures SendsAtMostOnce(attempts)
      ensures r.Fine? ==> r.value == ButtonSent(attempts)
      ensures r.Failed? ==> r.error == Error(SubmissionFailed, None) || (r.error == PAGE_ERROR && threw)
      ensures now >= old(now)
      ensures Clickable(script, old(calls)) && Shows(script, old(calls) + 4) ==>
        r == Fine(true) && calls == old(calls) + 5
      ensures HasNothingToPress(script, old(calls)) && Shows(script, old(calls) + 9) ==>
        r == Fine(false) && calls == old(calls) + 10 && attempts == []
    {
      var sentByButton :- Send();
      var confirmed :- WaitForSubmissionConfirmation();
      r := if confirmed then Fine(sentByButton) else Failed(Error(SubmissionFailed, None));
    }

    /** Clicks the button; failing that, once more after closing a dialog; failing that, presses Enter. */
    method Send() returns (r: Try<bool>)
      requires attempts == []
      requires Logs(Free)
      modifies this`calls, this`now, this`threw, this`asked, this`attempts
      ensures Logs(Free)
      ensures r.Failed? ==> r.error == PAGE_ERROR && threw
      ensures SendsAtMostOnce(attempts)
      ensures r.Fine? ==> r.value == ButtonSent(attempts)
      ensures r.Failed? ==> !ButtonSent(attempts)
      ensures now >= old(now)
      ensures Clickable(script, old(calls)) ==> r == Fine(true) && calls == old(calls) + 4
      ensures HasNothingToPress(script, old(calls)) ==> r == Fine(false) && calls == old(calls) + 9 && attempts == []
    {
      var sentByButton :- TryClickSend();
      if !sentByButton {
        var cleared :- DismissPromoDialog();
        if cleared {
          var _ :- Wait(500);
          var retried :- TryClickSend();
          if retried {
            return Fine(true);
          }
        }
        var _ :- PressEnter();
      }
      r := Fine(sentByButton);
    }

    /** Up to 20 seconds for the page to show that it took the prompt. */
    method WaitForSubmissionConfirmation() returns (r: Try<bool>)
      requires Logs(Free)
      modifies this`calls, this`now, this`threw, this`asked
      ensures Logs(Free)
      ensures r.Failed? ==> r.error == PAGE_ERROR && threw
      ensures now >= old(now)
      ensures Shows(script, old(calls)) ==> r == Fine(true) && calls == old(calls) + 1
    {
      var deadline := now + 20_000;
      while now < deadline
        invariant Logs(Free)
        invariant now >= old(now) && (Shows(script, old(calls)) ==> calls == old(calls) && now == old(now))
        decreases deadline - now
      {
        var bubble :- Query();
        if bubble.yes {
          return Fine(true);
        }
        var moreAnswers :- Query();
        if moreAnswers.yes {
          return Fine(true);
        }
        var generating :- Query();
        if generating.yes {
          return Fine(true);
        }
        var url := Ask();
        if url.yes {
          return Fine(true);
        }
        var _ :- Wait(400);
      }
      r := Fine(false);
    }

    // ----------------------------------------------------------------------- execution

    method Answer(
      settings: Settings, submission: Submission) returns (r: Try<string>, ghost n: nat, ghost outcome: Outcome)
      requires Ticks(AnswerSetting(settings, submission), polls)
      modifies this`threw
      ensures Explains(AnswerSetting(settings, submission), polls, now, n, outcome) && Reports(outcome, r)
      ensures r.Failed? ==> (r.error.promptSubmitted.Some? ==> r.error.promptSubmitted.value)
      ensures r.Failed? ==>
        r.error.code in {PageChanged, RateLimited, NetworkError, UnknownError, AnswerNotFound, Timeout}
      ensures r.Failed? && r.error.code.UnknownError? ==> threw
    {
      var seen, at := WaitForAnswer(AnswerSetting(settings, submission), now, polls);
      n, outcome := at, seen;
      threw := threw || seen.PageFault?;
      match seen {
        case Answered(answer) => r := Fine(answer);
        case UnexpectedHost => r := Failed(Error(PageChanged, None));
        case ProviderError(failure) =>
          r := Failed(Error(if failure.Throttled? then RateLimited else NetworkError, None));
        case PageFault => r := Failed(PAGE_ERROR);
        case NoConversation => r := Failed(Error(AnswerNotFound, Some(true)));
        case Silent => r := Failed(Error(AnswerNotFound, Some(true)));
        case TimedOut(_) => r := Failed(Error(Timeout, None));
        case NoOutput => r := Failed(Error(AnswerNotFound, Some(true)));
      }
    }

    /** The part of the execution that runs before the prompt is handed over. */
    method Prepare(settings: Settings) returns (r: Try<()>)
      requires settings.answer.pollMs > 0 && before == [] && attempts == []
      requires Logs(Free)
      modifies this`calls, this`now, this`threw, this`asked, this`before
      ensures Logs(Free)
      ensures Quiet(before)
      ensures r.Fine? ==> FreshConfirmed(before) && EndsInspected(before, Healthy)
      ensures r.Failed? ==> PreparationRefused(r.error, before, threw)
      ensures now >= old(now)
      ensures IsReady(script, old(calls), settings.settleMs) ==> r.Fine? && calls == old(calls) + 10
    {
      var _ :- RequireHealthySession(settings);
      var resetConfirmed :- StartCleanConversation(settings);
      if !resetConfirmed {
        return Failed(Error(ConversationResetFailed, Some(false)));
      }
      ghost var start := before;
      r := RequireHealthySession(settings);
      QuietGrows(start, before);
    }

    /** The part of the execution that runs after it. */
    method Submit(prompt: string, settings: Settings) returns (r: Try<string>)
      requires settings.answer.pollMs > 0 && TicksAlways(settings, polls)
      requires attempts == []
      requires IsHandedOver(before)
      requires Logs(Free)
      modifies this`calls, this`now, this`threw, this`asked, this`before, this`attempts
      ensures Logs(Free)
      ensures Submitted(prompt, before, attempts, threw, r)
      ensures Delivers(settings, before, polls, r)
      ensures EndsAs(script, old(calls), polls, old(now), prompt, settings, attempts, r)
    {
      ghost var start := before;
      var submitted := SubmitPrompt(prompt);
      if submitted.Failed? {
        RefusalIsSubmitted(prompt, start, before, attempts, threw, submitted.error);
        return Failed(submitted.error);
      }
      ghost var sent := now;
      r := Conclude(settings, submitted.value);
      EndIsSubmitted(prompt, start, before, attempts, threw, r);
      SameSetting(settings, script, old(calls), submitted.value);
      ghost var setting := AnswerSetting(settings, submitted.value);
      ConcludesEarlier(setting, polls, old(now), sent, submitted.value.sentByButton, r);
    }

    /** Waits for the answer, reads the citations and reports a submission that was not made by the button. */
    method Conclude(settings: Settings, submission: Submission) returns (r: Try<string>)
      requires TicksAlways(settings, polls)
      requires before != [] && before[|before| - 1] == AnswersRead(submission.baselineAnswers)
      requires Logs(Free)
      modifies this`calls, this`now, this`threw, this`asked
      ensures Logs(Free)
      ensures EndsWait(submission.sentByButton, threw, r)
      ensures Delivers(settings, before, polls, r)
      ensures !script(old(calls)).throws ==>
        Concludes(AnswerSetting(settings, submission), polls, old(now), submission.sentByButton, r)
    {
      var answer, n, outcome := Answer(settings, submission);
      WaitIsLogged(settings, before, submission, polls, now, n, outcome, answer);
      AnswerForced(AnswerSetting(settings, submission), polls, now, n, outcome, answer);
      if answer.Failed? {
        return answer;
      }
      var citations :- Query();
      if !submission.sentByButton {
        return Failed(Error(SubmitDegraded, Some(true)));
      }
      r := answer;
    }

    /**
     * One prompt, from a page in any state: over every behaviour of the page the run keeps the safety properties, and
     * a returned answer or a missing one is what the wait on the page ended in. An error without a flag is given one:
     * whether the prompt had been handed over. On a page that behaves well the answer is returned.
     */
    method ExecutePrompt(prompt: string, settings: Settings) returns (r: Try<string>)
      requires settings.answer.pollMs > 0 && TicksAlways(settings, polls)
      requires before == [] && attempts == []
      requires Logs(Free)
      modifies this`calls, this`now, this`threw, this`asked, this`before, this`attempts
      ensures Logs(Free)
      ensures Follows(prompt, before, attempts, threw, r)
      ensures Delivers(settings, before, polls, r)
      ensures IsReady(script, old(calls), settings.settleMs) ==>
        Determined(script, old(calls) + 10, polls, old(now), prompt, settings, attempts, r)
    {
      var submitting := false;
      var prepared := Prepare(settings);
      if prepared.Failed? {
        return Failed(WithExecutionStage(prepared.error, submitting));
      }
      submitting := true;
      Handed(before);
      Note(Submitting);
      ghost var handed := now;
      var submitted := Submit(prompt, settings);
      r := Staged(submitted, submitting);
      StagedFollows(prompt, before, attempts, threw, submitted);
      StagedDelivers(settings, before, polls, submitted);
      if IsReady(script, old(calls), settings.settleMs) {
        StagedDetermined(script, old(calls) + 10, polls, old(now), handed, prompt, settings, attempts, submitted);
      }
    }
  }

  // ------------------------------------------------------------ pages that behave well

  /** A query that finds nothing for as long as it is waited for. */
  predicate StaysAway(script: nat -> Reply, c: nat, timeoutMs: nat) {
    !script(c).throws && !script(c).yes && script(c).elapsed >= timeoutMs && !script(c + 1).throws
  }

  predicate ShowsNothing(r: Reply) {
    !r.throws && !r.yes
  }

  predicate IsHealthy(script: nat -> Reply, c: nat) {
    !script(c).throws && script(c).session.Healthy?
  }

  /** Two empty polls, quickly. */
  predicate IsEmpty(script: nat -> Reply, c: nat, timeoutMs: nat) {
    && timeoutMs > 400
    && !script(c).throws && script(c).elapsed == 0 && script(c).count == 0
    && !script(c + 1).throws && script(c + 1).elapsed == 0
    && !script(c + 2).throws && script(c + 2).elapsed == 0 && script(c + 2).count == 0
  }

  /** The control for a new conversation and the input box are there. */
  predicate Reaches(script: nat -> Reply, c: nat) {
    !script(c).throws && Shows(script, c + 1) && Shows(script, c + 2) && !script(c + 3).throws && !script(c + 4).throws
  }

  /** A new conversation is opened and found empty. */
  predicate Opens(script: nat -> Reply, c: nat, settleMs: nat) {
    Reaches(script, c) && IsEmpty(script, c + 5, settleMs)
  }

  predicate IsReady(script: nat -> Reply, c: nat, settleMs: nat) {
    IsHealthy(script, c) && Opens(script, c + 1, settleMs) && IsHealthy(script, c + 9)
  }

  /** The box takes the prompt and reads it back twice. */
  predicate Types(script: nat -> Reply, c: nat, prompt: string) {
    && !script(c).throws && !script(c + 1).throws && !script(c + 2).throws
    && !script(c + 3).throws && !script(c + 4).throws
    && Strip(script(c + 2).text) == Strip(prompt) && Strip(script(c + 4).text) == Strip(prompt)
  }

  predicate TakesPrompt(script: nat -> Reply, c: nat, prompt: string) {
    Shows(script, c) && Types(script, c + 1, prompt)
  }

  predicate Clicks(script: nat -> Reply, c: nat) {
    Shows(script, c) && Shows(script, c + 1) && !script(c + 2).throws
  }

  predicate Clickable(script: nat -> Reply, c: nat) {
    !script(c).throws && script(c).count > 0 && Clicks(script, c + 1)
  }

  /** None of the selectors finds a button, for twenty seconds. */
  predicate HasNoButton(script: nat -> Reply, c: nat) {
    && script(c).elapsed >= 20_000
    && FindsNothing(script(c)) && FindsNothing(script(c + 1)) && FindsNothing(script(c + 2))
    && FindsNothing(script(c + 3)) && FindsNothing(script(c + 4)) && !script(c + 5).throws
  }

  predicate FindsNothing(r: Reply) {
    !r.throws && r.count == 0
  }

  /** No button, no dialog in its way, and no box to press Enter in. */
  predicate HasNothingToPress(script: nat -> Reply, c: nat) {
    HasNoButton(script, c) && !script(c + 6).throws && !script(c + 6).yes && StaysAway(script, c + 7, 10_000)
  }

  /** No dialog shows up, and the query for the input box throws. */
  predicate LosesBox(script: nat -> Reply, c: nat) {
    ShowsNothing(script(c)) && script(c + 1).throws
  }

  /** Everything before the send goes well, and no dialog shows up. */
  predicate Fills(script: nat -> Reply, c: nat, prompt: string) {
    ShowsNothing(script(c)) && TakesPrompt(script, c + 1, prompt) && ShowsNothing(script(c + 7))
      && !script(c + 8).throws
  }

  predicate SendsByButton(script: nat -> Reply, c: nat, prompt: string) {
    Fills(script, c + 1, prompt) && Clickable(script, c + 10) && Shows(script, c + 14)
  }

  /** Nothing can be pressed, yet the page looks as if it had taken the prompt. */
  predicate SendsNothing(script: nat -> Reply, c: nat, prompt: string) {
    Fills(script, c + 1, prompt) && HasNothingToPress(script, c + 10) && Shows(script, c + 19)
  }

  /** The setting of the wait after a submission whose calls begin at `c`. */
  function SettingAt(settings: Settings, script: nat -> Reply, c: nat): Setting {
    SettingFor(settings, script(c + 9).texts, script(c).text != "")
  }

  /** A wait that began at `start` would end in the answer. */
  ghost predicate Yields(s: Setting, polls: nat -> Poll, start: Millis, answer: string) {
    exists n :: Explains(s, polls, start, n, Answered(answer))
  }

  /** Whatever answer the wait yields is the result, or is lost to a degraded submission. */
  ghost predicate Concludes(s: Setting, polls: nat -> Poll, start: Millis, sentByButton: bool, r: Try<string>) {
    forall answer :: Yields(s, polls, start, answer) ==>
      r == if sentByButton then Fine(answer) else Failed(Error(SubmitDegraded, Some(true)))
  }

  /** An answer that a wait ends in, a wait that begins later ends in too. */
  lemma LaterStart(s: Setting, polls: nat -> Poll, start: Millis, later: Millis, n: nat, answer: string)
    requires Explains(s, polls, start, n, Answered(answer)) && start <= later
    ensures Explains(s, polls, later, n, Answered(answer))
  {
    forall k | 0 <= k < n ensures Passes(s, polls, later, k) {
      assert Passes(s, polls, start, k);
    }
  }

  /**
   * What a run must come to when it is handed over at call `c`, on a page that fails, behaves well or shows nothing.
   */
  ghost predicate Determined(
    script: nat -> Reply, c: nat, polls: nat -> Poll, start: Millis, prompt: string, settings: Settings,
    attempts: seq<Attempt>, r: Try<string>)
  {
    && (LosesBox(script, c + 1) ==> r == Failed(Error(UnknownError, Some(true))) && attempts == [])
    && (SendsByButton(script, c, prompt) && !script(c + 15).throws ==>
          Concludes(SettingAt(settings, script, c), polls, start, true, r))
    && (SendsNothing(script, c, prompt) && !script(c + 20).throws ==>
          attempts == [] && Concludes(SettingAt(settings, script, c), polls, start, false, r))
  }

  /** The same from call `c` on, as the part after the hand-over ends. */
  ghost predicate EndsAs(
    script: nat -> Reply, c: nat, polls: nat -> Poll, start: Millis, prompt: string, settings: Settings,
    attempts: seq<Attempt>, r: Try<string>)
  {
    && (LosesBox(script, c + 1) ==> r == Failed(PAGE_ERROR) && attempts == [])
    && (SendsByButton(script, c, prompt) && !script(c + 15).throws ==>
          Concludes(SettingAt(settings, script, c), polls, start, true, r))
    && (SendsNothing(script, c, prompt) && !script(c + 20).throws ==>
          attempts == [] && Concludes(SettingAt(settings, script, c), polls, start, false, r))
  }

  lemma StagedDetermined(
    script: nat -> Reply, c: nat, polls: nat -> Poll, start: Millis, later: Millis, prompt: string, settings: Settings,
    attempts: seq<Attempt>, r: Try<string>)
    requires EndsAs(script, c, polls, later, prompt, settings, attempts, r) && start <= later
    ensures Determined(script, c, polls, start, prompt, settings, attempts, Staged(r, true))
  {
    StagedConcludes(SettingAt(settings, script, c), polls, start, later, true, r);
    StagedConcludes(SettingAt(settings, script, c), polls, start, later, false, r);
  }

  lemma ConcludesEarlier(
    s: Setting, polls: nat -> Poll, start: Millis, later: Millis, sentByButton: bool, r: Try<string>)
    requires start <= later
    ensures Concludes(s, polls, later, sentByButton, r) ==> Concludes(s, polls, start, sentByButton, r)
  {
    forall answer | Yields(s, polls, start, answer) ensures Yields(s, polls, later, answer) {
      var n :| Explains(s, polls, start, n, Answered(answer));
      LaterStart(s, polls, start, later, n, answer);
    }
  }

  lemma SameSetting(settings: Settings, script: nat -> Reply, c: nat, submission: Submission)
    ensures submission.baselineAnswers == script(c + 9).texts && submission.urlBeforeSend == script(c).text ==>
      AnswerSetting(settings, submission) == SettingAt(settings, script, c)
  {
  }

  lemma Concluded(s: Setting, polls: nat -> Poll, start: Millis, sentByButton: bool, r: Try<string>, answer: string)
    requires Concludes(s, polls, start, sentByButton, r) && Yields(s, polls, start, answer)
    ensures r == if sentByButton then Fine(answer) else Failed(Error(SubmitDegraded, Some(true)))
  {
  }

  lemma AnswerForced(s: Setting, polls: nat -> Poll, start: Millis, n: nat, outcome: Outcome, r: Try<string>)
    requires Explains(s, polls, start, n, outcome) && Reports(outcome, r)
    ensures forall answer :: Yields(s, polls, start, answer) ==> r == Fine(answer)
  {
    forall answer | Yields(s, polls, start, answer) ensures r == Fine(answer) {
      var m :| Explains(s, polls, start, m, Answered(answer));
      OutcomeIsDetermined(s, polls, start, n, m, outcome, Answered(answer));
    }
  }

  // ------------------------------------------------------------------ what is delivered

  /** How the outcome of the wait is reported. */
  predicate Reports(outcome: Outcome, r: Try<string>) {
    match r
    case Fine(answer) => outcome == Answered(answer)
    case Failed(e) =>
      && !outcome.Answered?
      && (e.code.AnswerNotFound? ==> outcome.NoConversation? || outcome.Silent? || outcome.NoOutput?)
      && (e.code.Timeout? ==> outcome.TimedOut?)
      && (e.code.RateLimited? ==> outcome == ProviderError(Throttled))
  }

  /** The wait began with the answers read before the send as its baseline. */
  ghost predicate WaitEndedIn(settings: Settings, before: seq<Event>, polls: nat -> Poll, outcome: Outcome) {
    before != [] && before[|before| - 1].AnswersRead?
      && WaitedFrom(settings, before[|before| - 1].texts, polls, outcome)
  }

  ghost predicate WaitedFrom(settings: Settings, texts: seq<string>, polls: nat -> Poll, outcome: Outcome) {
    exists start, n, urlKnown :: Explains(SettingFor(settings, texts, urlKnown), polls, start, n, outcome)
  }

  /** An answer, a missing answer and a throttled page are what the wait on the page ended in. */
  ghost predicate Delivers(settings: Settings, before: seq<Event>, polls: nat -> Poll, r: Try<string>) {
    r.Fine? || r.error.code in {AnswerNotFound, Timeout, RateLimited} ==>
      exists outcome :: WaitEndedIn(settings, before, polls, outcome) && Reports(outcome, r)
  }

  lemma WaitIsLogged(
    settings: Settings, before: seq<Event>, submission: Submission, polls: nat -> Poll, start: Millis, n: nat,
    outcome: Outcome, r: Try<string>)
    requires before != [] && before[|before| - 1] == AnswersRead(submission.baselineAnswers)
    requires Explains(AnswerSetting(settings, submission), polls, start, n, outcome) && Reports(outcome, r)
    ensures WaitEndedIn(settings, before, polls, outcome) && Delivers(settings, before, polls, r)
  {
    assert AnswerSetting(settings, submission)
           == SettingFor(settings, before[|before| - 1].texts, submission.urlBeforeSend != "");
  }

  /**
   * End to end: the answer returned was stable and finished when it was taken, has at least 12 characters, and is
   * neither a placeholder nor among the texts read from the page before the send.
   */
  lemma ReturnedAnswerIsNew(settings: Settings, before: seq<Event>, polls: nat -> Poll, answer: string)
    returns (n: nat)
    requires Delivers(settings, before, polls, Fine(answer))
    ensures before != [] && before[|before| - 1].AnswersRead?
    ensures forall t :: t in before[|before| - 1].texts ==> answer != settings.normalize(t)
    ensures |answer| >= MIN_ANSWER_CHARS && answer !in PLACEHOLDERS
    ensures var s := SettingFor(settings, before[|before| - 1].texts, true);
      && Settled(s, polls, n) && AnswerAt(s, polls(n)) == answer
      && (forall k :: 0 <= k < n ==> !Settled(s, polls, k))
  {
    var outcome :| WaitEndedIn(settings, before, polls, outcome) && Reports(outcome, Fine(answer));
    var texts := before[|before| - 1].texts;
    var start, m, urlKnown :| Explains(SettingFor(settings, texts, urlKnown), polls, start, m, outcome);
    var s := SettingFor(settings, texts, urlKnown);
    AnswersAreTrustworthy(s, polls, start, m, answer);
    SameUnderUrl(settings, texts, urlKnown, polls);
    n := m;
  }

  /** Whether the URL before sending is known decides nothing but when to give up. */
  lemma SameUnderUrl(settings: Settings, texts: seq<string>, urlKnown: bool, polls: nat -> Poll)
    ensures var s, t := SettingFor(settings, texts, urlKnown), SettingFor(settings, texts, true);
      && (forall k: nat :: AnswerAt(s, polls(k)) == AnswerAt(t, polls(k)))
      && (forall k: nat :: Settled(s, polls, k) <==> Settled(t, polls, k))
  {
    var s, t := SettingFor(settings, texts, urlKnown), SettingFor(settings, texts, true);
    forall k: nat ensures AnswerAt(s, polls(k)) == AnswerAt(t, polls(k)) {
      if polls(k).candidates.Some? {
        SameAnswer(s, t, polls(k).candidates.value);
      }
    }
  }

  lemma {:induction false} SameAnswer(s: Setting, t: Setting, candidates: seq<Candidate>)
    requires s.normalize == t.normalize && s.baseline == t.baseline
    ensures AnswerIn(s, candidates) == AnswerIn(t, candidates)
  {
    if candidates != [] {
      SameAnswer(s, t, candidates[..|candidates| - 1]);
    }
  }

  /** Which session stopped the run, judging by the last look at it. */
  ghost predicate SessionRefused(e: Error, before: seq<Event>, threw: bool) {
    && e.promptSubmitted.None?
    && e.code in {VerificationRequired, AccessRestricted, SessionExpired, LoginRequired, PageChanged, UnknownError}
    && (e.code.VerificationRequired? ==> EndsInspected(before, Verification))
    && (e.code.AccessRestricted? ==> EndsInspected(before, Restricted))
    && (e.code.SessionExpired? || e.code.LoginRequired? ==> EndsInspected(before, Login))
    && (e.code.UnknownError? ==> threw)
  }

  ghost predicate PreparationRefused(e: Error, before: seq<Event>, threw: bool) {
    || SessionRefused(e, before, threw)
    || (e.promptSubmitted.None? && e.code in {PageChanged, NetworkError, UnknownError}
      && (e.code.UnknownError? ==> threw))
    || (e == Error(ConversationResetFailed, Some(false)) && !FreshConfirmed(before))
  }

  function WithExecutionStage(e: Error, submitting: bool): Error {
    e.(promptSubmitted := OrElse(e.promptSubmitted, Some(submitting)))
  }

  /** The result as the caller of the execution sees it. */
  function Staged(r: Try<string>, submitting: bool): Try<string> {
    if r.Failed? then Failed(WithExecutionStage(r.error, submitting)) else r
  }

  /** What the part after the hand-over may have done when it ends with `r`. */
  ghost predicate Submitted(prompt: string, before: seq<Event>, attempts: seq<Attempt>, threw: bool, r: Try<string>) {
    && SendsAtMostOnce(attempts)
    && Submitting in before && FreshConfirmed(before) && HandedOverHealthy(before)
    && (attempts != [] ==> EndsPrepared(prompt, before) && MayHaveBeenSent(before))
    && match r
       case Fine(_) => ButtonSent(attempts)
       case Failed(e) =>
         && OrElse(e.promptSubmitted, Some(true)) == Some(FillRejected !in before)
         && e.code in {
              PageChanged, SubmissionFailed, RateLimited, NetworkError, UnknownError, AnswerNotFound, Timeout,
              SubmitDegraded}
         && (e.code in {AnswerNotFound, Timeout, RateLimited, SubmitDegraded} ==>
               MayHaveBeenSent(before) && EndsPrepared(prompt, before))
         && (e.code.SubmitDegraded? ==> !ButtonSent(attempts))
         && (e.code.SubmissionFailed? ==>
           FillRejected in before || (MayHaveBeenSent(before) && EndsPrepared(prompt, before)))
         && (e.code.UnknownError? ==> threw)
  }

  lemma StagedFollows(prompt: string, before: seq<Event>, attempts: seq<Attempt>, threw: bool, r: Try<string>)
    requires Submitted(prompt, before, attempts, threw, r)
    ensures Follows(prompt, before, attempts, threw, Staged(r, true))
  {
  }

  lemma StagedDelivers(settings: Settings, before: seq<Event>, polls: nat -> Poll, r: Try<string>)
    requires Delivers(settings, before, polls, r)
    ensures Delivers(settings, before, polls, Staged(r, true))
  {
    if r.Fine? || r.error.code in {AnswerNotFound, Timeout, RateLimited} {
      var outcome :| WaitEndedIn(settings, before, polls, outcome) && Reports(outcome, r);
      assert Reports(outcome, Staged(r, true));
    }
  }

  lemma StagedConcludes(
    s: Setting, polls: nat -> Poll, start: Millis, later: Millis, sentByButton: bool, r: Try<string>)
    requires start <= later
    ensures Concludes(s, polls, later, sentByButton, r) ==> Concludes(s, polls, start, sentByButton, Staged(r, true))
  {
    ConcludesEarlier(s, polls, start, later, sentByButton, r);
  }

  function AnswerSetting(settings: Settings, submission: Submission): Setting {
    SettingFor(settings, submission.baselineAnswers, submission.urlBeforeSend != "")
  }

  function SettingFor(settings: Settings, texts: seq<string>, urlKnown: bool): Setting {
    Setting(settings.normalize, set t | t in texts :: settings.normalize(t), urlKnown, settings.answer)
  }

  /** The clock of the polls: each wait takes its time. */
  ghost predicate TicksAlways(settings: Settings, polls: nat -> Poll) {
    settings.answer.pollMs > 0 && forall i: nat :: polls(i + 1).at >= polls(i).at + settings.answer.pollMs
  }

  /** Nothing has been handed over yet. */
  predicate Quiet(before: seq<Event>) {
    forall i :: 0 <= i < |before| ==> before[i].Polled? || before[i].Inspected?
  }

  predicate NonePolled(before: seq<Event>) {
    forall i :: 0 <= i < |before| ==> before[i].Inspected?
  }

  /** Only looks at the session have been added. */
  predicate InspectedSince(start: seq<Event>, before: seq<Event>) {
    start <= before && forall i :: |start| <= i < |before| ==> before[i].Inspected?
  }

  /** Only read-backs have been added, and at the end perhaps a refusal or the answers on the page. */
  predicate Since(start: seq<Event>, before: seq<Event>) {
    && start <= before
    && (forall i :: |start| <= i < |before| - 1 ==> before[i].ReadBack?)
    && (|before| > |start| ==>
      before[|before| - 1].ReadBack? || before[|before| - 1].FillRejected? || before[|before| - 1].AnswersRead?)
  }

  /** The last thing of note is that the input box refused the prompt. */
  predicate EndsRefused(before: seq<Event>) {
    before != [] && before[|before| - 1].FillRejected?
  }

  /** An error of a submission: the flag is set exactly when the input box refused the prompt, and then to false. */
  predicate IsRefusal(before: seq<Event>, threw: bool, e: Error) {
    && e.code in {PageChanged, SubmissionFailed, UnknownError}
    && e.promptSubmitted == (if EndsRefused(before) then Some(false) else None)
    && (e.code.UnknownError? ==> threw)
  }

  /** Only read-backs have been added. */
  predicate OnlyReadBack(start: seq<Event>, before: seq<Event>) {
    start <= before && forall i :: |start| <= i < |before| ==> before[i].ReadBack?
  }

  /** Reading the answers after a verified fill. */
  lemma PreparedFacts(prompt: string, start: seq<Event>, filled: seq<Event>, texts: seq<string>)
    requires Since(start, filled) && EndsVerified(prompt, filled)
    ensures var before := filled + [AnswersRead(texts)];
      && Since(start, before) && !EndsRefused(before) && EndsPrepared(prompt, before)
      && before[|before| - 1] == AnswersRead(texts)
  {
    var before := filled + [AnswersRead(texts)];
    assert before[..|before| - 1] == filled;
  }

  lemma QuietGrows(start: seq<Event>, before: seq<Event>)
    requires Quiet(start) && InspectedSince(start, before)
    ensures Quiet(before)
    ensures FreshConfirmed(start) ==> FreshConfirmed(before)
  {
    assert forall i :: 0 <= i < |start| ==> before[i] == start[i];
    if FreshConfirmed(start) {
      StaysFresh(start, before);
    }
  }

  /** One more event confirms an empty conversation only as the second empty poll in a row. */
  lemma FreshNext(before: seq<Event>, e: Event)
    requires !FreshConfirmed(before)
    ensures FreshConfirmed(before + [e]) <==> EndsPolled(before, 0) && e == Polled(0)
  {
    var after := before + [e];
    if EndsPolled(before, 0) && e == Polled(0) {
      assert after[|before| - 1] == Polled(0) && after[|before| - 1 + 1] == Polled(0);
    }
    assert forall i :: 0 <= i < |before| - 1 ==> !(before[i] == Polled(0) && before[i + 1] == Polled(0));
    assert forall i :: 0 <= i < |before| ==> after[i] == before[i];
  }

  lemma StaysFresh(start: seq<Event>, before: seq<Event>)
    requires start <= before && FreshConfirmed(start)
    ensures FreshConfirmed(before)
  {
    var i :| 0 <= i < |start| - 1 && start[i] == Polled(0) && start[i + 1] == Polled(0);
    assert before[i] == Polled(0) && before[i + 1] == Polled(0);
  }

  lemma StaysHandedOver(start: seq<Event>, before: seq<Event>)
    requires start <= before && HandedOverHealthy(start)
    ensures HandedOverHealthy(before)
  {
    var i :| 0 <= i < |start| - 1 && start[i] == Inspected(Healthy) && start[i + 1] == Submitting;
    assert before[i] == Inspected(Healthy) && before[i + 1] == Submitting;
  }

  lemma SinceFacts(start: seq<Event>, before: seq<Event>)
    requires Since(start, before) && FreshConfirmed(start) && HandedOverHealthy(start)
    requires Submitting in start && FillRejected !in start
    ensures FreshConfirmed(before) && HandedOverHealthy(before) && Submitting in before
    ensures FillRejected in before <==> EndsRefused(before)
  {
    StaysFresh(start, before);
    StaysHandedOver(start, before);
    assert before == start + before[|start|..];
    if EndsRefused(before) {
      assert before[|before| - 1] == FillRejected;
    }
  }

  /** How a submission that went through can end. */
  predicate EndsWait(sentByButton: bool, threw: bool, r: Try<string>) {
    match r
    case Fine(_) => sentByButton
    case Failed(e) =>
      && e.code in {PageChanged, RateLimited, NetworkError, UnknownError, AnswerNotFound, Timeout, SubmitDegraded}
      && OrElse(e.promptSubmitted, Some(true)) == Some(true)
      && (e.code.SubmitDegraded? ==> !sentByButton)
      && (e.code.UnknownError? ==> threw)
  }

  ghost predicate IsHandedOver(before: seq<Event>) {
    FreshConfirmed(before) && HandedOverHealthy(before) && MayHaveBeenSent(before)
  }

  lemma RefusalIsSubmitted(
    prompt: string, start: seq<Event>, before: seq<Event>, attempts: seq<Attempt>, threw: bool, e: Error)
    requires IsHandedOver(start) && Since(start, before) && SendsAtMostOnce(attempts)
    requires EndsRefused(before) ==> attempts == []
    requires attempts != [] ==> EndsPrepared(prompt, before)
    requires IsRefusal(before, threw, e)
    requires e.code.SubmissionFailed? ==> EndsRefused(before) || EndsPrepared(prompt, before)
    ensures Submitted(prompt, before, attempts, threw, Failed(e))
  {
    SinceFacts(start, before);
  }

  lemma EndIsSubmitted(
    prompt: string, start: seq<Event>, before: seq<Event>, attempts: seq<Attempt>, threw: bool, r: Try<string>)
    requires IsHandedOver(start) && Since(start, before) && SendsAtMostOnce(attempts)
    requires EndsPrepared(prompt, before) && EndsWait(ButtonSent(attempts), threw, r)
    ensures Submitted(prompt, before, attempts, threw, r)
  {
    SinceFacts(start, before);
  }

  lemma Handed(start: seq<Event>)
    requires Quiet(start) && FreshConfirmed(start) && EndsInspected(start, Healthy)
    ensures var before := start + [Submitting];
      FreshConfirmed(before) && HandedOverHealthy(before) && MayHaveBeenSent(before)
  {
    var before := start + [Submitting];
    StaysFresh(start, before);
    assert before[|start|] == Submitting;
    assert before[|start| - 1] == Inspected(Healthy) && before[|start| - 1 + 1] == Submitting;
  }
}
