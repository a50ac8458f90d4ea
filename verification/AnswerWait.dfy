/** Waiting for a stable answer: one loop over what the page shows at every poll. */
module AnswerWait {
  import opened Wrappers

  type Millis = int

  /** What the page text says about the platform: throttled, or a network or service fault. */
  datatype ProviderFailure = Throttled | ServiceFault

  datatype Candidate = Candidate(text: string, isUser: bool, streaming: bool)

  /**
   * One turn of the loop, with everything the page could answer in it. `candidates` and `generating` are `None` when
   * the query throws; `sleeps` says whether the page can be waited on. The clock is read up to three more times after
   * `at`.
   */
  datatype Poll = Poll(
    at: Millis, allowedHost: bool, providerError: Option<ProviderFailure>, candidates: Option<seq<Candidate>>,
    generating: Option<bool>, landed: bool, landingAt: Millis, dropAt: Millis, sleeps: bool)

  datatype Config = Config(timeoutMs: nat, pollMs: nat, stablePolls: nat, firstTokenMs: nat)

  /**
   * What waiting depends on besides the page: text normalisation, the normalised answers that were there before, and
   * whether the URL before sending is known.
   */
  datatype Setting = Setting(normalize: string -> string, baseline: set<string>, baselineUrlKnown: bool, config: Config)

  datatype Outcome =
    | Answered(answer: string)
    | UnexpectedHost
    | ProviderError(failure: ProviderFailure)
    | PageFault
    | NoConversation
    | Silent
    | TimedOut(partialAnswer: string)
    | NoOutput

  const PLACEHOLDERS: set<string> :=
    {"\U{601D}\U{8003}\U{4E2D}", "\U{751F}\U{6210}\U{4E2D}", "\U{52A0}\U{8F7D}\U{4E2D}",
      "\U{6B63}\U{5728}\U{751F}\U{6210}",
     "\U{6B63}\U{5728}\U{601D}\U{8003}", "\U{7A0D}\U{7B49}\U{7247}\U{523B}", "\U{6B63}\U{5728}\U{67E5}\U{8BE2}"}
  const MIN_ANSWER_CHARS: nat := 12
  const LANDING_WAIT_MS: nat := 20_000

  function FirstTokenWindow(c: Config): nat {
    if c.firstTokenMs < c.timeoutMs then c.firstTokenMs else c.timeoutMs
  }

  /** No answer ever, and the window is over. */
  predicate IsSilentlyDropped(answerLength: nat, firstTokenSeen: bool, waitedMs: int, windowMs: nat) {
    !firstTokenSeen && answerLength == 0 && waitedMs >= windowMs
  }

  predicate IsUsable(s: Setting, c: Candidate) {
    !c.isUser && s.normalize(c.text) !in s.baseline && s.normalize(c.text) !in PLACEHOLDERS
  }

  predicate IsSubstantive(s: Setting, c: Candidate) {
    IsUsable(s, c) && |s.normalize(c.text)| >= MIN_ANSWER_CHARS
  }

  /** The last substantive candidate; empty when there is none. */
  function AnswerIn(s: Setting, candidates: seq<Candidate>): string {
    if candidates == [] then ""
    else
      var last := candidates[|candidates| - 1];
      if IsSubstantive(s, last) then s.normalize(last.text) else AnswerIn(s, candidates[..|candidates| - 1])
  }

  function AnswerAt(s: Setting, p: Poll): string {
    if p.candidates.None? then "" else AnswerIn(s, p.candidates.value)
  }

  predicate IsStreaming(s: Setting, c: Candidate) {
    IsUsable(s, c) && c.streaming
  }

  predicate Streams(s: Setting, p: Poll) {
    p.candidates.Some? && exists i :: 0 <= i < |p.candidates.value| && IsStreaming(s, p.candidates.value[i])
  }

  /** The page shows that an answer is being written. */
  predicate Running(s: Setting, p: Poll) {
    Streams(s, p) || (p.generating.Some? && p.generating.value)
  }

  /** The poll can be read to its end: nothing throws before the answer is known. */
  predicate Readable(s: Setting, p: Poll) {
    p.allowedHost && p.providerError.None? && p.candidates.Some? && (Streams(s, p) || p.generating.Some?)
  }

  lemma {:induction false} AnswerFacts(s: Setting, candidates: seq<Candidate>)
    ensures AnswerIn(s, candidates) == "" <==> forall c :: c in candidates ==> !IsSubstantive(s, c)
    ensures AnswerIn(s, candidates) != "" ==>
      exists c :: c in candidates && IsSubstantive(s, c) && s.normalize(c.text) == AnswerIn(s, candidates)
  {
    if candidates != [] {
      AnswerFacts(s, candidates[..|candidates| - 1]);
      assert candidates == candidates[..|candidates| - 1] + [candidates[|candidates| - 1]];
    }
  }

  // ---------------------------------------------------------------- reading a run

  /** The answer has been the same, and present, for the last `n` polls up to `k`. */
  predicate StableFor(s: Setting, polls: nat -> Poll, k: nat, n: nat) {
    && AnswerAt(s, polls(k)) != "" && n <= k + 1
    && forall j :: k + 1 - n <= j <= k ==> AnswerAt(s, polls(j)) == AnswerAt(s, polls(k))
  }

  /** The answer of poll `k` is final: stable for long enough and no longer being written. */
  predicate Settled(s: Setting, polls: nat -> Poll, k: nat) {
    StableFor(s, polls, k, s.config.stablePolls) && AnswerAt(s, polls(k)) != "" && !Running(s, polls(k))
  }

  ghost predicate NothingSeen(s: Setting, polls: nat -> Poll, n: nat) {
    forall k :: 0 <= k < n ==> AnswerAt(s, polls(k)) == ""
  }

  /** The first of the longest answers in the first `n` polls. */
  ghost predicate IsLongest(s: Setting, polls: nat -> Poll, n: nat, best: string) {
    && (forall k :: 0 <= k < n ==> |AnswerAt(s, polls(k))| <= |best|)
    && (best != "" ==> exists k :: 0 <= k < n && AnswerAt(s, polls(k)) == best
                                   && forall j :: 0 <= j < k ==> |AnswerAt(s, polls(j))| < |best|)
  }

  ghost predicate Ticks(s: Setting, polls: nat -> Poll) {
    s.config.pollMs > 0 && forall i: nat :: polls(i + 1).at >= polls(i).at + s.config.pollMs
  }

  ghost predicate GivesUpLanding(s: Setting, p: Poll, start: Millis) {
    !p.landed && s.baselineUrlKnown && p.landingAt - start >= LANDING_WAIT_MS
  }

  /** No answer so far, and the platform has had its time to open a conversation or to write something. */
  ghost predicate GivesUp(s: Setting, polls: nat -> Poll, start: Millis, k: nat) {
    NothingSeen(s, polls, k + 1)
    && (GivesUpLanding(s, polls(k), start) || polls(k).dropAt - start >= FirstTokenWindow(s.config))
  }

  /** Poll `k` decides nothing: the loop goes on. */
  ghost predicate Passes(s: Setting, polls: nat -> Poll, start: Millis, k: nat) {
    && polls(k).at < start + s.config.timeoutMs
    && Readable(s, polls(k)) && !GivesUp(s, polls, start, k) && !Settled(s, polls, k) && polls(k).sleeps
  }

  ghost predicate AllPass(s: Setting, polls: nat -> Poll, start: Millis, n: nat) {
    forall k :: 0 <= k < n ==> Passes(s, polls, start, k)
  }

  /** What every outcome means; `n` is the poll that decided, or the first one after the deadline. */
  ghost predicate Explains(s: Setting, polls: nat -> Poll, start: Millis, n: nat, outcome: Outcome) {
    var p := polls(n);
    && AllPass(s, polls, start, n)
    && (outcome.TimedOut? || outcome.NoOutput? <==> p.at >= start + s.config.timeoutMs)
    && match outcome
       case Answered(answer) => Readable(s, p) && answer == AnswerAt(s, p) && Settled(s, polls, n) && p.sleeps
       case UnexpectedHost => !p.allowedHost
       case ProviderError(failure) => p.allowedHost && p.providerError == Some(failure)
       case PageFault => QueryThrows(s, p) || (Readable(s, p) && !GivesUp(s, polls, start, n) && !p.sleeps)
       case NoConversation => Readable(s, p) && NothingSeen(s, polls, n + 1) && GivesUpLanding(s, p, start)
       case Silent => Readable(s, p) && GivesUp(s, polls, start, n) && !GivesUpLanding(s, p, start)
       case TimedOut(partial) => partial != "" && IsLongest(s, polls, n, partial)
       case NoOutput => NothingSeen(s, polls, n)
  }

  ghost predicate QueryThrows(s: Setting, p: Poll) {
    p.allowedHost && p.providerError.None? && !Readable(s, p)
  }

  /** Reads one poll: an outcome when it cannot be read to its end, else its answer and whether it is being written. */
  method ReadPoll(s: Setting, p: Poll) returns (failure: Option<Outcome>, answer: string, running: bool)
    ensures failure.None? ==> Readable(s, p) && answer == AnswerAt(s, p) && running == Running(s, p)
    ensures failure.Some? ==>
      && (failure.value.UnexpectedHost? || failure.value.PageFault? || failure.value.ProviderError?)
      && (failure.value.UnexpectedHost? ==> !p.allowedHost)
      && (failure.value.ProviderError? ==> p.allowedHost && p.providerError == Some(failure.value.failure))
      && (failure.value.PageFault? ==> QueryThrows(s, p))
  {
    answer, running := "", false;
    if !p.allowedHost {
      return Some(UnexpectedHost), answer, running;
    }
    if p.providerError.Some? {
      return Some(ProviderError(p.providerError.value)), answer, running;
    }
    if p.candidates.None? || (!Streams(s, p) && p.generating.None?) {
      return Some(PageFault), answer, running;
    }
    answer := AnswerIn(s, p.candidates.value);
    running := Streams(s, p) || p.generating.value;
    failure := None;
  }

  /** The last answer and for how many polls it has been the same. */
  ghost predicate Tracks(s: Setting, polls: nat -> Poll, n: nat, last: string, stable: nat) {
    && stable <= n && (stable == 0 <==> last == "")
    && (n == 0 ==> last == "")
    && (n > 0 ==> last == AnswerAt(s, polls(n - 1)))
    && (forall j :: n - stable <= j < n ==> AnswerAt(s, polls(j)) == last)
    && (0 < stable < n ==> AnswerAt(s, polls(n - stable - 1)) != last)
  }

  function NextStable(answer: string, last: string, stable: nat): nat {
    if answer != "" && answer == last then stable + 1 else if answer != "" then 1 else 0
  }

  /** Counting equal answers in a row decides stability. */
  lemma TracksNext(s: Setting, polls: nat -> Poll, n: nat, last: string, stable: nat)
    requires Tracks(s, polls, n, last, stable)
    ensures var answer := AnswerAt(s, polls(n));
      var now := NextStable(answer, last, stable);
      && Tracks(s, polls, n + 1, answer, now)
      && (Settled(s, polls, n) <==> answer != "" && !Running(s, polls(n)) && now >= s.config.stablePolls)
  {
    var answer := AnswerAt(s, polls(n));
    var now := NextStable(answer, last, stable);
    assert answer != "" && now <= n ==> AnswerAt(s, polls(n - now)) != answer;
  }

  /** The variables of the loop. */
  datatype Memory = Memory(best: string, last: string, stable: nat, firstTokenSeen: bool)

  ghost predicate Remembers(s: Setting, polls: nat -> Poll, n: nat, m: Memory) {
    && IsLongest(s, polls, n, m.best) && Tracks(s, polls, n, m.last, m.stable)
    && (m.firstTokenSeen <==> m.best != "") && (m.best == "" <==> NothingSeen(s, polls, n))
  }

  /** One turn of the loop: it decides, or the poll passes and the variables are brought up to date. */
  method TakePoll(
    s: Setting, start: Millis, polls: nat -> Poll, n: nat, m: Memory) returns (decision: Option<Outcome>, next: Memory)
    requires polls(n).at < start + s.config.timeoutMs
    requires AllPass(s, polls, start, n) && Remembers(s, polls, n, m)
    ensures decision.Some? ==> Explains(s, polls, start, n, decision.value)
    ensures decision.None? ==> Passes(s, polls, start, n) && Remembers(s, polls, n + 1, next)
  {
    var p := polls(n);
    next := m;
    var failure, answer, running := ReadPoll(s, p);
    if failure.Some? {
      return failure, next;
    }
    LongestSoFar(s, polls, n, m.best);
    var best := if |answer| > |m.best| then answer else m.best;
    if !p.landed && best == "" && s.baselineUrlKnown && p.landingAt - start >= LANDING_WAIT_MS {
      return Some(NoConversation), next;
    }
    var firstTokenSeen := m.firstTokenSeen || |best| > 0;
    if IsSilentlyDropped(|best|, firstTokenSeen, p.dropAt - start, FirstTokenWindow(s.config)) {
      return Some(Silent), next;
    }
    TracksNext(s, polls, n, m.last, m.stable);
    var stable := NextStable(answer, m.last, m.stable);
    next := Memory(best, answer, stable, firstTokenSeen);
    if answer != "" && !running && stable >= s.config.stablePolls {
      decision := Some(if p.sleeps then Answered(answer) else PageFault);
    } else {
      decision := if p.sleeps then None else Some(PageFault);
    }
  }

  method WaitForAnswer(s: Setting, start: Millis, polls: nat -> Poll) returns (outcome: Outcome, n: nat)
    requires Ticks(s, polls)
    ensures Explains(s, polls, start, n, outcome)
  {
    var m := Memory("", "", 0, false);
    var deadline := start + s.config.timeoutMs;
    n := 0;
    while polls(n).at < deadline
      invariant AllPass(s, polls, start, n) && Remembers(s, polls, n, m)
      decreases deadline - polls(n).at
    {
      var decision;
      decision, m := TakePoll(s, start, polls, n, m);
      if decision.Some? {
        return decision.value, n;
      }
      n := n + 1;
    }
    outcome := if m.best != "" then TimedOut(m.best) else NoOutput;
  }

  lemma LongestSoFar(s: Setting, polls: nat -> Poll, n: nat, before: string)
    requires IsLongest(s, polls, n, before)
    ensures var answer := AnswerAt(s, polls(n));
      var best := if |answer| > |before| then answer else before;
      IsLongest(s, polls, n + 1, best) && (best == "" <==> NothingSeen(s, polls, n + 1))
  {
    var answer := AnswerAt(s, polls(n));
    if |answer| > |before| {
      assert AnswerAt(s, polls(n)) == answer;
    } else if before != "" {
      var k :| 0 <= k < n && AnswerAt(s, polls(k)) == before
               && forall j :: 0 <= j < k ==> |AnswerAt(s, polls(j))| < |before|;
      assert k < n + 1;
    }
  }

  // ------------------------------------------------------------------ what it is for

  /**
   * A returned answer was the same in the last `stablePolls` polls, is not being written at the last one, has at least
   * 12 characters, comes from the page and not from the user, and is neither an answer that was there before nor a
   * placeholder; and no earlier poll would have done.
   */
  lemma AnswersAreTrustworthy(s: Setting, polls: nat -> Poll, start: Millis, n: nat, answer: string)
    requires Explains(s, polls, start, n, Answered(answer))
    ensures |answer| >= MIN_ANSWER_CHARS && answer !in s.baseline && answer !in PLACEHOLDERS
    ensures exists c :: c in polls(n).candidates.value && !c.isUser && s.normalize(c.text) == answer
    ensures !Streams(s, polls(n)) && polls(n).generating == Some(false)
    ensures forall j :: 0 <= j && n < j + s.config.stablePolls && j <= n ==> AnswerAt(s, polls(j)) == answer
    ensures s.config.stablePolls <= n + 1
    ensures forall k :: 0 <= k < n ==> !Settled(s, polls, k)
  {
    AnswerFacts(s, polls(n).candidates.value);
    forall k | 0 <= k < n ensures !Settled(s, polls, k) {
      assert Passes(s, polls, start, k);
    }
  }

  /**
   * An error that reports no output at all means that no poll ever showed an acceptable candidate, the poll at which
   * the wait was given up included; a run that ends at the deadline ends before its last poll is read.
   */
  lemma NoOutputMeansNothingAcceptable(
    s: Setting, polls: nat -> Poll, start: Millis, n: nat, outcome: Outcome, k: nat, c: Candidate)
    requires Explains(s, polls, start, n, outcome) && (outcome.NoConversation? || outcome.Silent? || outcome.NoOutput?)
    requires k < n || (k == n && !outcome.NoOutput?)
    requires polls(k).candidates.Some? && c in polls(k).candidates.value
    ensures !IsSubstantive(s, c)
  {
    AnswerFacts(s, polls(k).candidates.value);
    assert AnswerAt(s, polls(k)) == "";
  }

  /** The text a timeout carries is the longest answer seen, and at least 12 characters of it. */
  lemma TimeoutKeepsTheLongest(s: Setting, polls: nat -> Poll, start: Millis, n: nat, partial: string)
    requires Explains(s, polls, start, n, TimedOut(partial))
    ensures |partial| >= MIN_ANSWER_CHARS && partial !in s.baseline && partial !in PLACEHOLDERS
    ensures forall k :: 0 <= k < n ==> |AnswerAt(s, polls(k))| <= |partial|
    ensures forall k :: 0 <= k < n ==> !Settled(s, polls, k)
  {
    var k :| 0 <= k < n && AnswerAt(s, polls(k)) == partial;
    AnswerFacts(s, polls(k).candidates.value);
    forall k | 0 <= k < n ensures !Settled(s, polls, k) {
      assert Passes(s, polls, start, k);
    }
  }

  /** A poll that decides does not pass. */
  lemma DecidedDoesNotPass(s: Setting, polls: nat -> Poll, start: Millis, n: nat, outcome: Outcome)
    requires Explains(s, polls, start, n, outcome)
    ensures !Passes(s, polls, start, n)
  {
  }

  /** The meanings are complete: on every run exactly one outcome is explained, at exactly one poll. */
  lemma OutcomeIsDetermined(s: Setting, polls: nat -> Poll, start: Millis, n: nat, m: nat, a: Outcome, b: Outcome)
    requires Explains(s, polls, start, n, a) && Explains(s, polls, start, m, b)
    ensures a == b && n == m
  {
    DecidedDoesNotPass(s, polls, start, n, a);
    DecidedDoesNotPass(s, polls, start, m, b);
    assert n < m ==> Passes(s, polls, start, n);
    assert m < n ==> Passes(s, polls, start, m);
    SameOutcome(s, polls, start, n, a, b);
  }

  lemma SameOutcome(s: Setting, polls: nat -> Poll, start: Millis, n: nat, a: Outcome, b: Outcome)
    requires Explains(s, polls, start, n, a) && Explains(s, polls, start, n, b)
    ensures a == b
  {
    if a.TimedOut? && b.TimedOut? {
      SameLongest(s, polls, n, a.partialAnswer, b.partialAnswer);
    }
  }

  lemma SameLongest(s: Setting, polls: nat -> Poll, n: nat, a: string, b: string)
    requires IsLongest(s, polls, n, a) && IsLongest(s, polls, n, b) && a != "" && b != ""
    ensures a == b
  {
    var i :| 0 <= i < n && AnswerAt(s, polls(i)) == a && forall j :: 0 <= j < i ==> |AnswerAt(s, polls(j))| < |a|;
    var k :| 0 <= k < n && AnswerAt(s, polls(k)) == b && forall j :: 0 <= j < k ==> |AnswerAt(s, polls(j))| < |b|;
  }
}
