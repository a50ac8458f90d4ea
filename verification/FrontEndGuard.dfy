/** The check before every run: the previous turn must be over, and the page a usable chat. */
module FrontEndGuard {
  import opened Wrappers
  import opened Errors

  type Millis = int

  datatype Snapshot = Snapshot(busy: bool, newConversationVisible: bool, composerCount: nat)

  /**
   * One look at the page; a part is `None` when its query throws. `at` is the clock when the loop decides whether to
   * look again, `sleeps` whether the page can be waited on until then.
   */
  datatype Look = Look(session: Option<Session>, snapshot: Option<Snapshot>, at: Millis, sleeps: bool)

  datatype Config = Config(idleWaitMs: nat, pollMs: nat, stableIdlePolls: nat, hadStoredAuth: bool)

  /**
   * Everything the page will show: the looks while waiting for idleness, whether it is inside a conversation then,
   * whether it can be taken to the chat root, and the look after that.
   */
  datatype Surface = Surface(looks: nat -> Look, start: Millis, inConversation: bool, reachesRoot: bool, atRoot: Look)

  datatype Verdict = Ready(navigated: bool) | Stopped(error: Error)

  /** The sessions that stop a run at once, and how. */
  function SessionError(session: Session, hadStoredAuth: bool): Option<Error> {
    match session
    case Verification => Some(Error(VerificationRequired, None))
    case Restricted => Some(Error(AccessRestricted, None))
    case Login => Some(Error(if hadStoredAuth then SessionExpired else LoginRequired, Some(false)))
    case _ => None
  }

  predicate Clear(c: Config, look: Look) {
    look.session.Some? && SessionError(look.session.value, c.hadStoredAuth).None? && look.snapshot.Some?
  }

  predicate Idle(look: Look) {
    look.snapshot.Some? && !look.snapshot.value.busy
  }

  /** The last `n` looks up to `k` were idle. */
  predicate StablyIdle(looks: nat -> Look, k: nat, n: nat) {
    n <= k + 1 && forall j :: k + 1 - n <= j <= k ==> Idle(looks(j))
  }

  /** Look `k` leads to another one. */
  predicate Waits(c: Config, s: Surface, k: nat) {
    Clear(c, s.looks(k)) && !StablyIdle(s.looks, k, c.stableIdlePolls)
    && s.looks(k).at < s.start + c.idleWaitMs && s.looks(k).sleeps
  }

  /** Look `k` is readable but comes too late to wait for idleness any longer. */
  predicate TimesOut(c: Config, s: Surface, k: nat) {
    Clear(c, s.looks(k)) && !StablyIdle(s.looks, k, c.stableIdlePolls) && s.looks(k).at >= s.start + c.idleWaitMs
  }

  /** `n` is the look at which the waiting ends. */
  ghost predicate Decides(c: Config, s: Surface, n: nat) {
    !Waits(c, s, n) && forall k :: 0 <= k < n ==> Waits(c, s, k)
  }

  predicate Usable(look: Look) {
    look.session == Some(Healthy) && look.snapshot.Some? && look.snapshot.value.composerCount > 0
  }

  predicate Navigates(s: Surface, n: nat) {
    s.inConversation && s.looks(n).snapshot.Some? && !s.looks(n).snapshot.value.newConversationVisible
  }

  /** The page passes: stably idle, no blocking session, and in the end positively a usable chat. */
  ghost predicate Passes(c: Config, s: Surface, n: nat) {
    && Clear(c, s.looks(n)) && StablyIdle(s.looks, n, c.stableIdlePolls)
    && if Navigates(s, n) then s.reachesRoot && Usable(s.atRoot) else Usable(s.looks(n))
  }

  ghost predicate Ticks(c: Config, s: Surface) {
    c.pollMs > 0 && c.stableIdlePolls > 0 && forall i: nat :: s.looks(i + 1).at >= s.looks(i).at + c.pollMs
  }

  /** The last `streak` of the first `n` looks were idle, the one before them was not. */
  ghost predicate Counts(looks: nat -> Look, n: nat, streak: nat) {
    && streak <= n && (forall j :: n - streak <= j < n ==> Idle(looks(j)))
    && (streak < n ==> !Idle(looks(n - streak - 1)))
  }

  /** Counting idle looks in a row decides stability. */
  lemma StreakDecides(looks: nat -> Look, k: nat, streak: nat, n: nat)
    requires Counts(looks, k, streak)
    ensures var next := if Idle(looks(k)) then streak + 1 else 0;
      Counts(looks, k + 1, next) && (StablyIdle(looks, k, n) <==> n <= next)
  {
    var next := if Idle(looks(k)) then streak + 1 else 0;
    assert next <= k && n > next ==> k + 1 - n <= k - next && !Idle(looks(k - next));
  }

  /** One look: an error that stops the run, or whether the page is stably idle by now. */
  method TakeLook(c: Config, s: Surface, n: nat, streak: nat) returns (error: Option<Error>, next: nat)
    requires Counts(s.looks, n, streak) && c.stableIdlePolls > 0
    ensures error.None? ==> Clear(c, s.looks(n)) && Counts(s.looks, n + 1, next)
    ensures error.None? ==> (next >= c.stableIdlePolls <==> StablyIdle(s.looks, n, c.stableIdlePolls))
    ensures error.None? && next < c.stableIdlePolls ==> Waits(c, s, n)
    ensures error.Some? ==> !Waits(c, s, n) && !Passes(c, s, n)
    ensures error.Some? ==> error.value.promptSubmitted != Some(true) && !CanRetryOutcome(error.value)
    ensures error.Some? && error.value.code.SubmissionFailed? <==> TimesOut(c, s, n)
    ensures s.looks(n).session.Some? && SessionError(s.looks(n).session.value, c.hadStoredAuth).Some? ==>
      error == SessionError(s.looks(n).session.value, c.hadStoredAuth)
  {
    var look := s.looks(n);
    next := streak;
    if !Clear(c, look) {
      return Some(Unclear(c, look)), next;
    }
    StreakDecides(s.looks, n, streak, c.stableIdlePolls);
    next := if look.snapshot.value.busy then 0 else streak + 1;
    if next >= c.stableIdlePolls {
      return None, next;
    }
    if look.at >= s.start + c.idleWaitMs {
      return Some(Error(SubmissionFailed, None)), next;
    }
    error := if look.sleeps then None else Some(PAGE_ERROR);
  }

  method PrepareFrontEnd(c: Config, s: Surface) returns (verdict: Verdict, n: nat)
    requires Ticks(c, s)
    ensures Decides(c, s, n)
    ensures verdict.Ready? <==> Passes(c, s, n)
    ensures verdict.Ready? ==> verdict.navigated == Navigates(s, n)
    ensures verdict.Stopped? ==> verdict.error.promptSubmitted != Some(true)
    ensures verdict.Stopped? && CanRetryOutcome(verdict.error) ==> verdict.error == Error(PageChanged, Some(false))
    ensures verdict.Stopped? && verdict.error.code.SubmissionFailed? <==> TimesOut(c, s, n)
    ensures s.looks(n).session.Some? && SessionError(s.looks(n).session.value, c.hadStoredAuth).Some? ==>
      verdict == Stopped(SessionError(s.looks(n).session.value, c.hadStoredAuth).value)
  {
    var error, idleStreak: nat := TakeLook(c, s, 0, 0);
    n := 0;
    while error.None? && idleStreak < c.stableIdlePolls
      invariant forall k :: 0 <= k < n ==> Waits(c, s, k)
      invariant error.None? ==> Clear(c, s.looks(n)) && Counts(s.looks, n + 1, idleStreak)
      invariant error.None? ==> (idleStreak >= c.stableIdlePolls <==> StablyIdle(s.looks, n, c.stableIdlePolls))
      invariant error.None? && idleStreak < c.stableIdlePolls ==> Waits(c, s, n)
      invariant error.Some? ==> !Waits(c, s, n) && !Passes(c, s, n)
      invariant error.Some? ==> error.value.promptSubmitted != Some(true) && !CanRetryOutcome(error.value)
      invariant error.Some? && error.value.code.SubmissionFailed? <==> TimesOut(c, s, n)
      invariant s.looks(n).session.Some? && SessionError(s.looks(n).session.value, c.hadStoredAuth).Some? ==>
        error == SessionError(s.looks(n).session.value, c.hadStoredAuth)
      decreases s.start + c.idleWaitMs - s.looks(n).at, if error.None? then 1 else 0
    {
      n := n + 1;
      error, idleStreak := TakeLook(c, s, n, idleStreak);
    }
    if error.Some? {
      return Stopped(error.value), n;
    }
    verdict := Inspect(c, s, n);
  }

  function Unclear(c: Config, look: Look): Error {
    if look.session.Some? then OrElse(SessionError(look.session.value, c.hadStoredAuth), Some(PAGE_ERROR)).value
      else PAGE_ERROR
  }

  /** After the wait: to the chat root if the conversation page lost its control, then the fail-closed checks. */
  method Inspect(c: Config, s: Surface, n: nat) returns (verdict: Verdict)
    requires Clear(c, s.looks(n)) && StablyIdle(s.looks, n, c.stableIdlePolls)
    ensures verdict.Ready? <==> Passes(c, s, n)
    ensures verdict.Ready? ==> verdict.navigated == Navigates(s, n)
    ensures verdict.Stopped? ==> verdict.error.promptSubmitted != Some(true) && !verdict.error.code.SubmissionFailed?
    ensures verdict.Stopped? && CanRetryOutcome(verdict.error) ==> verdict.error == Error(PageChanged, Some(false))
  {
    var look := s.looks(n);
    var navigated := false;
    if s.inConversation && !look.snapshot.value.newConversationVisible {
      if !s.reachesRoot {
        return Stopped(PAGE_ERROR);
      }
      navigated := true;
      look := s.atRoot;
      if !Clear(c, look) {
        return Stopped(Unclear(c, look));
      }
    }
    if look.session != Some(Healthy) || look.snapshot.value.composerCount == 0 {
      return Stopped(Error(PageChanged, Some(false)));
    }
    verdict := Ready(navigated);
  }

  /** The look that ends the waiting is unique, so the contract leaves no choice. */
  lemma DecisionIsUnique(c: Config, s: Surface, m: nat, n: nat)
    requires Decides(c, s, m) && Decides(c, s, n)
    ensures m == n
  {
    assert m < n ==> Waits(c, s, m);
    assert n < m ==> Waits(c, s, n);
  }

  /** A page that passes was idle for the required number of looks in a row, with no blocking session at any look. */
  lemma PassedPagesWereIdle(c: Config, s: Surface, n: nat)
    requires Decides(c, s, n) && Passes(c, s, n)
    ensures c.stableIdlePolls <= n + 1
    ensures forall j: nat :: n < j + c.stableIdlePolls && j <= n ==> Idle(s.looks(j))
    ensures forall k :: 0 <= k <= n ==>
      s.looks(k).session.Some? && SessionError(s.looks(k).session.value, c.hadStoredAuth).None?
    ensures forall k :: 0 <= k < n ==> !StablyIdle(s.looks, k, c.stableIdlePolls)
  {
    forall k | 0 <= k < n ensures Clear(c, s.looks(k)) && !StablyIdle(s.looks, k, c.stableIdlePolls) {
      assert Waits(c, s, k);
    }
    assert forall k :: 0 <= k <= n ==> Clear(c, s.looks(k));
  }

  /** The page a run is started on: the look the last checks were made at. */
  function FinalLook(s: Surface, n: nat): Look {
    if Navigates(s, n) then s.atRoot else s.looks(n)
  }

  /**
   * Idleness is established before the page is taken to the chat root and not looked at afterwards: the page a run
   * starts on is idle unless there was a navigation, and after one it may be busy.
   */
  lemma IdleUnlessNavigated(c: Config, s: Surface, n: nat)
    requires c.stableIdlePolls > 0 && Decides(c, s, n) && Passes(c, s, n)
    ensures !Idle(FinalLook(s, n)) ==> Navigates(s, n)
    ensures Navigates(s, n) ==>
      Passes(c, s.(atRoot := s.atRoot.(snapshot := Some(s.atRoot.snapshot.value.(busy := true)))), n)
  {
    assert Idle(s.looks(n));
  }
}
