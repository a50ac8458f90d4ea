/**
 * Every interleaving of concurrent acquires, refreshes and releases on one pool.
 *
 * A step is a stretch of code between two awaits. Its clock readings are arbitrary but never go back; a timer
 * fires no earlier than it was set for; the provider may answer anything or fail.
 */
module PoolRuns {
  import opened Wrappers
  import opened Sequences
  import opened InsertionMap
  import opened ProxyRecord
  import opened ProxyPool

  datatype Outcome = Pending | Refreshed | RefreshFailed(reason: string)

  /** An acquire that is waiting for the shared refresh, or about to be resumed after it. */
  datatype Waiter = Waiter(key: Key, minRemaining: Time, outcome: Outcome)

  /** What has happened so far: ids handed out, ids that entered the inventory, extraction starts and ends. */
  datatype Log = Log(handed: seq<Id>, entered: seq<Id>, starts: seq<Time>, ends: seq<Time>)

  datatype State = State(pool: Pool, waiters: map<nat, Waiter>, clock: Time, log: Log)

  datatype Step =
    | Acquire(ticket: nat, key: Key, minRemaining: Time, atBound: Time, atPick: Time, atRefresh: Time)
    | StartExtract(at: Time)
    | Settle(batch: Result<seq<Exit>, string>, atDone: Time, atPrune: Time)
    | Resume(ticket: nat, at: Time)
    | Release(id: Id, ok: bool)

  const START := State(EMPTY_POOL, map[], 0.0, Log([], [], [], []))

  ghost predicate Enabled(s: State, step: Step) {
    match step
    case Acquire(ticket, _, _, atBound, atPick, atRefresh) =>
      ticket !in s.waiters && s.clock <= atBound <= atPick <= atRefresh
    case StartExtract(at) => s.clock <= at && s.pool.flight.Pacing? && s.pool.flight.notBefore <= at
    case Settle(_, atDone, atPrune) => s.clock <= atDone <= atPrune && s.pool.flight.Fetching?
    case Resume(ticket, at) => s.clock <= at && ticket in s.waiters && !s.waiters[ticket].outcome.Pending?
    case Release(_, _) => true
  }

  function Deliver(log: Log, exit: Option<Exit>): Log {
    match exit
    case Some(e) => log.(handed := log.handed + [e.id])
    case None => log
  }

  /** The attempt a waiter makes when it is resumed; after a failed refresh it makes none. */
  function ResumeAttempt(cfg: Config, s: State, ticket: nat, at: Time): Attempt
    requires ticket in s.waiters
  {
    var w := s.waiters[ticket];
    if w.outcome.Refreshed? then TakeUsable(cfg, s.pool, w.key, w.minRemaining, at) else Attempt(s.pool, None)
  }

  function AfterAcquire(cfg: Config, s: State, ticket: nat, key: Key, minRemaining: Time,
                        atBound: Time, atPick: Time, atRefresh: Time): State
  {
    var attempt := BeginAcquire(cfg, s.pool, key, minRemaining, atBound, atPick);
    if attempt.exit.Some? then
      State(attempt.pool, s.waiters, atRefresh, Deliver(s.log, attempt.exit))
    else
      var pool := BeginRefresh(cfg, attempt.pool, atRefresh);
      var starting := s.pool.flight.Idle? && pool.flight.Fetching?;
      State(pool, s.waiters[ticket := Waiter(key, minRemaining, Pending)], atRefresh,
            if starting then s.log.(starts := s.log.starts + [atRefresh]) else s.log)
  }

  ghost function AfterSettle(
    cfg: Config, s: State, batch: Result<seq<Exit>, string>, atDone: Time, atPrune: Time): State
  {
    var outcome := match batch case Ok(_) => Refreshed case Err(reason) => RefreshFailed(reason);
    State(SettleRefresh(cfg, s.pool, batch, atDone, atPrune), Wake(s.waiters, outcome), atPrune,
          s.log.(entered := s.log.entered + Entered(s.pool, batch), ends := s.log.ends + [atDone]))
  }

  function AfterResume(cfg: Config, s: State, ticket: nat, at: Time): State
    requires ticket in s.waiters
  {
    var attempt := ResumeAttempt(cfg, s, ticket, at);
    State(attempt.pool, s.waiters - {ticket}, at, Deliver(s.log, attempt.exit))
  }

  ghost function After(cfg: Config, s: State, step: Step): State
    requires Enabled(s, step)
  {
    match step
    case Acquire(ticket, key, minRemaining, atBound, atPick, atRefresh) =>
      AfterAcquire(cfg, s, ticket, key, minRemaining, atBound, atPick, atRefresh)
    case StartExtract(at) =>
      State(s.pool.(flight := Fetching), s.waiters, at, s.log.(starts := s.log.starts + [at]))
    case Settle(batch, atDone, atPrune) => AfterSettle(cfg, s, batch, atDone, atPrune)
    case Resume(ticket, at) => AfterResume(cfg, s, ticket, at)
    case Release(id, ok) => s.(pool := ReleaseExit(s.pool, id, ok))
  }

  ghost function Wake(waiters: map<nat, Waiter>, outcome: Outcome): map<nat, Waiter> {
    map t | t in waiters :: if waiters[t].outcome.Pending? then waiters[t].(outcome := outcome) else waiters[t]
  }

  function Entered(p: Pool, batch: Result<seq<Exit>, string>): seq<Id> {
    match batch
    case Ok(exits) => Entering(p.exits, exits)
    case Err(_) => []
  }

  /** The exit a step hands to its caller. */
  function Delivered(cfg: Config, s: State, step: Step): Option<Exit> {
    match step
    case Acquire(_, key, minRemaining, atBound, atPick, _) =>
      BeginAcquire(cfg, s.pool, key, minRemaining, atBound, atPick).exit
    case Resume(ticket, at) => if ticket in s.waiters then ResumeAttempt(cfg, s, ticket, at).exit else None
    case _ => None
  }

  ghost predicate Run(cfg: Config, states: seq<State>, steps: seq<Step>) {
    && |states| == |steps| + 1
    && states[0] == START
    && forall i :: 0 <= i < |steps| ==> Enabled(states[i], steps[i]) && states[i + 1] == After(cfg, states[i], steps[i])
  }

  lemma RunStep(cfg: Config, states: seq<State>, steps: seq<Step>, i: nat)
    requires Run(cfg, states, steps) && i < |steps|
    ensures Enabled(states[i], steps[i]) && states[i + 1] == After(cfg, states[i], steps[i])
  {
  }

  // --------------------------------------------- what holds at every yield point

  ghost predicate PoolSound(cfg: Config, p: Pool) {
    && WellKeyed(p.exits)
    && Distinct(p.consumed)
    && |p.exits| <= cfg.maxPoolSize
    && |Elements(p.consumed) + KeySet(p.exits)| <= CONSUMED_HISTORY_LIMIT + cfg.maxPoolSize
    && (forall key :: key in p.assignment ==> p.assignment[key] in KeySet(p.exits))
  }

  ghost predicate Sound(cfg: Config, s: State) {
    && PoolSound(cfg, s.pool)
    && (forall t :: t in s.waiters && s.waiters[t].outcome.Pending? ==> !s.pool.flight.Idle?)
  }

  /** Taking an exit changes only the mark or the binding of the exit taken. */
  lemma TakeFacts(cfg: Config, p: Pool, key: Key, minRemaining: Time, now: Time)
    requires WellKeyed(p.exits)
    ensures var a := TakeUsable(cfg, p, key, minRemaining, now);
      && (a.exit.None? ==> a.pool == p)
      && (a.exit.Some? ==>
            var id := a.exit.value.id;
            && Entry(id, a.exit.value) in p.exits && id in KeySet(p.exits)
            && !TooShort(a.exit.value, now, minRemaining)
            && (cfg.mode.PerSession? ==> id !in p.consumed)
            && a.pool == Commit(cfg, p, key, id))
  {
    PickFacts(p, AskFor(cfg, key, minRemaining, now), cfg.hash);
  }

  lemma StickyFacts(cfg: Config, p: Pool, key: Key, minRemaining: Time, now: Time)
    requires WellKeyed(p.exits) && Sticky(cfg, p, key, minRemaining, now).Some?
    ensures cfg.mode.Pooled? && key in p.assignment
    ensures var exit := Sticky(cfg, p, key, minRemaining, now).value;
      Entry(exit.id, exit) in p.exits && exit.id == p.assignment[key] && !TooShort(exit, now, minRemaining)
  {
    var i := Find(p.exits, p.assignment[key]);
    assert p.exits[i] in p.exits;
  }

  /** An acquire that succeeds at once commits an exit of the inventory that lives long enough; else it only unbinds. */
  lemma AcquireFacts(cfg: Config, p: Pool, key: Key, minRemaining: Time, atBound: Time, atPick: Time)
    requires WellKeyed(p.exits)
    ensures var a := BeginAcquire(cfg, p, key, minRemaining, atBound, atPick);
      && (a.exit.None? ==> a.pool == Unbind(cfg, p, key))
      && (a.exit.Some? ==>
            var id := a.exit.value.id;
            && Entry(id, a.exit.value) in p.exits && id in KeySet(p.exits)
            && (!TooShort(a.exit.value, atBound, minRemaining) || !TooShort(a.exit.value, atPick, minRemaining))
            && (cfg.mode.PerSession? ==> id !in p.consumed)
            && a.pool == Commit(cfg, p, key, id))
  {
    if Sticky(cfg, p, key, minRemaining, atBound).Some? {
      StickyFacts(cfg, p, key, minRemaining, atBound);
      assert p.assignment[key := p.assignment[key]] == p.assignment;
    } else {
      var q := Unbind(cfg, p, key);
      TakeFacts(cfg, q, key, minRemaining, atPick);
      var a := TakeUsable(cfg, q, key, minRemaining, atPick);
      if a.exit.Some? && cfg.mode.Pooled? {
        assert (p.assignment - {key})[key := a.exit.value.id] == p.assignment[key := a.exit.value.id];
      }
    }
  }

  lemma CommitKeepsSound(cfg: Config, p: Pool, key: Key, id: Id)
    requires PoolSound(cfg, p) && id in KeySet(p.exits)
    ensures PoolSound(cfg, Commit(cfg, p, key, id))
  {
    var q := Commit(cfg, p, key, id);
    assert Elements(q.consumed) + KeySet(q.exits) == Elements(p.consumed) + KeySet(p.exits);
  }

  /** A settled refresh is a batch of insertions followed by a prune. */
  lemma SettleFacts(cfg: Config, p: Pool, batch: Result<seq<Exit>, string>, atDone: Time, atPrune: Time)
    requires WellKeyed(p.exits) && Distinct(p.consumed)
    ensures var q := SettleRefresh(cfg, p, batch, atDone, atPrune);
      && PoolSound(cfg, q)
      && q.flight.Idle? && q.lastExtractAt == atDone
      && (forall id :: id in KeySet(q.exits) ==> id in KeySet(p.exits) || id in Entered(p, batch))
      && (forall id :: id in KeySet(q.exits) ==> (id in q.consumed <==> id in p.consumed))
      && (forall id :: id in q.consumed ==> id in p.consumed)
      && (forall e :: e in q.exits ==> !Expired(e.value, atPrune))
      && q.assignment == Restrict(p.assignment, KeySet(q.exits))
  {
    var exits := if batch.Ok? then InsertAll(p.exits, batch.value) else p.exits;
    if batch.Ok? {
      InsertAllFacts(p.exits, batch.value);
    }
    var loaded := Loaded(p, batch, atDone);
    SurvivorsFacts(exits, cfg.maxPoolSize, atPrune);
    PruneMarks(loaded, cfg.maxPoolSize, atPrune);
    PruneBounds(loaded, cfg.maxPoolSize, atPrune);
  }

  lemma ReleaseKeepsSound(cfg: Config, p: Pool, id: Id, ok: bool)
    requires PoolSound(cfg, p)
    ensures PoolSound(cfg, ReleaseExit(p, id, ok))
    ensures KeySet(ReleaseExit(p, id, ok).exits) == if ok then KeySet(p.exits) else KeySet(p.exits) - {id}
  {
    if !ok {
      WithoutFacts(p.exits, {id});
      var q := ReleaseExit(p, id, ok);
      KeySetSize(p.exits);
      KeySetSize(q.exits);
      Smaller(KeySet(q.exits), KeySet(p.exits));
      Smaller(Elements(q.consumed) + KeySet(q.exits), Elements(p.consumed) + KeySet(p.exits));
    }
  }

  lemma Smaller<T>(a: set<T>, b: set<T>)
    requires a <= b
    ensures |a| <= |b|
  {
    assert b == a + (b - a);
  }

  lemma AcquireKeepsPoolSound(cfg: Config, p: Pool, key: Key, minRemaining: Time, atBound: Time, atPick: Time)
    requires PoolSound(cfg, p)
    ensures var a := BeginAcquire(cfg, p, key, minRemaining, atBound, atPick);
      PoolSound(cfg, a.pool) && a.pool.flight == p.flight
  {
    AcquireFacts(cfg, p, key, minRemaining, atBound, atPick);
    var a := BeginAcquire(cfg, p, key, minRemaining, atBound, atPick);
    if a.exit.Some? {
      CommitKeepsSound(cfg, p, key, a.exit.value.id);
    }
  }

  lemma RefreshKeepsPoolSound(cfg: Config, p: Pool, now: Time)
    requires PoolSound(cfg, p)
    ensures PoolSound(cfg, BeginRefresh(cfg, p, now)) && !BeginRefresh(cfg, p, now).flight.Idle?
  {
  }

  lemma AcquireKeepsSound(cfg: Config, s: State, step: Step)
    requires Sound(cfg, s) && Enabled(s, step) && step.Acquire?
    ensures Sound(cfg, After(cfg, s, step))
  {
    var a := BeginAcquire(cfg, s.pool, step.key, step.minRemaining, step.atBound, step.atPick);
    AcquireKeepsPoolSound(cfg, s.pool, step.key, step.minRemaining, step.atBound, step.atPick);
    RefreshKeepsPoolSound(cfg, a.pool, step.atRefresh);
  }

  lemma ResumeKeepsSound(cfg: Config, s: State, step: Step)
    requires Sound(cfg, s) && Enabled(s, step) && step.Resume?
    ensures Sound(cfg, After(cfg, s, step))
  {
    var w := s.waiters[step.ticket];
    TakeFacts(cfg, s.pool, w.key, w.minRemaining, step.at);
    var a := ResumeAttempt(cfg, s, step.ticket, step.at);
    if a.exit.Some? {
      CommitKeepsSound(cfg, s.pool, w.key, a.exit.value.id);
    }
  }

  lemma StepKeepsSound(cfg: Config, s: State, step: Step)
    requires Sound(cfg, s) && Enabled(s, step)
    ensures Sound(cfg, After(cfg, s, step))
  {
    match step
    case Acquire(_, _, _, _, _, _) => AcquireKeepsSound(cfg, s, step);
    case StartExtract(_) =>
    case Settle(batch, atDone, atPrune) => SettleFacts(cfg, s.pool, batch, atDone, atPrune);
    case Resume(_, _) => ResumeKeepsSound(cfg, s, step);
    case Release(id, ok) => ReleaseKeepsSound(cfg, s.pool, id, ok);
  }

  /**
   * At every yield point of every run: bound exits are in the inventory, the inventory respects its limit, the ids
   * held in memory are bounded, and no acquire waits while no refresh is under way.
   */
  lemma {:induction false} RunSound(cfg: Config, states: seq<State>, steps: seq<Step>, i: nat)
    requires Run(cfg, states, steps) && i < |states|
    ensures Sound(cfg, states[i])
  {
    if i == 0 {
      assert Elements(START.pool.consumed) + KeySet(START.pool.exits) == {};
    } else {
      RunSound(cfg, states, steps, i - 1);
      StepKeepsSound(cfg, states[i - 1], steps[i - 1]);
    }
  }

  // ------------------------------------------------- one exit per session

  ghost predicate Fresh(p: Pool, id: Id) {
    id in KeySet(p.exits) && id !in p.consumed
  }

  /** Hand-outs of an id, plus the one still available, never exceed its entries into the inventory. */
  ghost predicate Accounted(s: State) {
    forall id :: multiset(s.log.handed)[id] + (if Fresh(s.pool, id) then 1 else 0) <= multiset(s.log.entered)[id]
  }

  lemma CommitKeepsAccounts(cfg: Config, s: State, t: State, key: Key, exit: Exit)
    requires cfg.mode.PerSession? && Accounted(s) && Fresh(s.pool, exit.id)
    requires t.pool == Commit(cfg, s.pool, key, exit.id) && t.log == Deliver(s.log, Some(exit))
    ensures Accounted(t)
  {
    forall id ensures multiset(t.log.handed)[id] + (if Fresh(t.pool, id) then 1 else 0) <= multiset(t.log.entered)[id] {
      assert multiset(t.log.handed) == multiset(s.log.handed) + multiset{exit.id};
      assert id != exit.id ==> (Fresh(t.pool, id) <==> Fresh(s.pool, id));
      assert multiset(s.log.handed)[id] + (if Fresh(s.pool, id) then 1 else 0) <= multiset(s.log.entered)[id];
    }
  }

  lemma SettleKeepsAccounts(cfg: Config, s: State, batch: Result<seq<Exit>, string>, atDone: Time, atPrune: Time)
    requires Sound(cfg, s) && Accounted(s)
    ensures Accounted(AfterSettle(cfg, s, batch, atDone, atPrune))
  {
    SettleFacts(cfg, s.pool, batch, atDone, atPrune);
    var t := AfterSettle(cfg, s, batch, atDone, atPrune);
    var arrivals := Entered(s.pool, batch);
    assert multiset(t.log.entered) == multiset(s.log.entered) + multiset(arrivals);
    forall id ensures multiset(t.log.handed)[id] + (if Fresh(t.pool, id) then 1 else 0) <= multiset(t.log.entered)[id] {
      assert multiset(s.log.handed)[id] + (if Fresh(s.pool, id) then 1 else 0) <= multiset(s.log.entered)[id];
      if Fresh(t.pool, id) && !Fresh(s.pool, id) {
        assert id in multiset(arrivals);
      }
    }
  }

  /** A step that delivers commits the exit it delivers; in per-session mode that exit was unmarked. */
  lemma DeliveryFacts(cfg: Config, s: State, step: Step)
    requires Sound(cfg, s) && Enabled(s, step) && Delivered(cfg, s, step).Some?
    ensures var exit := Delivered(cfg, s, step).value;
      && Entry(exit.id, exit) in s.pool.exits && exit.id in KeySet(s.pool.exits)
      && (cfg.mode.PerSession? ==> Fresh(s.pool, exit.id))
      && After(cfg, s, step).log == Deliver(s.log, Some(exit))
      && (exists key :: After(cfg, s, step).pool == Commit(cfg, s.pool, key, exit.id))
  {
    match step
    case Acquire(_, key, minRemaining, atBound, atPick, _) =>
      AcquireFacts(cfg, s.pool, key, minRemaining, atBound, atPick);
    case Resume(ticket, at) =>
      var w := s.waiters[ticket];
      TakeFacts(cfg, s.pool, w.key, w.minRemaining, at);
  }

  /** A step that delivers nothing and settles nothing leaves the marks alone. */
  lemma QuietFacts(cfg: Config, s: State, step: Step)
    requires Sound(cfg, s) && Enabled(s, step) && Delivered(cfg, s, step).None? && !step.Settle?
    ensures var t := After(cfg, s, step);
      && t.pool.consumed == s.pool.consumed && KeySet(t.pool.exits) <= KeySet(s.pool.exits)
      && t.log.handed == s.log.handed && t.log.entered == s.log.entered
  {
    match step
    case Acquire(_, key, minRemaining, atBound, atPick, _) =>
      AcquireFacts(cfg, s.pool, key, minRemaining, atBound, atPick);
    case StartExtract(_) =>
    case Resume(ticket, at) =>
      var w := s.waiters[ticket];
      TakeFacts(cfg, s.pool, w.key, w.minRemaining, at);
    case Release(id, ok) => ReleaseKeepsSound(cfg, s.pool, id, ok);
  }

  lemma StepKeepsAccounts(cfg: Config, s: State, step: Step)
    requires cfg.mode.PerSession? && Sound(cfg, s) && Enabled(s, step) && Accounted(s)
    ensures Accounted(After(cfg, s, step))
  {
    if Delivered(cfg, s, step).Some? {
      DeliveryFacts(cfg, s, step);
      var exit := Delivered(cfg, s, step).value;
      var key :| After(cfg, s, step).pool == Commit(cfg, s.pool, key, exit.id);
      CommitKeepsAccounts(cfg, s, After(cfg, s, step), key, exit);
    } else if step.Settle? {
      SettleKeepsAccounts(cfg, s, step.batch, step.atDone, step.atPrune);
    } else {
      QuietFacts(cfg, s, step);
      var t := After(cfg, s, step);
      forall id
        ensures multiset(t.log.handed)[id] + (if Fresh(t.pool, id) then 1 else 0) <= multiset(t.log.entered)[id]
      {
        assert multiset(s.log.handed)[id] + (if Fresh(s.pool, id) then 1 else 0) <= multiset(s.log.entered)[id];
      }
    }
  }

  lemma {:induction false} RunAccounted(cfg: Config, states: seq<State>, steps: seq<Step>, i: nat)
    requires cfg.mode.PerSession? && Run(cfg, states, steps) && i < |states|
    ensures Accounted(states[i])
  {
    if i == 0 {
      assert KeySet(START.pool.exits) == {};
    } else {
      RunAccounted(cfg, states, steps, i - 1);
      RunSound(cfg, states, steps, i - 1);
      StepKeepsAccounts(cfg, states[i - 1], steps[i - 1]);
    }
  }

  /** Under every interleaving the hand-outs, counted per id, are at most the entries into the inventory. */
  lemma HandoutsNeverExceedEntries(cfg: Config, states: seq<State>, steps: seq<Step>, i: nat)
    requires cfg.mode.PerSession? && Run(cfg, states, steps) && i < |states|
    ensures multiset(states[i].log.handed) <= multiset(states[i].log.entered)
    ensures |states[i].log.handed| <= |states[i].log.entered|
  {
    RunAccounted(cfg, states, steps, i);
    var handed, entered := multiset(states[i].log.handed), multiset(states[i].log.entered);
    forall id ensures handed[id] <= entered[id] {
      assert handed[id] + (if Fresh(states[i].pool, id) then 1 else 0) <= entered[id];
    }
    assert entered == handed + (entered - handed);
    assert |handed| == |states[i].log.handed| && |entered| == |states[i].log.entered|;
  }

  /** A mark survives every step after which its exit is still in the inventory. */
  lemma MarkSurvives(cfg: Config, s: State, step: Step, id: Id)
    requires Sound(cfg, s) && Enabled(s, step) && id in s.pool.consumed
    requires id in KeySet(After(cfg, s, step).pool.exits)
    ensures id in After(cfg, s, step).pool.consumed
  {
    if Delivered(cfg, s, step).Some? {
      DeliveryFacts(cfg, s, step);
    } else if step.Settle? {
      SettleFacts(cfg, s.pool, step.batch, step.atDone, step.atPrune);
    } else {
      QuietFacts(cfg, s, step);
    }
  }

  ghost predicate HandsOut(cfg: Config, s: State, step: Step, id: Id) {
    Delivered(cfg, s, step).Some? && Delivered(cfg, s, step).value.id == id
  }

  lemma HandOutMarks(cfg: Config, states: seq<State>, steps: seq<Step>, i: nat, id: Id)
    requires cfg.mode.PerSession? && Run(cfg, states, steps) && i < |steps|
    requires HandsOut(cfg, states[i], steps[i], id)
    ensures id !in states[i].pool.consumed && id in states[i + 1].pool.consumed
  {
    RunSound(cfg, states, steps, i);
    RunStep(cfg, states, steps, i);
    DeliveryFacts(cfg, states[i], steps[i]);
  }

  /** The step removes the mark of an exit that had been handed out. */
  ghost predicate Unmarks(cfg: Config, s: State, step: Step, id: Id)
    requires Enabled(s, step)
  {
    id in s.pool.consumed && id !in After(cfg, s, step).pool.consumed
  }

  /**
   * When a marked id can be served again: only the end of a refresh unmarks, and exactly the ids whose exit its prune
   * evicts or whose mark its prune forgets. A release never does.
   */
  lemma UnmarksIff(cfg: Config, s: State, step: Step, id: Id)
    requires Sound(cfg, s) && Enabled(s, step) && id in s.pool.consumed
    ensures Unmarks(cfg, s, step, id) <==>
            && step.Settle?
            && var loaded := Loaded(s.pool, step.batch, step.atDone);
               Evicts(loaded, cfg.maxPoolSize, step.atPrune, id) || Forgets(loaded, cfg.maxPoolSize, step.atPrune, id)
  {
    if Delivered(cfg, s, step).Some? {
      DeliveryFacts(cfg, s, step);
    } else if step.Settle? {
      if step.batch.Ok? {
        InsertAllFacts(s.pool.exits, step.batch.value);
      }
      PruneUnmarksIff(Loaded(s.pool, step.batch, step.atDone), cfg.maxPoolSize, step.atPrune, id);
    } else {
      QuietFacts(cfg, s, step);
    }
  }

  /** A mark that is gone was removed by some step. */
  lemma {:induction false} MarkRemoved(cfg: Config, states: seq<State>, steps: seq<Step>, i: nat, j: nat, id: Id)
    returns (k: nat)
    requires Run(cfg, states, steps) && i <= j < |states|
    requires id in states[i].pool.consumed && id !in states[j].pool.consumed
    ensures i <= k < j && Unmarks(cfg, states[k], steps[k], id)
    decreases j
  {
    RunStep(cfg, states, steps, j - 1);
    if id in states[j - 1].pool.consumed {
      k := j - 1;
    } else {
      k := MarkRemoved(cfg, states, steps, i, j - 1, id);
    }
  }

  /** The refresh that ends at step `k` unmarks the id, and its exit is not in the inventory afterwards. */
  ghost predicate FreedAt(cfg: Config, states: seq<State>, steps: seq<Step>, k: nat, id: Id) {
    && k < |steps| && k + 1 < |states| && steps[k].Settle? && Enabled(states[k], steps[k])
    && Unmarks(cfg, states[k], steps[k], id) && id !in KeySet(states[k + 1].pool.exits)
  }

  /**
   * An id is never handed out twice unless some refresh that ended in between unmarked it; the inventory did not hold
   * the id right after that.
   */
  lemma NoRepeatWithoutLeaving(cfg: Config, states: seq<State>, steps: seq<Step>, i: nat, j: nat, id: Id)
    requires cfg.mode.PerSession? && Run(cfg, states, steps) && i < j < |steps|
    requires HandsOut(cfg, states[i], steps[i], id) && HandsOut(cfg, states[j], steps[j], id)
    ensures exists k :: i < k < j && FreedAt(cfg, states, steps, k, id)
    ensures exists k :: i < k < j && id !in KeySet(states[k].pool.exits)
  {
    HandOutMarks(cfg, states, steps, i, id);
    HandOutMarks(cfg, states, steps, j, id);
    RunSound(cfg, states, steps, j);
    DeliveredInInventory(cfg, states[j], steps[j], id);
    var k := MarkRemoved(cfg, states, steps, i + 1, j, id);
    FreedByRefresh(cfg, states, steps, k, id);
  }

  lemma FreedByRefresh(cfg: Config, states: seq<State>, steps: seq<Step>, k: nat, id: Id)
    requires Run(cfg, states, steps) && k < |steps| && Unmarks(cfg, states[k], steps[k], id)
    ensures FreedAt(cfg, states, steps, k, id)
  {
    RunSound(cfg, states, steps, k);
    RunStep(cfg, states, steps, k);
    UnmarksIff(cfg, states[k], steps[k], id);
    if id in KeySet(states[k + 1].pool.exits) {
      MarkSurvives(cfg, states[k], steps[k], id);
    }
  }

  lemma DeliveredInInventory(cfg: Config, s: State, step: Step, id: Id)
    requires Sound(cfg, s) && Enabled(s, step) && HandsOut(cfg, s, step, id)
    ensures id in KeySet(s.pool.exits)
  {
    DeliveryFacts(cfg, s, step);
  }

  // --------------------------------------------------- single flight and pacing

  /** Starts and ends alternate, each start an interval after the end before it, and the pool remembers the last end. */
  ghost predicate PacedLog(interval: Time, log: Log, flight: Flight, lastEnd: Time, clock: Time) {
    && |log.starts| == |log.ends| + (if flight.Fetching? then 1 else 0)
    && (forall i :: 0 <= i < |log.ends| && i + 1 < |log.starts| ==> log.starts[i + 1] >= log.ends[i] + interval)
    && (forall i :: 0 <= i < |log.ends| ==> log.starts[i] <= log.ends[i] <= clock)
    && (forall i :: 0 <= i < |log.starts| ==> log.starts[i] <= clock)
    && lastEnd == (if log.ends == [] then 0.0 else Last(log.ends))
    && (flight.Pacing? ==> flight.notBefore == lastEnd + interval)
  }

  ghost predicate Paced(cfg: Config, s: State) {
    PacedLog(cfg.minIntervalMs, s.log, s.pool.flight, s.pool.lastExtractAt, s.clock)
  }

  lemma StartPaced(interval: Time, log: Log, flight: Flight, lastEnd: Time, clock: Time, at: Time)
    requires PacedLog(interval, log, flight, lastEnd, clock) && !flight.Fetching?
    requires clock <= at && lastEnd + interval <= at
    ensures PacedLog(interval, log.(starts := log.starts + [at]), Fetching, lastEnd, at)
  {
    var n, starts := |log.starts|, log.starts + [at];
    assert n == |log.ends| && starts[n] == at;
    forall i | 0 <= i < |log.ends| && i + 1 < |starts| ensures starts[i + 1] >= log.ends[i] + interval {
      if i + 1 < n {
        assert starts[i + 1] == log.starts[i + 1];
      }
    }
    forall i | 0 <= i < n ensures starts[i] == log.starts[i] <= clock {
    }
  }

  lemma EndPaced(interval: Time, log: Log, lastEnd: Time, clock: Time, at: Time, later: Time, entered: seq<Id>)
    requires PacedLog(interval, log, Fetching, lastEnd, clock) && clock <= at <= later
    ensures PacedLog(interval, log.(entered := entered, ends := log.ends + [at]), Idle, at, later)
  {
    var ends := log.ends + [at];
    assert forall i :: 0 <= i < |log.ends| ==> ends[i] == log.ends[i];
  }

  /** Waiting for the next start, handing out exits and the passing of time keep the pace. */
  lemma StillPaced(
    interval: Time, log: Log, flight: Flight, next: Flight, lastEnd: Time, clock: Time, later: Time, handed: seq<Id>)
    requires PacedLog(interval, log, flight, lastEnd, clock) && clock <= later
    requires next == flight || (flight.Idle? && next == Pacing(lastEnd + interval))
    ensures PacedLog(interval, log.(handed := handed), next, lastEnd, later)
  {
  }

  lemma AcquireKeepsPaced(cfg: Config, s: State, step: Step)
    requires Sound(cfg, s) && Enabled(s, step) && Paced(cfg, s) && step.Acquire?
    ensures Paced(cfg, After(cfg, s, step))
  {
    AcquireFacts(cfg, s.pool, step.key, step.minRemaining, step.atBound, step.atPick);
    var a := BeginAcquire(cfg, s.pool, step.key, step.minRemaining, step.atBound, step.atPick);
    assert a.pool.flight == s.pool.flight && a.pool.lastExtractAt == s.pool.lastExtractAt;
    if a.exit.Some? {
      StillPaced(cfg.minIntervalMs, s.log, s.pool.flight, s.pool.flight, s.pool.lastExtractAt, s.clock, step.atRefresh,
                 Deliver(s.log, a.exit).handed);
    } else {
      RefreshKeepsPaced(cfg, s, a.pool, step.atRefresh);
    }
  }

  /** A refresh that is begun starts at once, is put off by the rest of the interval, or joins the one under way. */
  lemma RefreshKeepsPaced(cfg: Config, s: State, p: Pool, at: Time)
    requires Paced(cfg, s) && s.clock <= at && p.flight == s.pool.flight && p.lastExtractAt == s.pool.lastExtractAt
    ensures var q := BeginRefresh(cfg, p, at);
      var log := if p.flight.Idle? && q.flight.Fetching? then s.log.(starts := s.log.starts + [at]) else s.log;
      PacedLog(cfg.minIntervalMs, log, q.flight, q.lastExtractAt, at)
  {
    var q := BeginRefresh(cfg, p, at);
    if p.flight.Idle? && q.flight.Fetching? {
      StartPaced(cfg.minIntervalMs, s.log, p.flight, p.lastExtractAt, s.clock, at);
    } else {
      StillPaced(cfg.minIntervalMs, s.log, p.flight, q.flight, p.lastExtractAt, s.clock, at, s.log.handed);
    }
  }

  lemma SettleKeepsPaced(cfg: Config, s: State, step: Step)
    requires Sound(cfg, s) && Enabled(s, step) && Paced(cfg, s) && step.Settle?
    ensures Paced(cfg, After(cfg, s, step))
  {
    SettleFacts(cfg, s.pool, step.batch, step.atDone, step.atPrune);
    EndPaced(cfg.minIntervalMs, s.log, s.pool.lastExtractAt, s.clock, step.atDone, step.atPrune,
             s.log.entered + Entered(s.pool, step.batch));
  }

  lemma ResumeKeepsPaced(cfg: Config, s: State, step: Step)
    requires Sound(cfg, s) && Enabled(s, step) && Paced(cfg, s) && step.Resume?
    ensures Paced(cfg, After(cfg, s, step))
  {
    var w := s.waiters[step.ticket];
    TakeFacts(cfg, s.pool, w.key, w.minRemaining, step.at);
    var a := ResumeAttempt(cfg, s, step.ticket, step.at);
    assert a.pool.flight == s.pool.flight && a.pool.lastExtractAt == s.pool.lastExtractAt;
    StillPaced(cfg.minIntervalMs, s.log, s.pool.flight, s.pool.flight, s.pool.lastExtractAt, s.clock, step.at,
               Deliver(s.log, a.exit).handed);
  }

  lemma StartKeepsPaced(cfg: Config, s: State, step: Step)
    requires Enabled(s, step) && Paced(cfg, s) && step.StartExtract?
    ensures Paced(cfg, After(cfg, s, step))
  {
    StartPaced(cfg.minIntervalMs, s.log, s.pool.flight, s.pool.lastExtractAt, s.clock, step.at);
  }

  lemma ReleaseKeepsPaced(cfg: Config, s: State, step: Step)
    requires Enabled(s, step) && Paced(cfg, s) && step.Release?
    ensures Paced(cfg, After(cfg, s, step))
  {
  }

  lemma StepKeepsPaced(cfg: Config, s: State, step: Step)
    requires Sound(cfg, s) && Enabled(s, step) && Paced(cfg, s)
    ensures Paced(cfg, After(cfg, s, step))
  {
    if step.Acquire? {
      AcquireKeepsPaced(cfg, s, step);
    } else if step.StartExtract? {
      StartKeepsPaced(cfg, s, step);
    } else if step.Settle? {
      SettleKeepsPaced(cfg, s, step);
    } else if step.Resume? {
      ResumeKeepsPaced(cfg, s, step);
    } else {
      ReleaseKeepsPaced(cfg, s, step);
    }
  }

  /**
   * Single flight and pacing: at most one extraction is open, and each starts no earlier than the interval after
   * the previous one ended, however that one ended and however many acquires run.
   */
  lemma {:induction false} RunPaced(cfg: Config, states: seq<State>, steps: seq<Step>, i: nat)
    requires Run(cfg, states, steps) && i < |states|
    ensures Paced(cfg, states[i])
  {
    if i > 0 {
      RunPaced(cfg, states, steps, i - 1);
      RunSound(cfg, states, steps, i - 1);
      StepKeepsPaced(cfg, states[i - 1], steps[i - 1]);
    }
  }

  /** `n` intervals, as repeated addition. */
  ghost function Intervals(n: nat, interval: real): real {
    if n == 0 then 0.0 else Intervals(n - 1, interval) + interval
  }

  lemma {:induction false} IntervalsMultiply(n: nat, interval: real)
    ensures Intervals(n, interval) == n as real * interval
  {
    if n > 0 {
      IntervalsMultiply(n - 1, interval);
      OneMore((n - 1) as real, interval);
      assert (n - 1) as real + 1.0 == n as real;
    }
  }

  lemma OneMore(n: real, interval: real)
    ensures (n + 1.0) * interval == n * interval + interval
  {
  }

  lemma {:induction false} StartsSpread(cfg: Config, s: State, i: nat, j: nat)
    requires Paced(cfg, s) && i <= j < |s.log.starts|
    ensures s.log.starts[j] - s.log.starts[i] >= Intervals(j - i, cfg.minIntervalMs)
    decreases j
  {
    if i < j {
      StartsSpread(cfg, s, i, j - 1);
      assert s.log.starts[j - 1] <= s.log.ends[j - 1];
    }
  }

  /** Any window of length `length` holds at most `length / interval + 1` extraction starts. */
  lemma WindowBound(cfg: Config, states: seq<State>, steps: seq<Step>, k: nat, i: nat, j: nat, from: Time, length: Time)
    requires Run(cfg, states, steps) && k < |states| && cfg.minIntervalMs > 0.0
    requires i <= j < |states[k].log.starts|
    requires from <= states[k].log.starts[i] && states[k].log.starts[j] <= from + length
    ensures (j - i + 1) as real <= length / cfg.minIntervalMs + 1.0
  {
    RunPaced(cfg, states, steps, k);
    StartsSpread(cfg, states[k], i, j);
    WindowArithmetic(j - i, cfg.minIntervalMs, length);
  }

  lemma WindowArithmetic(n: nat, interval: real, length: real)
    requires interval > 0.0 && Intervals(n, interval) <= length
    ensures (n + 1) as real <= length / interval + 1.0
  {
    IntervalsMultiply(n, interval);
    DivideBound(n as real, interval, length);
    assert (n + 1) as real == n as real + 1.0;
  }

  lemma DivideBound(n: real, interval: real, length: real)
    requires interval > 0.0 && n * interval <= length
    ensures n <= length / interval
  {
    var q := length / interval;
    assert q * interval == length;
    assert (n - q) * interval <= 0.0;
  }
}
