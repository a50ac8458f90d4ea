/** A run of a per-session pool in which a new server under a used id is refused. */
module PoolRecurrence {
  import opened Wrappers
  import opened Sequences
  import opened InsertionMap
  import opened ProxyRecord
  import opened ProxyPool
  import opened PoolRuns

  /** An inventory of one exit without expiry. */
  function OneExit(exit: Exit): Entries<Id, Exit> {
    [Entry(exit.id, exit)]
  }

  lemma OneSurvives(exit: Exit, max: nat, now: Time)
    requires exit.expiresAt.None? && max > 0
    ensures Survivors(OneExit(exit), max, now) == OneExit(exit)
  {
    var one := OneExit(exit);
    assert one[..0] == [] && Alive(one[..0], now) == [];
    assert Alive(one, now) == [] + [Entry(exit.id, exit)];
  }

  lemma OneCandidate(exit: Exit, consumed: seq<Id>, ask: Ask)
    requires exit.expiresAt.None? && ask.skipConsumed && ask.prefer.None?
    ensures Candidates(OneExit(exit), consumed, ask) == if exit.id in consumed then [] else [exit]
  {
    var one := OneExit(exit);
    assert one[..0] == [] && Candidates(one[..0], consumed, ask) == [];
    assert Candidates(one, consumed, ask) == if exit.id in consumed then [] else [] + [exit];
  }

  /** Putting one exit in place of another with its id, or into an empty inventory, and pruning. */
  lemma OneLoaded(cfg: Config, p: Pool, exit: Exit, at: Time)
    requires exit.expiresAt.None? && cfg.maxPoolSize > 0 && |p.consumed| <= 1 && p.assignment == map[]
    requires p.exits == [] || (|p.exits| == 1 && p.exits[0].key == exit.id)
    ensures SettleRefresh(cfg, p, Ok([exit]), at, at)
            == Pool(OneExit(exit), p.consumed, map[], at, Idle, p.extractions + 1, None)
  {
    OneInserted(p.exits, exit);
    OneSurvives(exit, cfg.maxPoolSize, at);
    OnePruned(Loaded(p, Ok([exit]), at), exit, cfg.maxPoolSize, at);
  }

  lemma {:induction false} OneInserted(exits: Entries<Id, Exit>, exit: Exit)
    requires exits == [] || (|exits| == 1 && exits[0].key == exit.id)
    ensures InsertAll(exits, [exit]) == OneExit(exit)
  {
    var batch := [exit];
    assert batch[..0] == [] && InsertAll(exits, batch[..0]) == exits;
    assert InsertAll(exits, batch) == Put(exits, exit.id, exit) == OneExit(exit);
  }

  lemma OnePruned(p: Pool, exit: Exit, max: nat, now: Time)
    requires p.exits == OneExit(exit) && Survivors(p.exits, max, now) == p.exits
    requires |p.consumed| <= 1 && p.assignment == map[]
    ensures Prune(p, max, now) == p
  {
    MinusNothing(p.consumed, KeySet(p.exits) - KeySet(p.exits));
    assert Restrict(p.assignment, KeySet(p.exits)) == map[];
  }

  /**
   * A pool of one fresh exit hands it out and marks it; a pool whose one exit is marked, or none, hands out nothing.
   */
  lemma OneTaken(cfg: Config, p: Pool, key: Key, minRemaining: Time, at: Time)
    requires cfg.mode.PerSession?
    requires p.exits == []
      || (|p.exits| == 1 && p.exits == OneExit(p.exits[0].value) && p.exits[0].value.expiresAt.None?)
    ensures BeginAcquire(cfg, p, key, minRemaining, at, at) == TakeUsable(cfg, p, key, minRemaining, at)
    ensures TakeUsable(cfg, p, key, minRemaining, at)
            == if p.exits == [] || p.exits[0].key in p.consumed then Attempt(p, None)
               else Attempt(p.(consumed := p.consumed + [p.exits[0].key]), Some(p.exits[0].value))
  {
    if p.exits != [] {
      OneCandidate(p.exits[0].value, p.consumed, AskFor(cfg, key, minRemaining, at));
    }
  }

  /** A lone acquire that finds nothing starts an extraction and waits. */
  lemma WaitsAlone(cfg: Config, s: PoolRuns.State, ticket: nat, key: Key, minRemaining: Time, at: Time)
    requires cfg.mode.PerSession? && s.waiters == map[] && s.pool.flight.Idle? && s.clock <= at
    requires s.pool.lastExtractAt + cfg.minIntervalMs <= at
    requires s.pool.exits == []
      || (s.pool.exits == OneExit(s.pool.exits[0].value) && s.pool.exits[0].value.expiresAt.None?
                                    && s.pool.exits[0].key in s.pool.consumed)
    ensures var step := Acquire(ticket, key, minRemaining, at, at, at);
      Enabled(s, step) &&
      After(cfg, s, step)
        == PoolRuns.State(s.pool.(flight := Fetching), map[ticket := Waiter(key, minRemaining, Pending)], at,
                                            s.log.(starts := s.log.starts + [at]))
  {
    OneTaken(cfg, s.pool, key, minRemaining, at);
  }

  /** The extraction brings one exit, and the waiting acquire is woken. */
  lemma OneArrives(cfg: Config, s: PoolRuns.State, ticket: nat, w: Waiter, exit: Exit)
    requires exit.expiresAt.None? && cfg.maxPoolSize > 0 && |s.pool.consumed| <= 1 && s.pool.assignment == map[]
    requires s.pool.exits == [] || (|s.pool.exits| == 1 && s.pool.exits[0].key == exit.id)
    requires s.pool.flight.Fetching? && s.waiters == map[ticket := w] && w.outcome.Pending?
    ensures var step := Settle(Ok([exit]), s.clock, s.clock);
      && Enabled(s, step)
      && After(cfg, s, step).pool
        == Pool(OneExit(exit), s.pool.consumed, map[], s.clock, Idle, s.pool.extractions + 1, None)
      && After(cfg, s, step).waiters == map[ticket := w.(outcome := Refreshed)] && After(cfg, s, step).clock == s.clock
  {
    OneLoaded(cfg, s.pool, exit, s.clock);
    assert Wake(s.waiters, Refreshed) == map[ticket := w.(outcome := Refreshed)];
  }

  ghost predicate Leads(cfg: Config, s: PoolRuns.State, step: Step, t: PoolRuns.State) {
    Enabled(s, step) && t == After(cfg, s, step)
  }

  /** From an idle pool without usable exits: one acquire waits, one extraction brings one exit. */
  lemma OneRound(cfg: Config, s: PoolRuns.State, ticket: nat, key: Key, minRemaining: Time, exit: Exit, at: Time)
    returns (waiting: PoolRuns.State, arrived: PoolRuns.State)
    requires cfg.mode.PerSession? && cfg.maxPoolSize > 0 && exit.expiresAt.None?
    requires s.waiters == map[] && s.pool.flight.Idle? && s.clock <= at
      && s.pool.lastExtractAt + cfg.minIntervalMs <= at
    requires |s.pool.consumed| <= 1 && s.pool.assignment == map[]
    requires s.pool.exits == []
      || (s.pool.exits == OneExit(s.pool.exits[0].value) && s.pool.exits[0].value.expiresAt.None?
                                    && s.pool.exits[0].key == exit.id && exit.id in s.pool.consumed)
    ensures Leads(cfg, s, Acquire(ticket, key, minRemaining, at, at, at), waiting)
    ensures Leads(cfg, waiting, Settle(Ok([exit]), at, at), arrived)
    ensures arrived.pool == Pool(OneExit(exit), s.pool.consumed, map[], at, Idle, s.pool.extractions + 1, None)
    ensures arrived.waiters == map[ticket := Waiter(key, minRemaining, Refreshed)] && arrived.clock == at
  {
    WaitsAlone(cfg, s, ticket, key, minRemaining, at);
    waiting := After(cfg, s, Acquire(ticket, key, minRemaining, at, at, at));
    OneArrives(cfg, waiting, ticket, Waiter(key, minRemaining, Pending), exit);
    arrived := After(cfg, waiting, Settle(Ok([exit]), at, at));
  }

  /** The waiter is resumed: it takes the one exit if it is unmarked, and is refused otherwise. */
  lemma OneResumed(cfg: Config, s: PoolRuns.State, ticket: nat, w: Waiter, exit: Exit, at: Time)
    returns (after: PoolRuns.State)
    requires cfg.mode.PerSession? && exit.expiresAt.None? && s.pool.exits == OneExit(exit) && s.clock == at
    requires s.waiters == map[ticket := w] && w.outcome.Refreshed?
    ensures Leads(cfg, s, Resume(ticket, at), after)
    ensures Delivered(cfg, s, Resume(ticket, at)) == if exit.id in s.pool.consumed then None else Some(exit)
    ensures after.waiters == map[] && after.clock == at
    ensures after.pool
      == if exit.id in s.pool.consumed then s.pool else s.pool.(consumed := s.pool.consumed + [exit.id])
  {
    OneTaken(cfg, s.pool, w.key, w.minRemaining, at);
    after := After(cfg, s, Resume(ticket, at));
    assert s.waiters - {ticket} == map[];
  }

  lemma RunExtends(cfg: Config, states: seq<PoolRuns.State>, steps: seq<Step>, step: Step, t: PoolRuns.State)
    requires Run(cfg, states, steps) && Leads(cfg, states[|states| - 1], step, t)
    ensures Run(cfg, states + [t], steps + [step])
  {
    var more, done := states + [t], steps + [step];
    forall i | 0 <= i < |done| ensures Enabled(more[i], done[i]) && more[i + 1] == After(cfg, more[i], done[i]) {
      if i < |steps| {
        RunStep(cfg, states, steps, i);
      }
    }
  }

  /** A pool at rest that holds nothing, or one used exit under `id`. */
  ghost predicate Rests(cfg: Config, s: PoolRuns.State, id: Id, at: Time) {
    && s.waiters == map[] && s.pool.flight.Idle? && s.clock <= at && s.pool.lastExtractAt + cfg.minIntervalMs <= at
    && |s.pool.consumed| <= 1 && s.pool.assignment == map[]
    && (s.pool.exits == [] || (s.pool.exits == OneExit(s.pool.exits[0].value) && s.pool.exits[0].value.expiresAt.None?
                               && s.pool.exits[0].key == id && id in s.pool.consumed))
  }

  /** A whole acquire on a pool at rest: wait, one exit arrives, resume. */
  lemma OneAcquire(
    cfg: Config, states: seq<PoolRuns.State>, steps: seq<Step>, ticket: nat, key: Key, minRemaining: Time,
      exit: Exit, at: Time)
    returns (more: seq<PoolRuns.State>, done: seq<Step>)
    requires cfg.mode.PerSession? && cfg.maxPoolSize > 0 && exit.expiresAt.None?
    requires Run(cfg, states, steps) && Rests(cfg, states[|states| - 1], exit.id, at)
    ensures Run(cfg, more, done) && |done| == |steps| + 3 && steps <= done && states <= more
    ensures var n, consumed := |steps|, states[|states| - 1].pool.consumed;
      && done[n + 2] == Resume(ticket, at) && more[n + 2].pool.exits == OneExit(exit)
      && more[n + 2].waiters == map[ticket := Waiter(key, minRemaining, Refreshed)]
      && Delivered(cfg, more[n + 2], done[n + 2]) == (if exit.id in consumed then None else Some(exit))
      && more[n + 3].pool
        == Pool(OneExit(exit), if exit.id in consumed then consumed else consumed + [exit.id], map[], at,
                                  Idle, states[|states| - 1].pool.extractions + 1, None)
      && more[n + 3].waiters == map[] && more[n + 3].clock == at
  {
    var s := states[|states| - 1];
    var waiting, arrived := OneRound(cfg, s, ticket, key, minRemaining, exit, at);
    var after := OneResumed(cfg, arrived, ticket, Waiter(key, minRemaining, Refreshed), exit, at);
    RunExtends(cfg, states, steps, Acquire(ticket, key, minRemaining, at, at, at), waiting);
    more, done := states + [waiting], steps + [Acquire(ticket, key, minRemaining, at, at, at)];
    RunExtends(cfg, more, done, Settle(Ok([exit]), at, at), arrived);
    more, done := more + [arrived], done + [Settle(Ok([exit]), at, at)];
    RunExtends(cfg, more, done, Resume(ticket, at), after);
    more, done := more + [after], done + [Resume(ticket, at)];
  }

  /**
   * The gap in a run: an exit is handed out; the provider then answers with a new server under the same id; the new
   * server enters the inventory, and the acquire that waited for it is refused.
   */
  lemma RecurringIdRefused(cfg: Config, key: Key, minRemaining: Time, first: Exit, second: Exit)
    returns (states: seq<PoolRuns.State>, steps: seq<Step>)
    requires cfg.mode.PerSession? && cfg.maxPoolSize > 0 && cfg.minIntervalMs >= 0.0
    requires first.id == second.id && first.expiresAt.None? && second.expiresAt.None?
    ensures Run(cfg, states, steps) && |steps| == 6
    ensures Delivered(cfg, states[2], steps[2]) == Some(first)
    ensures states[5].pool.exits == OneExit(second) && steps[5].Resume?
    ensures steps[5].ticket in states[5].waiters && states[5].waiters[steps[5].ticket].outcome.Refreshed?
    ensures Delivered(cfg, states[5], steps[5]).None?
  {
    var interval := cfg.minIntervalMs;
    states, steps := OneAcquire(cfg, [START], [], 0, key, minRemaining, first, interval);
    var s2, s3 := states[2], states[3];
    assert s3.pool.exits[0] == Entry(first.id, first);
    states, steps := OneAcquire(cfg, states, steps, 1, key, minRemaining, second, interval + interval);
    assert states[2] == s2;
  }
}
