/** What a caller of the allocator gets: sticky bindings, exits of their own, enough life, and one known gap. */
module PoolBindings {
  import opened Wrappers
  import opened Sequences
  import opened InsertionMap
  import opened ProxyRecord
  import opened ProxyPool
  import opened PoolRuns

  // ------------------------------------------------------------ enough life

  /** The remaining life the caller behind a step asked for. */
  function Wanted(s: PoolRuns.State, step: Step): Time {
    match step
    case Acquire(_, _, minRemaining, _, _, _) => minRemaining
    case Resume(ticket, _) => if ticket in s.waiters then s.waiters[ticket].minRemaining else 0.0
    case _ => 0.0
  }

  ghost predicate LivesDuring(exit: Exit, minRemaining: Time, from: Time, at: Time, to: Time) {
    from <= at <= to && !TooShort(exit, at, minRemaining)
  }

  /** Every exit handed out was in the inventory and, at some instant of that step, had the wanted life left. */
  lemma DeliveredLivesLongEnough(cfg: Config, s: PoolRuns.State, step: Step)
    requires Sound(cfg, s) && Enabled(s, step) && Delivered(cfg, s, step).Some?
    ensures var exit := Delivered(cfg, s, step).value;
      && Entry(exit.id, exit) in s.pool.exits
      && exists at :: LivesDuring(exit, Wanted(s, step), s.clock, at, After(cfg, s, step).clock)
  {
    var exit, wanted, to := Delivered(cfg, s, step).value, Wanted(s, step), After(cfg, s, step).clock;
    match step
    case Acquire(_, key, minRemaining, atBound, atPick, _) =>
      AcquireFacts(cfg, s.pool, key, minRemaining, atBound, atPick);
      assert LivesDuring(exit, wanted, s.clock, atBound, to) || LivesDuring(exit, wanted, s.clock, atPick, to);
    case Resume(ticket, at) =>
      var w := s.waiters[ticket];
      TakeFacts(cfg, s.pool, w.key, w.minRemaining, at);
      assert wanted == w.minRemaining && to == at;
      assert LivesDuring(exit, wanted, s.clock, at, to);
  }

  ghost predicate SomethingQualifies(p: Pool, ask: Ask) {
    exists e :: e in p.exits && Qualifies(e.value, p.consumed, ask)
  }

  /** A refresh is joined only when neither the binding nor anything in the inventory serves the caller. */
  lemma WaitsOnlyWhenNothingServes(cfg: Config, s: PoolRuns.State, step: Step)
    requires Sound(cfg, s) && Enabled(s, step) && step.Acquire?
    ensures step.ticket in After(cfg, s, step).waiters <==>
            && Sticky(cfg, s.pool, step.key, step.minRemaining, step.atBound).None?
            && !SomethingQualifies(s.pool, AskFor(cfg, step.key, step.minRemaining, step.atPick))
  {
    var ask := AskFor(cfg, step.key, step.minRemaining, step.atPick);
    PickFacts(Unbind(cfg, s.pool, step.key), ask, cfg.hash);
  }

  /** A resumed caller is refused exactly when the refresh failed or left nothing that qualifies. */
  lemma RefusedOnlyWhenNothingServes(cfg: Config, s: PoolRuns.State, step: Step)
    requires Sound(cfg, s) && Enabled(s, step) && step.Resume?
    ensures var w := s.waiters[step.ticket];
      Delivered(cfg, s, step).None? <==>
        w.outcome.RefreshFailed? || !SomethingQualifies(s.pool, AskFor(cfg, w.key, w.minRemaining, step.at))
  {
    var w := s.waiters[step.ticket];
    PickFacts(s.pool, AskFor(cfg, w.key, w.minRemaining, step.at), cfg.hash);
  }

  // -------------------------------------------------------- one exit per key

  ghost predicate OneToOne(assignment: map<Key, Id>) {
    forall k, q :: k in assignment && q in assignment && assignment[k] == assignment[q] ==> k == q
  }

  /** Binding an unbound key keeps the bindings one-to-one exactly when some qualifying exit is unbound. */
  lemma FreshBindingOneToOneIff(cfg: Config, p: Pool, key: Key, minRemaining: Time, now: Time)
    requires cfg.mode.Pooled? && WellKeyed(p.exits) && OneToOne(p.assignment) && key !in p.assignment
    requires TakeUsable(cfg, p, key, minRemaining, now).exit.Some?
    ensures OneToOne(TakeUsable(cfg, p, key, minRemaining, now).pool.assignment) <==>
            exists e :: e in p.exits && Qualifies(e.value, p.consumed, AskFor(cfg, key, minRemaining, now))
                        && e.key !in p.assignment.Values
  {
    var ask := AskFor(cfg, key, minRemaining, now);
    PickPrefersFree(p, ask, cfg.hash);
    var id := Pick(p, ask, cfg.hash).value.id;
    var after := p.assignment[key := id];
    if id in p.assignment.Values {
      var other :| other in p.assignment && p.assignment[other] == id;
      assert after[other] == after[key];
    }
  }

  lemma {:induction false} FewerValues(m: map<Key, Id>)
    ensures |m.Values| <= |m|
    decreases |m|
  {
    if m != map[] {
      var k :| k in m;
      var rest := m - {k};
      assert m.Keys == rest.Keys + {k};
      assert |m| == |m.Keys| && |rest| == |rest.Keys|;
      FewerValues(rest);
      forall v | v in m.Values ensures v in rest.Values + {m[k]} {
        var q :| q in m && m[q] == v;
        assert q != k ==> q in rest && rest[q] == v;
      }
      assert m.Values <= rest.Values + {m[k]};
      Smaller(m.Values, rest.Values + {m[k]});
    } else {
      assert m.Values == {};
    }
  }

  ghost predicate RoomToSpread(p: Pool, ask: Ask) {
    |Candidates(p.exits, p.consumed, ask)| > |p.assignment|
  }

  function IdsOf(exits: seq<Exit>): seq<Id> {
    seq(|exits|, i requires 0 <= i < |exits| => exits[i].id)
  }

  /** With more usable exits than bindings, some usable exit is unbound. */
  lemma SomeCandidateFree(p: Pool, ask: Ask)
    requires WellKeyed(p.exits) && RoomToSpread(p, ask)
    ensures exists e :: e in p.exits && Qualifies(e.value, p.consumed, ask) && e.key !in p.assignment.Values
  {
    var candidates := Candidates(p.exits, p.consumed, ask);
    CandidatesFacts(p.exits, p.consumed, ask);
    CandidateEntries(p, ask);
    var ids := IdsOf(candidates);
    assert Distinct(ids);
    DistinctCardinality(ids);
    FewerValues(p.assignment);
    if Elements(ids) <= p.assignment.Values {
      Smaller(Elements(ids), p.assignment.Values);
    }
    var id :| id in Elements(ids) && id !in p.assignment.Values;
    var i :| 0 <= i < |ids| && ids[i] == id;
    assert candidates[i] in candidates;
    assert Entry(id, candidates[i]) in p.exits;
  }

  /** The inventory and the question of a step that picks, rather than reuses a binding. */
  ghost predicate PicksWithRoom(cfg: Config, s: PoolRuns.State, step: Step) {
    match step
    case Acquire(_, key, minRemaining, atBound, atPick, _) =>
      Sticky(cfg, s.pool, key, minRemaining, atBound).None? && Delivered(cfg, s, step).Some? ==>
        RoomToSpread(Unbind(cfg, s.pool, key), AskFor(cfg, key, minRemaining, atPick))
    case Resume(ticket, at) =>
      ticket in s.waiters && Delivered(cfg, s, step).Some? ==>
        RoomToSpread(s.pool, AskFor(cfg, s.waiters[ticket].key, s.waiters[ticket].minRemaining, at))
    case _ => true
  }

  lemma TakeKeepsOneToOne(cfg: Config, p: Pool, key: Key, minRemaining: Time, now: Time)
    requires cfg.mode.Pooled? && WellKeyed(p.exits) && OneToOne(p.assignment)
    requires TakeUsable(cfg, p, key, minRemaining, now).exit.Some? ==>
      RoomToSpread(p, AskFor(cfg, key, minRemaining, now))
    ensures OneToOne(TakeUsable(cfg, p, key, minRemaining, now).pool.assignment)
  {
    var ask := AskFor(cfg, key, minRemaining, now);
    if Pick(p, ask, cfg.hash).Some? {
      SomeCandidateFree(p, ask);
      PickPrefersFree(p, ask, cfg.hash);
    }
  }

  lemma AcquireKeepsOneToOne(cfg: Config, s: PoolRuns.State, step: Step)
    requires cfg.mode.Pooled? && Sound(cfg, s) && Enabled(s, step) && step.Acquire?
    requires OneToOne(s.pool.assignment) && PicksWithRoom(cfg, s, step)
    ensures OneToOne(After(cfg, s, step).pool.assignment)
  {
    AcquiredBindings(cfg, s, step);
    if Sticky(cfg, s.pool, step.key, step.minRemaining, step.atBound).None? {
      TakeKeepsOneToOne(cfg, Unbind(cfg, s.pool, step.key), step.key, step.minRemaining, step.atPick);
    }
  }

  lemma AcquiredBindings(cfg: Config, s: PoolRuns.State, step: Step)
    requires Enabled(s, step) && step.Acquire?
    ensures After(cfg, s, step).pool.assignment
            == BeginAcquire(cfg, s.pool, step.key, step.minRemaining, step.atBound, step.atPick).pool.assignment
  {
  }

  lemma ResumeKeepsOneToOne(cfg: Config, s: PoolRuns.State, step: Step)
    requires cfg.mode.Pooled? && Sound(cfg, s) && Enabled(s, step) && step.Resume?
    requires OneToOne(s.pool.assignment) && PicksWithRoom(cfg, s, step)
    ensures OneToOne(After(cfg, s, step).pool.assignment)
  {
    var w := s.waiters[step.ticket];
    if w.outcome.Refreshed? {
      TakeKeepsOneToOne(cfg, s.pool, w.key, w.minRemaining, step.at);
    }
  }

  lemma StepKeepsOneToOne(cfg: Config, s: PoolRuns.State, step: Step)
    requires cfg.mode.Pooled? && Sound(cfg, s) && Enabled(s, step)
    requires OneToOne(s.pool.assignment) && PicksWithRoom(cfg, s, step)
    ensures OneToOne(After(cfg, s, step).pool.assignment)
  {
    if step.Acquire? {
      AcquireKeepsOneToOne(cfg, s, step);
    } else if step.Resume? {
      ResumeKeepsOneToOne(cfg, s, step);
    } else if step.Settle? {
      SettleFacts(cfg, s.pool, step.batch, step.atDone, step.atPrune);
    }
  }

  /** In a run whose every pick finds more usable exits than bindings, two keys never share an exit. */
  lemma {:induction false} KeysNeverShare(cfg: Config, states: seq<PoolRuns.State>, steps: seq<Step>, i: nat)
    requires cfg.mode.Pooled? && Run(cfg, states, steps) && i < |states|
    requires forall k :: 0 <= k < i ==> PicksWithRoom(cfg, states[k], steps[k])
    ensures OneToOne(states[i].pool.assignment)
  {
    if i > 0 {
      KeysNeverShare(cfg, states, steps, i - 1);
      RunSound(cfg, states, steps, i - 1);
      RunStep(cfg, states, steps, i - 1);
      StepKeepsOneToOne(cfg, states[i - 1], steps[i - 1]);
    }
  }

  // ---------------------------------------------------------------- stickiness

  /** Only these steps touch the binding of `key` to `id`. */
  ghost predicate Disturbs(cfg: Config, s: PoolRuns.State, step: Step, key: Key, id: Id)
    requires Enabled(s, step)
  {
    match step
    case Acquire(_, k, minRemaining, atBound, _, _) => k == key && Sticky(cfg, s.pool, k, minRemaining, atBound).None?
    case Resume(ticket, _) => s.waiters[ticket].key == key
    case Settle(_, _, _) => id !in KeySet(After(cfg, s, step).pool.exits)
    case Release(x, ok) => x == id && !ok
    case StartExtract(_) => false
  }

  lemma BindingKept(cfg: Config, s: PoolRuns.State, step: Step, key: Key, id: Id)
    requires cfg.mode.Pooled? && Sound(cfg, s) && Enabled(s, step)
    requires key in s.pool.assignment && s.pool.assignment[key] == id && !Disturbs(cfg, s, step, key, id)
    ensures var after := After(cfg, s, step).pool.assignment;
      key in after && after[key] == id
  {
    match step
    case Acquire(_, k, minRemaining, atBound, atPick, _) =>
      AcquireKeepsBinding(cfg, s.pool, k, minRemaining, atBound, atPick, key, id);
    case StartExtract(_) =>
    case Settle(batch, atDone, atPrune) => SettleFacts(cfg, s.pool, batch, atDone, atPrune);
    case Resume(ticket, at) =>
      var w := s.waiters[ticket];
      TakeFacts(cfg, s.pool, w.key, w.minRemaining, at);
    case Release(_, _) =>
  }

  lemma AcquireKeepsBinding(
    cfg: Config, p: Pool, k: Key, minRemaining: Time, atBound: Time, atPick: Time, key: Key, id: Id)
    requires cfg.mode.Pooled? && PoolSound(cfg, p) && key in p.assignment && p.assignment[key] == id
    requires k != key || Sticky(cfg, p, k, minRemaining, atBound).Some?
    ensures var after := BeginAcquire(cfg, p, k, minRemaining, atBound, atPick).pool.assignment;
      key in after && after[key] == id
  {
    AcquireFacts(cfg, p, k, minRemaining, atBound, atPick);
  }

  lemma {:induction false} BindingLasts(
    cfg: Config, states: seq<PoolRuns.State>, steps: seq<Step>, i: nat, j: nat, key: Key, id: Id)
    requires cfg.mode.Pooled? && Run(cfg, states, steps) && i <= j < |states|
    requires key in states[i].pool.assignment && states[i].pool.assignment[key] == id
    requires forall k :: i <= k < j ==> Enabled(states[k], steps[k]) && !Disturbs(cfg, states[k], steps[k], key, id)
    ensures key in states[j].pool.assignment && states[j].pool.assignment[key] == id
    decreases j
  {
    if i < j {
      BindingLasts(cfg, states, steps, i, j - 1, key, id);
      BindingStep(cfg, states, steps, j - 1, key, id);
    }
  }

  lemma BindingStep(cfg: Config, states: seq<PoolRuns.State>, steps: seq<Step>, k: nat, key: Key, id: Id)
    requires cfg.mode.Pooled? && Run(cfg, states, steps) && k < |steps|
    requires key in states[k].pool.assignment && states[k].pool.assignment[key] == id
    requires Enabled(states[k], steps[k]) && !Disturbs(cfg, states[k], steps[k], key, id)
    ensures key in states[k + 1].pool.assignment && states[k + 1].pool.assignment[key] == id
  {
    RunSound(cfg, states, steps, k);
    RunStep(cfg, states, steps, k);
    BindingKept(cfg, states[k], steps[k], key, id);
  }

  /** A key bound to a long-enough-lived exit gets that exit back, and no binding changes. */
  lemma StickyAcquire(cfg: Config, s: PoolRuns.State, step: Step, exit: Exit)
    requires cfg.mode.Pooled? && Sound(cfg, s) && Enabled(s, step) && step.Acquire?
    requires step.key in s.pool.assignment && s.pool.assignment[step.key] == exit.id
    requires Entry(exit.id, exit) in s.pool.exits && !TooShort(exit, step.atBound, step.minRemaining)
    ensures Delivered(cfg, s, step) == Some(exit)
    ensures After(cfg, s, step).pool == s.pool
  {
    var i :| 0 <= i < |s.pool.exits| && s.pool.exits[i] == Entry(exit.id, exit);
    LookupAt(s.pool.exits, i);
  }

  /**
   * Across a whole run: until something disturbs the binding, every acquire of the key that its exit can serve gets it.
   */
  lemma StickySession(
    cfg: Config, states: seq<PoolRuns.State>, steps: seq<Step>, i: nat, j: nat, exit: Exit)
    requires cfg.mode.Pooled? && Run(cfg, states, steps) && i <= j < |steps| && steps[j].Acquire?
    requires steps[j].key in states[i].pool.assignment && states[i].pool.assignment[steps[j].key] == exit.id
    requires forall k :: i <= k < j ==>
      Enabled(states[k], steps[k]) && !Disturbs(cfg, states[k], steps[k], steps[j].key, exit.id)
    requires Entry(exit.id, exit) in states[j].pool.exits
    requires !TooShort(exit, steps[j].atBound, steps[j].minRemaining)
    ensures Delivered(cfg, states[j], steps[j]) == Some(exit)
    ensures states[j + 1].pool == states[j].pool
  {
    BindingLasts(cfg, states, steps, i, j, steps[j].key, exit.id);
    RunSound(cfg, states, steps, j);
    RunStep(cfg, states, steps, j);
    StickyAcquire(cfg, states[j], steps[j], exit);
  }

  // ------------------------------------------------ recurring ids exhaust a pool

  /** Every batch that arrives uses only ids of `names` and carries no expiry. */
  ghost predicate Recurring(step: Step, names: set<Id>) {
    step.Settle? && step.batch.Ok? ==> forall e :: e in step.batch.value ==> e.id in names && e.expiresAt.None?
  }

  ghost predicate UsedUpForGood(s: PoolRuns.State, names: set<Id>) {
    && (forall e :: e in s.pool.exits ==> e.key in names && e.value.expiresAt.None?)
    && (forall id :: id in s.pool.consumed ==> id in names)
    && (forall id :: id in s.log.handed ==> id in s.pool.consumed)
    && Distinct(s.log.handed)
  }

  lemma {:induction false} AllAlive(exits: Entries<Id, Exit>, now: Time)
    requires forall e :: e in exits ==> !Expired(e.value, now)
    ensures Alive(exits, now) == exits
  {
    if exits != [] {
      assert exits == exits[..|exits| - 1] + [exits[|exits| - 1]];
      AllAlive(exits[..|exits| - 1], now);
    }
  }

  lemma SettleForgetsNothing(
    cfg: Config, p: Pool, batch: Result<seq<Exit>, string>, atDone: Time, atPrune: Time, names: set<Id>)
    requires PoolSound(cfg, p) && |names| <= cfg.maxPoolSize <= CONSUMED_HISTORY_LIMIT
    requires forall e :: e in p.exits ==> e.key in names && e.value.expiresAt.None?
    requires forall id :: id in p.consumed ==> id in names
    requires batch.Ok? ==> forall e :: e in batch.value ==> e.id in names && e.expiresAt.None?
    ensures var q := SettleRefresh(cfg, p, batch, atDone, atPrune);
      && q.consumed == p.consumed
      && (forall e :: e in q.exits ==> e.key in names && e.value.expiresAt.None?)
  {
    var exits := if batch.Ok? then InsertAll(p.exits, batch.value) else p.exits;
    if batch.Ok? {
      InsertAllFacts(p.exits, batch.value);
    }
    forall e | e in exits ensures e.key in names && e.value.expiresAt.None? {
      assert batch.Ok? ==> e in p.exits || e.value in batch.value;
    }
    AllAlive(exits, atPrune);
    KeySetSize(exits);
    Smaller(KeySet(exits), names);
    DistinctCardinality(p.consumed);
    Smaller(Elements(p.consumed), names);
    assert Survivors(exits, cfg.maxPoolSize, atPrune) == exits;
    MinusNothing(p.consumed, KeySet(exits) - KeySet(exits));
  }

  lemma StepKeepsUsedUp(cfg: Config, s: PoolRuns.State, step: Step, names: set<Id>)
    requires cfg.mode.PerSession? && Sound(cfg, s) && Enabled(s, step)
    requires |names| <= cfg.maxPoolSize <= CONSUMED_HISTORY_LIMIT && Recurring(step, names)
    requires UsedUpForGood(s, names)
    ensures UsedUpForGood(After(cfg, s, step), names)
  {
    if Delivered(cfg, s, step).Some? {
      DeliveryFacts(cfg, s, step);
    } else if step.Settle? {
      SettleForgetsNothing(cfg, s.pool, step.batch, step.atDone, step.atPrune, names);
    } else {
      QuietStep(cfg, s, step);
    }
  }

  lemma QuietStep(cfg: Config, s: PoolRuns.State, step: Step)
    requires Sound(cfg, s) && Enabled(s, step) && Delivered(cfg, s, step).None? && !step.Settle?
    ensures var t := After(cfg, s, step);
      && t.pool.consumed == s.pool.consumed && t.log.handed == s.log.handed
      && (forall e :: e in t.pool.exits ==> e in s.pool.exits)
  {
    QuietFacts(cfg, s, step);
    match step
    case Acquire(_, key, minRemaining, atBound, atPick, _) =>
      AcquireFacts(cfg, s.pool, key, minRemaining, atBound, atPick);
    case StartExtract(_) =>
    case Resume(ticket, at) =>
      var w := s.waiters[ticket];
      TakeFacts(cfg, s.pool, w.key, w.minRemaining, at);
    case Release(id, ok) => WithoutFacts(s.pool.exits, {id});
  }

  lemma {:induction false} RunUsedUp(cfg: Config, states: seq<PoolRuns.State>, steps: seq<Step>, i: nat, names: set<Id>)
    requires cfg.mode.PerSession? && Run(cfg, states, steps) && i < |states|
    requires |names| <= cfg.maxPoolSize <= CONSUMED_HISTORY_LIMIT
    requires forall k :: 0 <= k < |steps| ==> Recurring(steps[k], names)
    ensures UsedUpForGood(states[i], names)
  {
    if i > 0 {
      RunUsedUp(cfg, states, steps, i - 1, names);
      RunSound(cfg, states, steps, i - 1);
      RunStep(cfg, states, steps, i - 1);
      StepKeepsUsedUp(cfg, states[i - 1], steps[i - 1], names);
    }
  }

  /**
   * A per-session pool whose provider answers with recurring ids and no expiry hands out each id at most once in its
   * whole life, however many batches of new servers arrive under those ids and whatever is released.
   */
  lemma RecurringIdsExhaustPool(cfg: Config, states: seq<PoolRuns.State>, steps: seq<Step>, i: nat, names: set<Id>)
    requires cfg.mode.PerSession? && Run(cfg, states, steps) && i < |states|
    requires |names| <= cfg.maxPoolSize <= CONSUMED_HISTORY_LIMIT
    requires forall k :: 0 <= k < |steps| ==> Recurring(steps[k], names)
    ensures Distinct(states[i].log.handed) && |states[i].log.handed| <= |names|
  {
    RunUsedUp(cfg, states, steps, i, names);
    DistinctCardinality(states[i].log.handed);
    Smaller(Elements(states[i].log.handed), names);
  }
}
