/** Which connection a session gets: direct, through an exit, or none at all. */
module PoolResolution {
  import opened Wrappers
  import opened ProxyRecord
  import opened ProxyPool
  import opened AssignmentHash
  import opened Text
  import opened InsertionMap
  import PoolRuns
  import PoolBindings

  datatype Source = Static(exits: seq<Exit>) | HttpApi

  datatype PoolFile = PoolFile(
    enabled: bool, required: bool, platforms: seq<string>, source: Source, minSessionLifetime: Time)

  /** Who asks. `hash` is the hash of the caller's assignment key. */
  datatype Caller = Caller(platform: Option<string>, account: Option<string>, slot: Option<int>)

  /** `ViaInventory` hands over to the asynchronous allocator with the lifetime to demand. */
  datatype Verdict = Direct | Refused(reason: string) | Through(exit: Exit) | ViaInventory(minRemaining: Time)

  predicate Configured(file: Option<string>) {
    file.Some? && Trim(file.value) != ""
  }

  predicate AppliesTo(pool: PoolFile, platform: Option<string>) {
    |pool.platforms| == 0 || (platform.Some? && platform.value in pool.platforms)
  }

  function Usable(exits: seq<Exit>, now: Time, minRemaining: Time): seq<Exit> {
    if exits == [] then []
    else
      var front, last := exits[..|exits| - 1], exits[|exits| - 1];
      if TooShort(last, now, minRemaining) then Usable(front, now, minRemaining)
      else Usable(front, now, minRemaining) + [last]
  }

  function SelectExit(exits: seq<Exit>, caller: Caller, now: Time, minRemaining: Time, hash: Key -> nat): Option<Exit> {
    var usable := Usable(exits, now, minRemaining);
    if usable == [] then None
    else Some(usable[hash(AssignmentKey(caller.platform, caller.account, caller.slot)) % |usable|])
  }

  function FromStatic(exits: seq<Exit>, caller: Caller, now: Time, minRemaining: Time, hash: Key -> nat): Verdict {
    match SelectExit(exits, caller, now, minRemaining, hash)
    case None => Refused("no usable exit")
    case Some(exit) => Through(exit)
  }

  /** The synchronous resolver; `load` is the outcome of reading and parsing the pool file. */
  function ResolveSessionProxy(
    file: Option<string>, load: Result<PoolFile, string>, caller: Caller, now: Time, hash: Key -> nat): Verdict
  {
    if !Configured(file) then Direct
    else match load
      case Err(reason) => Refused(reason)
      case Ok(pool) =>
        if !AppliesTo(pool, caller.platform) then Direct
        else if !pool.enabled then (if pool.required then Refused("required but disabled") else Direct)
        else match pool.source
          case HttpApi => Refused("the synchronous resolver only handles static pools")
          case Static(exits) => FromStatic(exits, caller, now, pool.minSessionLifetime, hash)
  }

  /** `asked` is the caller's own lifetime demand; it counts only when it is not negative. */
  function Lifetime(pool: PoolFile, asked: Option<Time>): Time {
    if asked.Some? && asked.value >= 0.0 then asked.value else pool.minSessionLifetime
  }

  /** The asynchronous resolver, up to the point where the inventory takes over. */
  function AcquireSessionProxy(
    file: Option<string>, load: Result<PoolFile, string>, caller: Caller, asked: Option<Time>, now: Time,
    hash: Key -> nat): Verdict
  {
    if !Configured(file) then Direct
    else match load
      case Err(reason) => Refused(reason)
      case Ok(pool) =>
        if !AppliesTo(pool, caller.platform) then Direct
        else if !pool.enabled then (if pool.required then Refused("required but disabled") else Direct)
        else match pool.source
          case Static(exits) => FromStatic(exits, caller, now, Lifetime(pool, asked), hash)
          case HttpApi => ViaInventory(Lifetime(pool, asked))
  }

  lemma {:induction false} UsableFacts(exits: seq<Exit>, now: Time, minRemaining: Time)
    ensures forall e :: e in Usable(exits, now, minRemaining) <==> e in exits && !TooShort(e, now, minRemaining)
  {
    if exits != [] {
      UsableFacts(exits[..|exits| - 1], now, minRemaining);
      assert exits == exits[..|exits| - 1] + [exits[|exits| - 1]];
    }
  }

  /** The three cases in which a session may stay without a proxy. */
  ghost predicate MayGoDirect(file: Option<string>, load: Result<PoolFile, string>, caller: Caller) {
    || !Configured(file)
    || (load.Ok? && (!AppliesTo(load.value, caller.platform) || (!load.value.enabled && !load.value.required)))
  }

  /**
   * Neither resolver goes direct silently: direct means one of the three permitted cases, and every exit returned
   * belongs to the pool and lives long enough at the moment it is chosen.
   */
  lemma NoSilentDirectConnection(
    file: Option<string>, load: Result<PoolFile, string>, caller: Caller, asked: Option<Time>, now: Time,
    hash: Key -> nat)
    ensures ResolveSessionProxy(file, load, caller, now, hash).Direct? <==> MayGoDirect(file, load, caller)
    ensures AcquireSessionProxy(file, load, caller, asked, now, hash).Direct? <==> MayGoDirect(file, load, caller)
    ensures var v := AcquireSessionProxy(file, load, caller, asked, now, hash);
      v.Through? ==>
        && load.Ok? && load.value.enabled && load.value.source.Static? && v.exit in load.value.source.exits
        && !TooShort(v.exit, now, Lifetime(load.value, asked))
    ensures var v := ResolveSessionProxy(file, load, caller, now, hash);
      v.Through? ==>
        && load.Ok? && load.value.enabled && load.value.source.Static? && v.exit in load.value.source.exits
        && !TooShort(v.exit, now, load.value.minSessionLifetime)
    ensures var v := AcquireSessionProxy(file, load, caller, asked, now, hash);
      v.ViaInventory? ==>
        load.Ok? && load.value.enabled && load.value.source.HttpApi? && v.minRemaining == Lifetime(load.value, asked)
  {
    if load.Ok? && load.value.source.Static? {
      UsableFacts(load.value.source.exits, now, Lifetime(load.value, asked));
      UsableFacts(load.value.source.exits, now, load.value.minSessionLifetime);
    }
  }

  /** A static pool refuses only when it is off though required, unreadable, or every exit is too short-lived. */
  lemma StaticRefusesOnlyWhenNothingServes(
    file: Option<string>, pool: PoolFile, caller: Caller, asked: Option<Time>, now: Time, hash: Key -> nat)
    requires Configured(file) && AppliesTo(pool, caller.platform) && pool.enabled && pool.source.Static?
    ensures AcquireSessionProxy(file, Ok(pool), caller, asked, now, hash).Refused? <==>
            forall e :: e in pool.source.exits ==> TooShort(e, now, Lifetime(pool, asked))
  {
    var usable := Usable(pool.source.exits, now, Lifetime(pool, asked));
    UsableFacts(pool.source.exits, now, Lifetime(pool, asked));
    assert usable != [] ==> usable[0] in usable;
  }

  /**
   * The two resolvers agree on a static pool whenever the caller demands the pool's own lifetime, and, since parsed
   * static exits carry no expiry, whatever lifetime the caller demands.
   */
  lemma ResolversAgreeOnStaticPools(
    file: Option<string>, pool: PoolFile, caller: Caller, asked: Option<Time>, now: Time, hash: Key -> nat)
    requires pool.source.Static?
    requires Lifetime(pool, asked) == pool.minSessionLifetime
             || forall e :: e in pool.source.exits ==> e.expiresAt.None?
    ensures ResolveSessionProxy(file, Ok(pool), caller, now, hash)
            == AcquireSessionProxy(file, Ok(pool), caller, asked, now, hash)
  {
    if forall e :: e in pool.source.exits ==> e.expiresAt.None? {
      NoExpiryAllUsable(pool.source.exits, now, pool.minSessionLifetime);
      NoExpiryAllUsable(pool.source.exits, now, Lifetime(pool, asked));
    }
  }

  lemma {:induction false} NoExpiryAllUsable(exits: seq<Exit>, now: Time, minRemaining: Time)
    requires forall e :: e in exits ==> e.expiresAt.None?
    ensures Usable(exits, now, minRemaining) == exits
  {
    if exits != [] {
      assert exits == exits[..|exits| - 1] + [exits[|exits| - 1]];
      NoExpiryAllUsable(exits[..|exits| - 1], now, minRemaining);
    }
  }

  // ------------------------------------------------------ through the inventory

  /** What the caller of the allocator gets: the exit delivered, or an error. There is no third possibility. */
  function InventoryVerdict(delivered: Option<Exit>): Verdict {
    match delivered
    case Some(exit) => Through(exit)
    case None => Refused("no usable exit")
  }

  /** Step `i` is the acquire of a caller whom the asynchronous resolver sent to the inventory. */
  ghost predicate Sends(
    cfg: Config, states: seq<PoolRuns.State>, steps: seq<PoolRuns.Step>, i: nat, verdict: Verdict, caller: Caller)
  {
    && PoolRuns.Run(cfg, states, steps) && i < |steps| && steps[i].Acquire? && verdict.ViaInventory?
    && steps[i].key == AssignmentKey(caller.platform, caller.account, caller.slot)
    && steps[i].minRemaining == verdict.minRemaining
  }

  /** Step `j` is the first resumption of the waiter `ticket` after step `i`. */
  ghost predicate Resumes(steps: seq<PoolRuns.Step>, i: nat, j: nat, ticket: nat) {
    && i < j < |steps| && steps[j].Resume? && steps[j].ticket == ticket
    && forall k :: i < k < j ==> !(steps[k].Resume? && steps[k].ticket == ticket)
  }

  /** Until it is resumed a waiter keeps its key and its demand, whatever other calls do. */
  lemma {:induction false} WaiterKept(
    cfg: Config, states: seq<PoolRuns.State>, steps: seq<PoolRuns.Step>, i: nat, j: nat, ticket: nat)
    requires PoolRuns.Run(cfg, states, steps) && i <= j < |states| && ticket in states[i].waiters
    requires forall k :: i <= k < j ==> !(steps[k].Resume? && steps[k].ticket == ticket)
    ensures ticket in states[j].waiters
    ensures states[j].waiters[ticket].key == states[i].waiters[ticket].key
    ensures states[j].waiters[ticket].minRemaining == states[i].waiters[ticket].minRemaining
    decreases j
  {
    if i < j {
      WaiterKept(cfg, states, steps, i, j - 1, ticket);
      PoolRuns.RunStep(cfg, states, steps, j - 1);
      WaiterStep(cfg, states[j - 1], steps[j - 1], ticket);
    }
  }

  lemma WaiterStep(cfg: Config, s: PoolRuns.State, step: PoolRuns.Step, ticket: nat)
    requires PoolRuns.Enabled(s, step) && ticket in s.waiters && !(step.Resume? && step.ticket == ticket)
    ensures var t := PoolRuns.After(cfg, s, step);
      && ticket in t.waiters && t.waiters[ticket].key == s.waiters[ticket].key
      && t.waiters[ticket].minRemaining == s.waiters[ticket].minRemaining
  {
  }

  /** An acquire that is served without waiting gets an exit of the inventory that lives as long as it demanded. */
  lemma ServedAtOnce(
    cfg: Config, states: seq<PoolRuns.State>, steps: seq<PoolRuns.Step>, i: nat, verdict: Verdict, caller: Caller)
    requires Sends(cfg, states, steps, i, verdict, caller)
    ensures
      var delivered := PoolRuns.Delivered(cfg, states[i], steps[i]);
      var from, to := states[i].clock, states[i + 1].clock;
      if delivered.Some? then
        && Entry(delivered.value.id, delivered.value) in states[i].pool.exits
        && exists at :: PoolBindings.LivesDuring(delivered.value, verdict.minRemaining, from, at, to)
      else
        && steps[i].ticket in states[i + 1].waiters
        && states[i + 1].waiters[steps[i].ticket].key == steps[i].key
        && states[i + 1].waiters[steps[i].ticket].minRemaining == verdict.minRemaining
  {
    PoolRuns.RunSound(cfg, states, steps, i);
    PoolRuns.RunStep(cfg, states, steps, i);
    if PoolRuns.Delivered(cfg, states[i], steps[i]).Some? {
      PoolBindings.DeliveredLivesLongEnough(cfg, states[i], steps[i]);
    }
  }

  /**
   * A caller whom the asynchronous resolver sends to the inventory, and who has to wait there, is in the end connected
   * through an exit of the inventory that lives as long as the resolver demanded, or refused: refused exactly when the
   * refresh failed or left nothing that qualifies. It is never connected directly.
   */
  lemma InventoryNeverGoesDirect(
    cfg: Config, states: seq<PoolRuns.State>, steps: seq<PoolRuns.Step>, i: nat, j: nat, verdict: Verdict,
      caller: Caller)
    requires Sends(cfg, states, steps, i, verdict, caller) && PoolRuns.Delivered(cfg, states[i], steps[i]).None?
    requires Resumes(steps, i, j, steps[i].ticket)
    ensures var final := InventoryVerdict(PoolRuns.Delivered(cfg, states[j], steps[j]));
      && (final.Through? || final.Refused?)
      && (final.Through? ==>
            && Entry(final.exit.id, final.exit) in states[j].pool.exits
            && !TooShort(final.exit, steps[j].at, verdict.minRemaining)
            && (cfg.mode.PerSession? ==> final.exit.id !in states[j].pool.consumed))
      && (final.Refused? <==>
            || states[j].waiters[steps[j].ticket].outcome.RefreshFailed?
            || !PoolBindings.SomethingQualifies(states[j].pool,
              AskFor(cfg, steps[i].key, verdict.minRemaining, steps[j].at)))
  {
    ServedAtOnce(cfg, states, steps, i, verdict, caller);
    WaiterKept(cfg, states, steps, i + 1, j, steps[i].ticket);
    PoolRuns.RunSound(cfg, states, steps, j);
    PoolRuns.RunStep(cfg, states, steps, j);
    PoolBindings.RefusedOnlyWhenNothingServes(cfg, states[j], steps[j]);
    PoolRuns.TakeFacts(cfg, states[j].pool, steps[i].key, verdict.minRemaining, steps[j].at);
  }
}
