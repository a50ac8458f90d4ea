/** What each uninterrupted stretch of the proxy allocator does to the state of one pool. */
module ProxyPool {
  import opened Wrappers
  import opened Sequences
  import opened InsertionMap
  import opened ProxyRecord

  type Key = string

  /** How many handed-out ids are remembered before the oldest are forgotten. */
  const CONSUMED_HISTORY_LIMIT: nat := 5000

  datatype Mode = Pooled | PerSession

  /** `hash` spreads assignment keys over the candidates; every theorem holds for all of them. */
  datatype Config = Config(mode: Mode, maxPoolSize: nat, minIntervalMs: real, hash: Key -> nat)

  /** The single refresh: none, sleeping until its interval is over, or waiting for the provider. */
  datatype Flight = Idle | Pacing(notBefore: Time) | Fetching

  datatype Pool = Pool(
    exits: Entries<Id, Exit>,
    consumed: seq<Id>,
    assignment: map<Key, Id>,
    lastExtractAt: Time,
    flight: Flight,
    extractions: nat,
    lastError: Option<string>)

  const EMPTY_POOL := Pool([], [], map[], 0.0, Idle, 0, None)

  // ------------------------------------------------------------------ pruning

  /** The entries that have not expired at `now`, in order. */
  function Alive(exits: Entries<Id, Exit>, now: Time): Entries<Id, Exit> {
    if exits == [] then []
    else
      var front, last := exits[..|exits| - 1], exits[|exits| - 1];
      if Expired(last.value, now) then Alive(front, now) else Alive(front, now) + [last]
  }

  /** Forgets ids outside the inventory, oldest first, until half the limit is left. */
  ghost function TrimHistory(kept: seq<Id>, rest: seq<Id>, inventory: set<Id>): seq<Id>
    decreases |rest|
  {
    if rest == [] then kept
    else
      var kept' := if rest[0] in inventory then kept + [rest[0]] else kept;
      if |kept'| + |rest| - 1 <= CONSUMED_HISTORY_LIMIT / 2 then kept' + rest[1..]
      else TrimHistory(kept', rest[1..], inventory)
  }

  ghost function Restrict(assignment: map<Key, Id>, inventory: set<Id>): map<Key, Id> {
    map k | k in assignment && assignment[k] in inventory :: assignment[k]
  }

  /** The most recently first-inserted `max` of the unexpired exits. */
  function Survivors(exits: Entries<Id, Exit>, max: nat, now: Time): Entries<Id, Exit> {
    LastN(Alive(exits, now), max)
  }

  ghost function Prune(p: Pool, max: nat, now: Time): Pool {
    var kept := Survivors(p.exits, max, now);
    var remembered := Minus(p.consumed, KeySet(p.exits) - KeySet(kept));
    p.(exits := kept,
       consumed := if |remembered| > CONSUMED_HISTORY_LIMIT then TrimHistory([], remembered, KeySet(kept))
         else remembered,
       assignment := Restrict(p.assignment, KeySet(kept)))
  }

  // ----------------------------------------------------------------- choosing

  datatype Ask = Ask(now: Time, minRemaining: Time, skipConsumed: bool, prefer: Option<Key>)

  predicate Qualifies(exit: Exit, consumed: seq<Id>, ask: Ask) {
    !(ask.skipConsumed && exit.id in consumed) && !TooShort(exit, ask.now, ask.minRemaining)
  }

  function Candidates(exits: Entries<Id, Exit>, consumed: seq<Id>, ask: Ask): seq<Exit> {
    if exits == [] then []
    else
      var front, last := exits[..|exits| - 1], exits[|exits| - 1].value;
      if Qualifies(last, consumed, ask) then Candidates(front, consumed, ask) + [last]
      else Candidates(front, consumed, ask)
  }

  /** The candidates no key is bound to. */
  function Free(candidates: seq<Exit>, taken: set<Id>): seq<Exit> {
    if candidates == [] then []
    else
      var front, last := candidates[..|candidates| - 1], candidates[|candidates| - 1];
      if last.id in taken then Free(front, taken) else Free(front, taken) + [last]
  }

  function Pick(p: Pool, ask: Ask, hash: Key -> nat): Option<Exit> {
    var candidates := Candidates(p.exits, p.consumed, ask);
    if candidates == [] then None
    else if ask.prefer.None? then Some(candidates[0])
    else
      var free := Free(candidates, p.assignment.Values);
      var from := if free != [] then free else candidates;
      Some(from[hash(ask.prefer.value) % |from|])
  }

  // ------------------------------------------------------ stretches of acquire

  datatype Attempt = Attempt(pool: Pool, exit: Option<Exit>)

  function AskFor(cfg: Config, key: Key, minRemaining: Time, now: Time): Ask {
    Ask(now, minRemaining, cfg.mode.PerSession?, if cfg.mode.Pooled? then Some(key) else None)
  }

  /** Marks the exit as used up, or binds it to the key. */
  function Commit(cfg: Config, p: Pool, key: Key, id: Id): Pool {
    if cfg.mode.PerSession? then p.(consumed := if id in p.consumed then p.consumed else p.consumed + [id])
    else p.(assignment := p.assignment[key := id])
  }

  /** Picks from the inventory; `None` when nothing qualifies. */
  function TakeUsable(cfg: Config, p: Pool, key: Key, minRemaining: Time, now: Time): Attempt {
    match Pick(p, AskFor(cfg, key, minRemaining, now), cfg.hash)
    case None => Attempt(p, None)
    case Some(exit) => Attempt(Commit(cfg, p, key, exit.id), Some(exit))
  }

  /** The exit `key` is bound to, when it is still long-lived enough. */
  function Sticky(cfg: Config, p: Pool, key: Key, minRemaining: Time, now: Time): Option<Exit> {
    if cfg.mode.Pooled? && key in p.assignment then
      match Lookup(p.exits, p.assignment[key])
      case Some(exit) => if TooShort(exit, now, minRemaining) then None else Some(exit)
      case None => None
    else None
  }

  function Unbind(cfg: Config, p: Pool, key: Key): Pool {
    if cfg.mode.Pooled? then p.(assignment := p.assignment - {key}) else p
  }

  /** From the call up to the point where a refresh becomes necessary. */
  function BeginAcquire(cfg: Config, p: Pool, key: Key, minRemaining: Time, atBound: Time, atPick: Time): Attempt {
    match Sticky(cfg, p, key, minRemaining, atBound)
    case Some(exit) => Attempt(p, Some(exit))
    case None => TakeUsable(cfg, Unbind(cfg, p, key), key, minRemaining, atPick)
  }

  // ------------------------------------------------------ stretches of refresh

  /** Joins the refresh under way, or opens one. */
  function BeginRefresh(cfg: Config, p: Pool, now: Time): Pool {
    if !p.flight.Idle? then p
    else if p.lastExtractAt + cfg.minIntervalMs - now > 0.0 then
      p.(flight := Pacing(p.lastExtractAt + cfg.minIntervalMs))
    else p.(flight := Fetching)
  }

  function InsertAll(exits: Entries<Id, Exit>, batch: seq<Exit>): Entries<Id, Exit> {
    if batch == [] then exits
    else
      var last := batch[|batch| - 1];
      Put(InsertAll(exits, batch[..|batch| - 1]), last.id, last)
  }

  /** The ids of `batch` that were absent when they were inserted. */
  function Entering(exits: Entries<Id, Exit>, batch: seq<Exit>): seq<Id> {
    if batch == [] then []
    else
      var front, last := batch[..|batch| - 1], batch[|batch| - 1];
      Entering(exits, front) + (if Has(InsertAll(exits, front), last.id) then [] else [last.id])
  }

  /** The pool as the provider's answer or failure leaves it, before it is pruned. */
  function Loaded(p: Pool, batch: Result<seq<Exit>, string>, atDone: Time): Pool {
    match batch
    case Ok(exits) =>
      p.(exits := InsertAll(p.exits, exits), extractions := p.extractions + 1, lastError := None,
         lastExtractAt := atDone, flight := Idle)
    case Err(reason) => p.(lastError := Some(reason), lastExtractAt := atDone, flight := Idle)
  }

  /** The provider answered or failed; either way the attempt is dated and the pool pruned. */
  ghost function SettleRefresh(
    cfg: Config, p: Pool, batch: Result<seq<Exit>, string>, atDone: Time, atPrune: Time): Pool
  {
    Prune(Loaded(p, batch, atDone), cfg.maxPoolSize, atPrune)
  }

  // ------------------------------------------------------------------- release

  ghost function ReleaseExit(p: Pool, id: Id, ok: bool): Pool {
    if ok then p
    else p.(exits := Without(p.exits, {id}),
            assignment := map k | k in p.assignment && p.assignment[k] != id :: p.assignment[k])
  }

  // ------------------------------------------------------ facts about the pieces

  ghost predicate WellKeyed(exits: Entries<Id, Exit>) {
    Unique(exits) && forall e :: e in exits ==> e.value.id == e.key
  }

  lemma KeySetSize<V>(m: Entries<Id, V>)
    requires Unique(m)
    ensures |KeySet(m)| == |m|
  {
    DistinctCardinality(Keys(m));
    forall k ensures k in Elements(Keys(m)) <==> k in KeySet(m) {
      HasIffKey(m, k);
    }
    assert Elements(Keys(m)) == KeySet(m);
  }

  lemma {:induction false} AliveFacts(exits: Entries<Id, Exit>, now: Time)
    ensures forall e :: e in Alive(exits, now) <==> e in exits && !Expired(e.value, now)
    ensures Unique(exits) ==> Unique(Alive(exits, now))
  {
    if exits != [] {
      var front, last := exits[..|exits| - 1], exits[|exits| - 1];
      AliveFacts(front, now);
      assert exits == front + [last];
      if Unique(exits) {
        forall e | e in Alive(front, now) ensures e.key != last.key {
          assert e in front;
        }
      }
    }
  }

  /** Pruning keeps exactly the newest unexpired exits: what it drops is expired or older than `max` kept ones. */
  lemma SurvivorsFacts(exits: Entries<Id, Exit>, max: nat, now: Time)
    requires WellKeyed(exits)
    ensures var kept := Survivors(exits, max, now);
      && WellKeyed(kept)
      && |kept| <= max
      && (forall e :: e in kept ==> e in exits && !Expired(e.value, now))
      && (forall e :: e in exits && e !in kept && !Expired(e.value, now) ==> |kept| == max)
      && (forall i, j :: 0 <= i < j < |Alive(exits, now)| && Alive(exits, now)[i] in kept ==>
        Alive(exits, now)[j] in kept)
      && KeySet(kept) <= KeySet(exits)
  {
    AliveFacts(exits, now);
    NewestKept(Alive(exits, now), max);
  }

  lemma NewestKept(alive: Entries<Id, Exit>, max: nat)
    requires WellKeyed(alive)
    ensures var kept := LastN(alive, max);
      && WellKeyed(kept) && |kept| <= max && KeySet(kept) <= KeySet(alive)
      && (forall e :: e in alive && e !in kept ==> |kept| == max)
      && (forall e :: e in kept ==> e in alive)
      && (forall i, j :: 0 <= i < j < |alive| && alive[i] in kept ==> alive[j] in kept)
  {
    var kept := LastN(alive, max);
    var from := |alive| - |kept|;
    assert kept == alive[from..];
    NewerAreKept(alive, from);
  }

  lemma NewerAreKept(alive: Entries<Id, Exit>, from: nat)
    requires Unique(alive) && from <= |alive|
    ensures forall i, j :: 0 <= i < j < |alive| && alive[i] in alive[from..] ==> alive[j] in alive[from..]
  {
    var kept := alive[from..];
    forall i, j | 0 <= i < j < |alive| && alive[i] in kept ensures alive[j] in kept {
      var k :| 0 <= k < |kept| && kept[k] == alive[i];
      assert alive[from + k] == alive[i];
      assert from + k == i;
      assert alive[j] == kept[j - from];
    }
  }

  /** The trimmed history is the old one without inventory-foreign ids of some prefix, cut as short as possible. */
  lemma {:induction false} TrimFacts(kept: seq<Id>, rest: seq<Id>, inventory: set<Id>)
    requires Distinct(kept + rest)
    requires forall x :: x in kept ==> x in inventory
    ensures var r := TrimHistory(kept, rest, inventory);
      && Distinct(r)
      && (forall x :: x in r ==> x in kept || x in rest)
      && (forall x :: x in inventory && (x in kept || x in rest) ==> x in r)
      && (|r| <= CONSUMED_HISTORY_LIMIT / 2 || forall x :: x in r ==> x in inventory)
    decreases |rest|
  {
    if rest == [] {
      assert kept + rest == kept;
    } else {
      var x := rest[0];
      var kept' := if x in inventory then kept + [x] else kept;
      assert kept + rest == kept + [x] + rest[1..];
      assert Distinct(kept' + rest[1..]) by {
        if x !in inventory {
          MinusOneDistinct(kept, x, rest[1..]);
        } else {
          assert kept' + rest[1..] == kept + rest;
        }
      }
      assert rest == [x] + rest[1..];
      if |kept'| + |rest| - 1 > CONSUMED_HISTORY_LIMIT / 2 {
        TrimFacts(kept', rest[1..], inventory);
      }
    }
  }

  lemma MinusOneDistinct(a: seq<Id>, x: Id, b: seq<Id>)
    requires Distinct(a + [x] + b)
    ensures Distinct(a + b)
  {
    MinusOne(a, x, b);
    MinusDistinct(a + [x] + b, {x});
  }

  /** A surviving exit keeps its consumed mark, a dropped one loses it, and no mark is invented. */
  lemma PruneMarks(p: Pool, max: nat, now: Time)
    requires WellKeyed(p.exits) && Distinct(p.consumed)
    ensures var q := Prune(p, max, now);
      && Distinct(q.consumed)
      && (forall id :: id in q.consumed ==> id in p.consumed)
      && (forall id :: id in KeySet(q.exits) ==> (id in q.consumed <==> id in p.consumed))
      && (forall id :: id in q.consumed && id in KeySet(p.exits) ==> id in KeySet(q.exits))
      && (|p.consumed| <= CONSUMED_HISTORY_LIMIT ==>
            forall id :: id in p.consumed && id !in KeySet(p.exits) ==> id in q.consumed)
  {
    var kept := Survivors(p.exits, max, now);
    SurvivorsFacts(p.exits, max, now);
    var dropped := KeySet(p.exits) - KeySet(kept);
    var remembered := Minus(p.consumed, dropped);
    MinusMember(p.consumed, dropped);
    MinusDistinct(p.consumed, dropped);
    MinusShorter(p.consumed, dropped);
    if |remembered| > CONSUMED_HISTORY_LIMIT {
      assert [] + remembered == remembered;
      TrimFacts([], remembered, KeySet(kept));
    }
  }

  /** Pruning drops the exit: it has expired, or newer unexpired ones fill the inventory. */
  ghost predicate Evicts(p: Pool, max: nat, now: Time, id: Id) {
    id in KeySet(p.exits) && id !in KeySet(Survivors(p.exits, max, now))
  }

  /** How many ids outside the inventory stand before `id`. */
  ghost function ForeignBefore(history: seq<Id>, id: Id, inventory: set<Id>): nat {
    if history == [] || history[0] == id then 0
    else (if history[0] in inventory then 0 else 1) + ForeignBefore(history[1..], id, inventory)
  }

  /**
   * Pruning forgets the mark of an id without an exit: the history is over its limit, and forgetting the ids without
   * an exit that are older still leaves more than half the limit.
   */
  ghost predicate Forgets(p: Pool, max: nat, now: Time, id: Id) {
    var inventory := KeySet(Survivors(p.exits, max, now));
    var remembered := Minus(p.consumed, KeySet(p.exits) - inventory);
    && id in remembered && id !in inventory && |remembered| > CONSUMED_HISTORY_LIMIT
    && |remembered| - ForeignBefore(remembered, id, inventory) > CONSUMED_HISTORY_LIMIT / 2
  }

  lemma {:induction false} TrimExact(kept: seq<Id>, rest: seq<Id>, inventory: set<Id>, id: Id)
    requires Distinct(kept + rest) && id in rest && forall x :: x in kept ==> x in inventory
    requires |kept| + |rest| > CONSUMED_HISTORY_LIMIT / 2
    ensures id in TrimHistory(kept, rest, inventory) <==>
            id in inventory || |kept| + |rest| - ForeignBefore(rest, id, inventory) <= CONSUMED_HISTORY_LIMIT / 2
    decreases |rest|
  {
    var x := rest[0];
    var kept' := if x in inventory then kept + [x] else kept;
    assert rest == [x] + rest[1..];
    assert kept + rest == kept + [x] + rest[1..];
    NextIsDistinct(kept, x, rest[1..], inventory);
    if id == x {
      FirstIsDecided(kept, rest, inventory);
    } else if |kept'| + |rest| - 1 > CONSUMED_HISTORY_LIMIT / 2 {
      TrimExact(kept', rest[1..], inventory, id);
    }
  }

  lemma NextIsDistinct(kept: seq<Id>, x: Id, rest: seq<Id>, inventory: set<Id>)
    requires Distinct(kept + [x] + rest)
    ensures Distinct((if x in inventory then kept + [x] else kept) + rest)
  {
    if x !in inventory {
      MinusOneDistinct(kept, x, rest);
    }
  }

  /** The oldest id is kept exactly when it is in the inventory. */
  lemma FirstIsDecided(kept: seq<Id>, rest: seq<Id>, inventory: set<Id>)
    requires rest != [] && Distinct(kept + rest) && forall x :: x in kept ==> x in inventory
    ensures rest[0] in TrimHistory(kept, rest, inventory) <==> rest[0] in inventory
  {
    var x, later := rest[0], rest[1..];
    var kept' := if x in inventory then kept + [x] else kept;
    assert kept + rest == kept + [x] + later;
    NextIsDistinct(kept, x, later, inventory);
    TrimFacts(kept, rest, inventory);
    if x !in inventory {
      forall i | 0 <= i < |later| ensures later[i] != x {
        assert (kept + rest)[|kept|] == x && (kept + rest)[|kept| + 1 + i] == later[i];
      }
      TrimFacts(kept', later, inventory);
    }
  }

  /** Pruning unmarks an id exactly when it evicts the exit or forgets the mark. */
  lemma PruneUnmarksIff(p: Pool, max: nat, now: Time, id: Id)
    requires WellKeyed(p.exits) && Distinct(p.consumed) && id in p.consumed
    ensures id !in Prune(p, max, now).consumed <==> Evicts(p, max, now, id) || Forgets(p, max, now, id)
  {
    var inventory := KeySet(Survivors(p.exits, max, now));
    var dropped := KeySet(p.exits) - inventory;
    var remembered := Minus(p.consumed, dropped);
    MinusMember(p.consumed, dropped);
    MinusDistinct(p.consumed, dropped);
    if |remembered| > CONSUMED_HISTORY_LIMIT {
      assert [] + remembered == remembered;
      TrimFacts([], remembered, inventory);
      if id in remembered {
        TrimExact([], remembered, inventory, id);
      }
    }
  }

  lemma {:induction false} MinusShorter<T>(s: seq<T>, gone: set<T>)
    ensures |Minus(s, gone)| <= |s|
  {
    if s != [] {
      MinusShorter(s[..|s| - 1], gone);
    }
  }

  /** After pruning, the ids held in memory are bounded whatever the inventory limit is. */
  lemma PruneBounds(p: Pool, max: nat, now: Time)
    requires WellKeyed(p.exits) && Distinct(p.consumed)
    ensures var q := Prune(p, max, now);
      |Elements(q.consumed) + KeySet(q.exits)| <= CONSUMED_HISTORY_LIMIT + max
  {
    var q := Prune(p, max, now);
    SurvivorsFacts(p.exits, max, now);
    KeySetSize(q.exits);
    PruneMarks(p, max, now);
    DistinctCardinality(q.consumed);
    var dropped := KeySet(p.exits) - KeySet(q.exits);
    var remembered := Minus(p.consumed, dropped);
    MinusDistinct(p.consumed, dropped);
    if |remembered| > CONSUMED_HISTORY_LIMIT {
      assert [] + remembered == remembered;
      TrimFacts([], remembered, KeySet(q.exits));
      if |q.consumed| > CONSUMED_HISTORY_LIMIT / 2 {
        assert Elements(q.consumed) + KeySet(q.exits) == KeySet(q.exits);
      }
    }
  }

  lemma {:induction false} CandidatesFacts(exits: Entries<Id, Exit>, consumed: seq<Id>, ask: Ask)
    ensures forall e :: (e in Candidates(exits, consumed, ask)
                         <==> Qualifies(e, consumed, ask) && exists i :: 0 <= i < |exits| && exits[i].value == e)
    ensures WellKeyed(exits) ==>
      forall i, j :: 0 <= i < j < |Candidates(exits, consumed, ask)| ==>
        Candidates(exits, consumed, ask)[i].id != Candidates(exits, consumed, ask)[j].id
  {
    if exits != [] {
      var front, last := exits[..|exits| - 1], exits[|exits| - 1];
      CandidatesFacts(front, consumed, ask);
      var before := Candidates(front, consumed, ask);
      assert exits == front + [last];
      forall e ensures e in Candidates(exits, consumed, ask)
        <==> Qualifies(e, consumed, ask) && exists i :: 0 <= i < |exits| && exits[i].value == e
      {
        if i :| 0 <= i < |exits| && exits[i].value == e {
          assert i < |front| ==> front[i].value == e;
        }
        if e in before {
          var i :| 0 <= i < |front| && front[i].value == e;
          assert exits[i].value == e;
        }
        assert exits[|front|].value == last.value;
      }
      if WellKeyed(exits) {
        assert WellKeyed(front) by {
          assert forall e :: e in front ==> e in exits;
        }
        assert last in exits;
        forall i | 0 <= i < |before| ensures before[i].id != last.value.id {
          assert before[i] in before;
          var k :| 0 <= k < |front| && front[k].value == before[i];
          assert exits[k] in exits;
          assert exits[k].key != last.key;
        }
      }
    }
  }

  lemma {:induction false} FreeFacts(candidates: seq<Exit>, taken: set<Id>)
    ensures forall e :: e in Free(candidates, taken) <==> e in candidates && e.id !in taken
  {
    if candidates != [] {
      FreeFacts(candidates[..|candidates| - 1], taken);
      assert candidates == candidates[..|candidates| - 1] + [candidates[|candidates| - 1]];
    }
  }

  lemma PickedFrom(p: Pool, ask: Ask, hash: Key -> nat)
    ensures var candidates := Candidates(p.exits, p.consumed, ask);
      var free := Free(candidates, p.assignment.Values);
      && (Pick(p, ask, hash).None? <==> candidates == [])
      && (candidates != [] ==> Pick(p, ask, hash).value in candidates)
      && (candidates != [] && ask.prefer.None? ==> Pick(p, ask, hash).value == candidates[0])
      && (candidates != [] && ask.prefer.Some? && free != [] ==> Pick(p, ask, hash).value in free)
  {
    FreeFacts(Candidates(p.exits, p.consumed, ask), p.assignment.Values);
  }

  lemma CandidateEntries(p: Pool, ask: Ask)
    requires WellKeyed(p.exits)
    ensures forall e :: (e in Candidates(p.exits, p.consumed, ask)
                         <==> Qualifies(e, p.consumed, ask) && Entry(e.id, e) in p.exits)
  {
    CandidatesFacts(p.exits, p.consumed, ask);
    forall e ensures e in Candidates(p.exits, p.consumed, ask)
                     <==> Qualifies(e, p.consumed, ask) && Entry(e.id, e) in p.exits
    {
      if i :| 0 <= i < |p.exits| && p.exits[i].value == e {
        assert p.exits[i] in p.exits;
        assert p.exits[i] == Entry(e.id, e);
      }
      if Entry(e.id, e) in p.exits {
        var i :| 0 <= i < |p.exits| && p.exits[i] == Entry(e.id, e);
        assert p.exits[i].value == e;
      }
    }
  }

  /** A pick exists exactly when something qualifies; it is in the inventory and qualifies itself. */
  lemma PickFacts(p: Pool, ask: Ask, hash: Key -> nat)
    requires WellKeyed(p.exits)
    ensures Pick(p, ask, hash).Some? <==> exists e :: e in p.exits && Qualifies(e.value, p.consumed, ask)
    ensures Pick(p, ask, hash).Some? ==>
      var exit := Pick(p, ask, hash).value;
      Entry(exit.id, exit) in p.exits && Qualifies(exit, p.consumed, ask)
  {
    PickedFrom(p, ask, hash);
    CandidateEntries(p, ask);
    var candidates := Candidates(p.exits, p.consumed, ask);
    if e :| e in p.exits && Qualifies(e.value, p.consumed, ask) {
      assert e == Entry(e.value.id, e.value);
      assert e.value in candidates;
    }
    if candidates != [] {
      assert candidates[0] in candidates;
      assert Entry(candidates[0].id, candidates[0]) in p.exits;
    }
  }

  /** For a key, an exit bound to some key is picked only when every qualifying exit is bound. */
  lemma PickPrefersFree(p: Pool, ask: Ask, hash: Key -> nat)
    requires WellKeyed(p.exits) && ask.prefer.Some? && Pick(p, ask, hash).Some?
    ensures Pick(p, ask, hash).value.id in p.assignment.Values <==>
            forall e :: e in p.exits && Qualifies(e.value, p.consumed, ask) ==> e.key in p.assignment.Values
  {
    PickedFrom(p, ask, hash);
    CandidateEntries(p, ask);
    var candidates := Candidates(p.exits, p.consumed, ask);
    FreeFacts(candidates, p.assignment.Values);
    var exit := Pick(p, ask, hash).value;
    assert Entry(exit.id, exit) in p.exits;
    if exit.id in p.assignment.Values {
      forall e | e in p.exits && Qualifies(e.value, p.consumed, ask) ensures e.key in p.assignment.Values {
        assert e == Entry(e.value.id, e.value);
        assert e.value in candidates;
        assert e.value.id !in p.assignment.Values ==> e.value in Free(candidates, p.assignment.Values);
      }
    }
  }

  /** Without a key the pick is the first qualifying exit in insertion order. */
  lemma {:induction false} FirstCandidate(exits: Entries<Id, Exit>, consumed: seq<Id>, ask: Ask)
    requires Candidates(exits, consumed, ask) != []
    ensures exists i :: && 0 <= i < |exits| && exits[i].value == Candidates(exits, consumed, ask)[0]
                        && forall j :: 0 <= j < i ==> !Qualifies(exits[j].value, consumed, ask)
  {
    var front := exits[..|exits| - 1];
    if Candidates(front, consumed, ask) != [] {
      FirstCandidate(front, consumed, ask);
      var i :| && 0 <= i < |front| && front[i].value == Candidates(front, consumed, ask)[0]
               && forall j :: 0 <= j < i ==> !Qualifies(front[j].value, consumed, ask);
      assert exits[i].value == front[i].value;
      forall j | 0 <= j < i ensures !Qualifies(exits[j].value, consumed, ask) {
        assert exits[j] == front[j];
      }
    } else {
      forall j | 0 <= j < |front| ensures !Qualifies(exits[j].value, consumed, ask) {
        CandidatesFacts(front, consumed, ask);
        assert front[j].value == exits[j].value;
      }
    }
  }

  lemma InsertOne(exits: Entries<Id, Exit>, exit: Exit)
    requires WellKeyed(exits)
    ensures var after := Put(exits, exit.id, exit);
      WellKeyed(after) && forall e :: e in after ==> e in exits || e == Entry(exit.id, exit)
  {
    PutFacts(exits, exit.id, exit);
    var after := Put(exits, exit.id, exit);
    forall e | e in after ensures e in exits || e == Entry(exit.id, exit) {
      var i :| 0 <= i < |after| && after[i] == e;
      assert i < |exits| ==> exits[i] in exits;
    }
  }

  lemma {:induction false} InsertAllMembers(exits: Entries<Id, Exit>, batch: seq<Exit>)
    requires WellKeyed(exits)
    ensures var after := InsertAll(exits, batch);
      WellKeyed(after) && forall e :: e in after ==> e in exits || e.value in batch
  {
    if batch != [] {
      var front, last := batch[..|batch| - 1], batch[|batch| - 1];
      InsertAllMembers(exits, front);
      InsertOne(InsertAll(exits, front), last);
      assert batch == front + [last];
    }
  }

  ghost function IdsOf(batch: seq<Exit>): set<Id> {
    set exit | exit in batch :: exit.id
  }

  lemma {:induction false} InsertAllKeys(exits: Entries<Id, Exit>, batch: seq<Exit>)
    requires WellKeyed(exits)
    ensures KeySet(InsertAll(exits, batch)) == KeySet(exits) + IdsOf(batch)
  {
    if batch != [] {
      var front, last := batch[..|batch| - 1], batch[|batch| - 1];
      InsertAllKeys(exits, front);
      InsertAllMembers(exits, front);
      PutFacts(InsertAll(exits, front), last.id, last);
      IdsNext(front, last);
      assert batch == front + [last];
    }
  }

  lemma IdsNext(batch: seq<Exit>, last: Exit)
    ensures IdsOf(batch + [last]) == IdsOf(batch) + {last.id}
  {
    assert last in batch + [last];
  }

  lemma {:induction false} EnteringFacts(exits: Entries<Id, Exit>, batch: seq<Exit>)
    requires WellKeyed(exits)
    ensures Distinct(Entering(exits, batch))
    ensures forall id :: (id in Entering(exits, batch)
                          <==> id in KeySet(InsertAll(exits, batch)) && id !in KeySet(exits))
  {
    if batch != [] {
      var front, last := batch[..|batch| - 1], batch[|batch| - 1];
      EnteringFacts(exits, front);
      InsertAllKeys(exits, front);
      InsertAllMembers(exits, front);
      var before := InsertAll(exits, front);
      PutFacts(before, last.id, last);
      HasIffKey(before, last.id);
    }
  }

  lemma InsertAllFacts(exits: Entries<Id, Exit>, batch: seq<Exit>)
    requires WellKeyed(exits)
    ensures var after := InsertAll(exits, batch);
      && WellKeyed(after)
      && (forall id :: id in KeySet(after) <==> id in KeySet(exits) || exists e :: e in batch && e.id == id)
      && (forall e :: e in after ==> e in exits || e.value in batch)
      && Distinct(Entering(exits, batch))
      && (forall id :: id in Entering(exits, batch) <==> id in KeySet(after) && id !in KeySet(exits))
  {
    InsertAllMembers(exits, batch);
    InsertAllKeys(exits, batch);
    EnteringFacts(exits, batch);
  }
}
