/** The mutable state of one pool, updated in place, each method tied to the allocator's specification. */
module PoolState {
  import opened Wrappers
  import opened Sequences
  import opened InsertionMap
  import opened ProxyRecord
  import opened ProxyPool

  class State {
    var exits: Entries<Id, Exit>
    var consumed: seq<Id>
    var assignment: map<Key, Id>
    var lastExtractAt: Time
    var flight: Flight
    var extractions: nat
    var lastError: Option<string>

    ghost predicate Valid()
      reads this
    {
      WellKeyed(exits) && Distinct(consumed)
    }

    ghost function View(): Pool
      reads this
    {
      Pool(exits, consumed, assignment, lastExtractAt, flight, extractions, lastError)
    }

    constructor ()
      ensures Valid() && View() == EMPTY_POOL
    {
      exits, consumed, assignment := [], [], map[];
      lastExtractAt, flight, extractions, lastError := 0.0, Idle, 0, None;
    }

    method DeleteExpired(now: Time)
      requires Valid()
      modifies this`exits, this`consumed
      ensures exits == Alive(old(exits), now)
      ensures consumed == Minus(old(consumed), Dead(old(exits), now))
    {
      var snapshot := exits;
      MinusNothing(consumed, {});
      assert snapshot[..0] == [] && [] + snapshot[0..] == snapshot;
      for i := 0 to |snapshot|
        invariant exits == Alive(snapshot[..i], now) + snapshot[i..]
        invariant consumed == Minus(old(consumed), Dead(snapshot[..i], now))
      {
        ExpireOne(snapshot, i, now);
        ForgottenNext(old(consumed), snapshot, i, now);
      }
      assert snapshot[..|snapshot|] == snapshot
        && Alive(snapshot, now) + snapshot[|snapshot|..] == Alive(snapshot, now);
    }

    method ExpireOne(snapshot: Entries<Id, Exit>, i: nat, now: Time)
      requires Unique(snapshot) && i < |snapshot| && exits == Alive(snapshot[..i], now) + snapshot[i..]
      modifies this`exits, this`consumed
      ensures exits == Alive(snapshot[..i + 1], now) + snapshot[i + 1..]
      ensures consumed
        == if Expired(snapshot[i].value, now) then Minus(old(consumed), {snapshot[i].key}) else old(consumed)
    {
      ExpireStep(snapshot, i, now);
      var entry := snapshot[i];
      if Expired(entry.value, now) {
        exits := Without(exits, {entry.key});
        consumed := Minus(consumed, {entry.key});
      }
    }

    method DeleteOldest(max: nat)
      requires Unique(exits)
      modifies this`exits, this`consumed
      ensures exits == LastN(old(exits), max)
      ensures consumed == Minus(old(consumed), KeySet(old(exits)) - KeySet(exits))
    {
      ghost var before := exits;
      ghost var k := 0;
      MinusNothing(consumed, KeySet(before[..0]));
      while |exits| > max
        invariant k <= |before| && exits == before[k..]
        invariant k == 0 || |exits| >= max
        invariant consumed == Minus(old(consumed), KeySet(before[..k]))
      {
        var oldest := exits[0].key;
        OldestStep(before, k);
        exits := Without(exits, {oldest});
        consumed := Minus(consumed, {oldest});
        MinusMinus(old(consumed), KeySet(before[..k]), {oldest});
        k := k + 1;
      }
      PrefixKeys(before, k);
    }

    method ForgetHistory()
      requires Distinct(consumed)
      modifies this`consumed
      ensures consumed == if |old(consumed)| > CONSUMED_HISTORY_LIMIT
                          then TrimHistory([], old(consumed), KeySet(exits)) else old(consumed)
    {
      if |consumed| > CONSUMED_HISTORY_LIMIT {
        var snapshot := consumed;
        ghost var inventory := KeySet(exits);
        ghost var kept: seq<Id> := [];
        assert [] + snapshot[0..] == snapshot == snapshot[0..];
        for i := 0 to |snapshot|
          invariant consumed == kept + snapshot[i..] && Distinct(consumed)
          invariant TrimHistory([], snapshot, inventory) == TrimHistory(kept, snapshot[i..], inventory)
        {
          TrimNext(kept, snapshot, i, inventory);
          ForgetOne(snapshot, i, kept);
          kept := Remembered(kept, snapshot[i], inventory);
          if |consumed| <= CONSUMED_HISTORY_LIMIT / 2 {
            return;
          }
        }
      }
    }

    /** Forgets one id, unless its exit is in the inventory. */
    method ForgetOne(snapshot: seq<Id>, i: nat, ghost kept: seq<Id>)
      requires i < |snapshot| && consumed == kept + snapshot[i..] && Distinct(consumed)
      modifies this`consumed
      ensures consumed == Remembered(kept, snapshot[i], KeySet(exits)) + snapshot[i + 1..] && Distinct(consumed)
    {
      var id := snapshot[i];
      HasIffKey(exits, id);
      ForgetStep(kept, snapshot, i);
      if !Has(exits, id) {
        consumed := Minus(consumed, {id});
      }
    }

    method DropStaleBindings()
      modifies this`assignment
      ensures assignment == Restrict(old(assignment), KeySet(exits))
    {
      var snapshot := assignment;
      var todo := snapshot.Keys;
      while todo != {}
        invariant todo <= snapshot.Keys
        invariant forall k :: k in assignment <==> k in snapshot && (k in todo || snapshot[k] in KeySet(exits))
        invariant forall k :: k in assignment ==> assignment[k] == snapshot[k]
        decreases todo
      {
        var key :| key in todo;
        HasIffKey(exits, snapshot[key]);
        if !Has(exits, snapshot[key]) {
          assignment := assignment - {key};
        }
        todo := todo - {key};
      }
    }

    /** Drops expired exits and then the oldest, with their marks. */
    method ShrinkInventory(max: nat, now: Time)
      requires Valid()
      modifies this`exits, this`consumed
      ensures exits == Survivors(old(exits), max, now)
      ensures consumed == Minus(old(consumed), KeySet(old(exits)) - KeySet(exits)) && Distinct(consumed)
    {
      DeleteExpired(now);
      ghost var alive := exits;
      AliveFacts(old(exits), now);
      DeleteOldest(max);
      PruneSteps(old(exits), old(consumed), alive, exits, now);
    }

    method PruneState(max: nat, now: Time)
      requires Valid()
      modifies this`exits, this`consumed, this`assignment
      ensures View() == Prune(old(View()), max, now)
    {
      ShrinkInventory(max, now);
      ForgetHistory();
      DropStaleBindings();
    }

    method PickUsable(ask: Ask, hash: Key -> nat) returns (exit: Option<Exit>)
      ensures exit == Pick(View(), ask, hash)
    {
      var candidates: seq<Exit> := [];
      for i := 0 to |exits|
        invariant candidates == Candidates(exits[..i], consumed, ask)
      {
        assert exits[..i + 1][..i] == exits[..i];
        var candidate := exits[i].value;
        if ask.skipConsumed && candidate.id in consumed {
          continue;
        }
        if TooShort(candidate, ask.now, ask.minRemaining) {
          continue;
        }
        candidates := candidates + [candidate];
      }
      assert exits[..|exits|] == exits;
      if |candidates| == 0 {
        return None;
      }
      if ask.prefer.None? {
        return Some(candidates[0]);
      }
      var taken := assignment.Values;
      var free := Free(candidates, taken);
      var from := if |free| > 0 then free else candidates;
      return Some(from[hash(ask.prefer.value) % |from|]);
    }

    /** The part of the refresh that runs before it first waits. */
    method RefreshInventory(cfg: Config, now: Time)
      modifies this`flight
      ensures View() == BeginRefresh(cfg, old(View()), now)
    {
      if !flight.Idle? {
        return;
      }
      var wait := lastExtractAt + cfg.minIntervalMs - now;
      flight := if wait > 0.0 then Pacing(lastExtractAt + cfg.minIntervalMs) else Fetching;
    }

    /** Puts what the provider answered into the inventory; a known id gets its new record in its old place. */
    method InsertBatch(fetched: seq<Exit>)
      modifies this`exits
      ensures exits == InsertAll(old(exits), fetched)
    {
      for i := 0 to |fetched|
        invariant exits == InsertAll(old(exits), fetched[..i])
      {
        assert fetched[..i + 1][..i] == fetched[..i];
        exits := Put(exits, fetched[i].id, fetched[i]);
      }
      assert fetched[..|fetched|] == fetched;
    }

    /** The part of the refresh that runs when the provider has answered or failed. */
    method FinishRefresh(cfg: Config, batch: Result<seq<Exit>, string>, atDone: Time, atPrune: Time)
      requires Valid()
      modifies this
      ensures Valid() && View() == SettleRefresh(cfg, old(View()), batch, atDone, atPrune)
    {
      Load(batch, atDone);
      PruneKeepsValid(View(), cfg.maxPoolSize, atPrune);
      PruneState(cfg.maxPoolSize, atPrune);
    }

    method Load(batch: Result<seq<Exit>, string>, atDone: Time)
      requires Valid()
      modifies this
      ensures Valid() && View() == Loaded(old(View()), batch, atDone)
    {
      match batch {
        case Ok(fetched) =>
          InsertAllFacts(exits, fetched);
          InsertBatch(fetched);
          extractions := extractions + 1;
          lastError := None;
        case Err(reason) =>
          lastError := Some(reason);
      }
      lastExtractAt := atDone;
      flight := Idle;
    }

    method TakeFromInventory(cfg: Config, key: Key, minRemaining: Time, now: Time) returns (exit: Option<Exit>)
      requires Valid()
      modifies this`consumed, this`assignment
      ensures Valid() && Attempt(View(), exit) == TakeUsable(cfg, old(View()), key, minRemaining, now)
    {
      exit := PickUsable(AskFor(cfg, key, minRemaining, now), cfg.hash);
      if exit.Some? {
        if cfg.mode.PerSession? {
          if exit.value.id !in consumed {
            consumed := consumed + [exit.value.id];
          }
        } else {
          assignment := assignment[key := exit.value.id];
        }
      }
    }

    /** The part of an acquire that runs before it waits for a refresh; `None` means that it must wait. */
    method AcquireFromApi(cfg: Config, key: Key, minRemaining: Time, atBound: Time, atPick: Time)
      returns (exit: Option<Exit>)
      requires Valid()
      modifies this`consumed, this`assignment
      ensures Valid() && Attempt(View(), exit) == BeginAcquire(cfg, old(View()), key, minRemaining, atBound, atPick)
    {
      if cfg.mode.Pooled? && key in assignment {
        var bound := Lookup(exits, assignment[key]);
        if bound.Some? && !TooShort(bound.value, atBound, minRemaining) {
          return bound;
        }
        assignment := assignment - {key};
      } else {
        assert cfg.mode.Pooled? ==> assignment - {key} == assignment;
      }
      exit := TakeFromInventory(cfg, key, minRemaining, atPick);
    }

    method UnbindExit(id: Id)
      modifies this`assignment
      ensures assignment == map k | k in old(assignment) && old(assignment)[k] != id :: old(assignment)[k]
    {
      var snapshot := assignment;
      var todo := snapshot.Keys;
      while todo != {}
        invariant todo <= snapshot.Keys
        invariant forall k :: k in assignment <==> k in snapshot && (k in todo || snapshot[k] != id)
        invariant forall k :: k in assignment ==> assignment[k] == snapshot[k]
        decreases todo
      {
        var key :| key in todo;
        if snapshot[key] == id {
          assignment := assignment - {key};
        }
        todo := todo - {key};
      }
    }

    method ReleaseSessionProxy(id: Id, ok: bool)
      requires Valid()
      modifies this`exits, this`assignment
      ensures Valid() && View() == ReleaseExit(old(View()), id, ok)
    {
      if !ok {
        WithoutFacts(exits, {id});
        exits := Without(exits, {id});
        UnbindExit(id);
      }
    }
  }

  lemma PruneKeepsValid(p: Pool, max: nat, now: Time)
    requires WellKeyed(p.exits) && Distinct(p.consumed)
    ensures WellKeyed(Prune(p, max, now).exits) && Distinct(Prune(p, max, now).consumed)
  {
    SurvivorsFacts(p.exits, max, now);
    PruneMarks(p, max, now);
  }

  /** The keys of the entries that have expired at `now`. */
  ghost function Dead(exits: Entries<Id, Exit>, now: Time): set<Id> {
    if exits == [] then {}
    else
      var front, last := exits[..|exits| - 1], exits[|exits| - 1];
      if Expired(last.value, now) then Dead(front, now) + {last.key} else Dead(front, now)
  }

  lemma {:induction false} DeadKeys(exits: Entries<Id, Exit>, now: Time)
    requires Unique(exits)
    ensures Dead(exits, now) == KeySet(exits) - KeySet(Alive(exits, now))
  {
    if exits != [] {
      var n := |exits| - 1;
      DeadKeys(exits[..n], now);
      AliveFacts(exits[..n], now);
      KeysGrow(exits, n, Alive(exits[..n], now));
      assert exits[..n + 1] == exits;
    }
  }

  lemma ExpireStep(snapshot: Entries<Id, Exit>, i: nat, now: Time)
    requires Unique(snapshot) && i < |snapshot|
    ensures var alive := Alive(snapshot[..i], now);
      if Expired(snapshot[i].value, now) then
        Without(alive + snapshot[i..], {snapshot[i].key}) == Alive(snapshot[..i + 1], now) + snapshot[i + 1..]
      else
        alive + snapshot[i..] == Alive(snapshot[..i + 1], now) + snapshot[i + 1..]
  {
    assert snapshot[..i + 1][..i] == snapshot[..i];
    assert snapshot[i..] == [snapshot[i]] + snapshot[i + 1..];
    AliveFacts(snapshot[..i], now);
    DropOne(Alive(snapshot[..i], now), snapshot, i);
  }

  lemma DeadNext(snapshot: Entries<Id, Exit>, i: nat, now: Time)
    requires i < |snapshot|
    ensures Dead(snapshot[..i + 1], now)
            == if Expired(snapshot[i].value, now) then Dead(snapshot[..i], now) + {snapshot[i].key}
              else Dead(snapshot[..i], now)
  {
    assert snapshot[..i + 1][..i] == snapshot[..i];
  }

  lemma ForgottenNext(consumed: seq<Id>, snapshot: Entries<Id, Exit>, i: nat, now: Time)
    requires i < |snapshot|
    ensures var before := Minus(consumed, Dead(snapshot[..i], now));
      Minus(consumed, Dead(snapshot[..i + 1], now))
      == if Expired(snapshot[i].value, now) then Minus(before, {snapshot[i].key}) else before
  {
    DeadNext(snapshot, i, now);
    MinusMinus(consumed, Dead(snapshot[..i], now), {snapshot[i].key});
  }

  lemma PrefixKeys(before: Entries<Id, Exit>, k: nat)
    requires Unique(before) && k <= |before|
    ensures KeySet(before[..k]) == KeySet(before) - KeySet(before[k..])
  {
    assert before == before[..k] + before[k..];
    forall e, f | e in before[..k] && f in before[k..] ensures e.key != f.key {
      var i :| 0 <= i < k && before[..k][i] == e;
      var j :| 0 <= j < |before| - k && before[k..][j] == f;
      assert before[i] == e && before[k + j] == f;
    }
  }

  lemma OldestStep(before: Entries<Id, Exit>, k: nat)
    requires Unique(before) && k < |before|
    ensures Without(before[k..], {before[k].key}) == before[k + 1..]
    ensures KeySet(before[..k + 1]) == KeySet(before[..k]) + {before[k].key}
  {
    DropOne([], before, k);
    assert [] + before[k..] == before[k..] && [] + before[k + 1..] == before[k + 1..];
    assert before[..k + 1] == before[..k] + [before[k]];
  }

  ghost function Remembered(kept: seq<Id>, id: Id, inventory: set<Id>): seq<Id> {
    if id in inventory then kept + [id] else kept
  }

  lemma TrimNext(kept: seq<Id>, snapshot: seq<Id>, i: nat, inventory: set<Id>)
    requires i < |snapshot|
    ensures var kept' := Remembered(kept, snapshot[i], inventory);
      var left := kept' + snapshot[i + 1..];
      TrimHistory(kept, snapshot[i..], inventory)
      == if |left| <= CONSUMED_HISTORY_LIMIT / 2 then left else TrimHistory(kept', snapshot[i + 1..], inventory)
  {
    assert snapshot[i..][0] == snapshot[i] && snapshot[i..][1..] == snapshot[i + 1..];
  }

  lemma ForgetStep(kept: seq<Id>, snapshot: seq<Id>, i: nat)
    requires i < |snapshot| && Distinct(kept + snapshot[i..])
    ensures kept + snapshot[i..] == (kept + [snapshot[i]]) + snapshot[i + 1..]
    ensures Minus(kept + snapshot[i..], {snapshot[i]}) == kept + snapshot[i + 1..]
    ensures Distinct(kept + snapshot[i + 1..])
  {
    var id := snapshot[i];
    assert kept + snapshot[i..] == kept + [id] + snapshot[i + 1..];
    MinusOne(kept, id, snapshot[i + 1..]);
    MinusDistinct(kept + snapshot[i..], {id});
  }

  lemma PruneSteps(
    exits: Entries<Id, Exit>, consumed: seq<Id>, alive: Entries<Id, Exit>, kept: Entries<Id, Exit>, now: Time)
    requires Unique(exits) && Distinct(consumed)
    requires alive == Alive(exits, now)
    requires exists max: nat :: kept == LastN(alive, max)
    ensures Minus(Minus(consumed, Dead(exits, now)), KeySet(alive) - KeySet(kept))
            == Minus(consumed, KeySet(exits) - KeySet(kept))
    ensures Distinct(Minus(consumed, KeySet(exits) - KeySet(kept)))
  {
    DeadKeys(exits, now);
    AliveFacts(exits, now);
    MinusMinus(consumed, Dead(exits, now), KeySet(alive) - KeySet(kept));
    MinusDistinct(consumed, KeySet(exits) - KeySet(kept));
    assert KeySet(kept) <= KeySet(alive) <= KeySet(exits);
    assert Dead(exits, now) + (KeySet(alive) - KeySet(kept)) == KeySet(exits) - KeySet(kept);
  }

  lemma DropOne(alive: Entries<Id, Exit>, snapshot: Entries<Id, Exit>, i: nat)
    requires Unique(snapshot) && i < |snapshot|
    requires forall e :: e in alive ==> e in snapshot[..i]
    ensures Without(alive + snapshot[i..], {snapshot[i].key}) == alive + snapshot[i + 1..]
  {
    var x := snapshot[i].key;
    forall e | e in alive ensures e.key != x {
      var j :| 0 <= j < |snapshot[..i]| && snapshot[..i][j] == e;
      assert snapshot[j] == e;
    }
    forall e | e in snapshot[i + 1..] ensures e.key != x {
      var j :| 0 <= j < |snapshot[i + 1..]| && snapshot[i + 1..][j] == e;
      assert snapshot[i + 1 + j] == e;
    }
    WithoutMiddle(alive, snapshot[i], snapshot[i + 1..]);
    assert alive + snapshot[i..] == alive + [snapshot[i]] + snapshot[i + 1..];
  }

  lemma {:induction false} WithoutMiddle(a: Entries<Id, Exit>, x: Entry<Id, Exit>, b: Entries<Id, Exit>)
    requires forall e :: e in a || e in b ==> e.key != x.key
    ensures Without(a + [x] + b, {x.key}) == a + b
  {
    if b != [] {
      var front := b[..|b| - 1];
      WithoutMiddle(a, x, front);
      assert (a + [x] + b)[..|a + [x] + b| - 1] == a + [x] + front;
      assert b[|b| - 1] in b;
      assert b == front + [b[|b| - 1]];
    } else {
      assert (a + [x] + b)[..|a|] == a;
      WithoutNothing(a, x.key);
      assert a + [x] + b == a + [x];
      assert a + b == a;
    }
  }

  lemma {:induction false} WithoutNothing(a: Entries<Id, Exit>, k: Id)
    requires forall e :: e in a ==> e.key != k
    ensures Without(a, {k}) == a
  {
    if a != [] {
      assert a == a[..|a| - 1] + [a[|a| - 1]];
      WithoutNothing(a[..|a| - 1], k);
    }
  }

  lemma KeysGrow(snapshot: Entries<Id, Exit>, i: nat, alive: Entries<Id, Exit>)
    requires Unique(snapshot) && i < |snapshot|
    requires forall e :: e in alive ==> e in snapshot[..i]
    ensures KeySet(snapshot[..i + 1]) == KeySet(snapshot[..i]) + {snapshot[i].key}
    ensures snapshot[i].key !in KeySet(snapshot[..i]) && snapshot[i].key !in KeySet(alive)
    ensures KeySet(alive + [snapshot[i]]) == KeySet(alive) + {snapshot[i].key}
  {
    assert snapshot[..i + 1] == snapshot[..i] + [snapshot[i]];
    forall e | e in snapshot[..i] ensures e.key != snapshot[i].key {
      var j :| 0 <= j < |snapshot[..i]| && snapshot[..i][j] == e;
      assert snapshot[j] == e;
    }
  }
}
