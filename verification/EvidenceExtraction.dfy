/** Extracting the queries and sources of one response text. */
module EvidenceExtraction {
  import opened Wrappers
  import opened Sequences
  import opened InsertionMap
  import opened Text
  import opened EvidenceMerge
  import opened EvidenceWalk
  import SseChunks
  import UrlIdentity

  datatype Evidence = Evidence(queries: QueryMap, sources: SourceMap, blocks: nat)

  const NOTHING := Evidence([], [], 0)

  function AbsorbOne(env: Env, a: Evidence, e: Emission): Evidence {
    match e
    case Block => a.(blocks := a.blocks + 1)
    case Query(text) => a.(queries := AddQuery(env.lower, a.queries, text))
    case Found(source) => a.(sources := AddSource(a.sources, source))
  }

  function AbsorbAll(env: Env, a: Evidence, es: seq<Emission>): Evidence {
    if es == [] then a else AbsorbOne(env, AbsorbAll(env, a, es[..|es| - 1]), es[|es| - 1])
  }

  lemma {:induction false} AbsorbConcat(env: Env, a: Evidence, s: seq<Emission>, t: seq<Emission>)
    ensures AbsorbAll(env, a, s + t) == AbsorbAll(env, AbsorbAll(env, a, s), t)
  {
    if t == [] {
      assert s + t == s;
    } else {
      AbsorbConcat(env, a, s, t[..|t| - 1]);
      assert (s + t)[..|s + t| - 1] == s + t[..|t| - 1];
    }
  }

  lemma AbsorbNext(env: Env, a: Evidence, s: seq<Emission>, e: Emission)
    ensures AbsorbAll(env, a, s + [e]) == AbsorbOne(env, AbsorbAll(env, a, s), e)
  {
    assert (s + [e])[..|s|] == s;
  }

  function SourcesOf(es: seq<Emission>): seq<Source> {
    if es == [] then []
    else
      var front, last := SourcesOf(es[..|es| - 1]), es[|es| - 1];
      if last.Found? then front + [last.source] else front
  }

  function QueriesOf(es: seq<Emission>): seq<string> {
    if es == [] then []
    else
      var front, last := QueriesOf(es[..|es| - 1]), es[|es| - 1];
      if last.Query? then front + [last.text] else front
  }

  function BlocksOf(es: seq<Emission>): nat {
    if es == [] then 0 else BlocksOf(es[..|es| - 1]) + if es[|es| - 1].Block? then 1 else 0
  }

  lemma {:induction false} EmissionKinds(es: seq<Emission>)
    ensures forall s :: s in SourcesOf(es) <==> Found(s) in es
    ensures forall q :: q in QueriesOf(es) <==> Query(q) in es
  {
    if es != [] {
      EmissionKinds(es[..|es| - 1]);
      assert es == es[..|es| - 1] + [es[|es| - 1]];
    }
  }

  /** Queries, sources and blocks do not influence one another. */
  lemma {:induction false} AbsorbSplits(env: Env, a: Evidence, es: seq<Emission>)
    ensures AbsorbAll(env, a, es)
            == Evidence(AddQueries(env.lower, a.queries, QueriesOf(es)), AddSources(a.sources, SourcesOf(es)),
                        a.blocks + BlocksOf(es))
  {
    if es != [] {
      var front, e := es[..|es| - 1], es[|es| - 1];
      AbsorbSplits(env, a, front);
      match e
      case Block =>
      case Query(text) => AddQueriesNext(env.lower, a.queries, QueriesOf(front), text);
      case Found(source) => AddSourcesNext(a.sources, SourcesOf(front), source);
    }
  }

  lemma AbsorbNextField(env: Env, a: Evidence, fields: seq<Field>, i: nat, searchContext: bool, depth: nat)
    requires i < |fields| && depth <= MAX_DEPTH
    ensures AbsorbAll(env, a, EmitFields(env, fields[..i + 1], searchContext, depth))
            == AbsorbAll(env, AbsorbAll(env, a, EmitFields(env, fields[..i], searchContext, depth)),
                         EmitField(env, fields[i], searchContext, depth))
  {
    assert fields[..i + 1][..i] == fields[..i];
    AbsorbConcat(env, a, EmitFields(env, fields[..i], searchContext, depth),
                 EmitField(env, fields[i], searchContext, depth));
  }

  lemma AbsorbItem(env: Env, a: Evidence, item: Json, rank: nat, searchContext: bool, depth: nat)
    requires depth <= MAX_DEPTH
    ensures AbsorbAll(env, a, EmitItem(env, item, rank, searchContext, depth))
            == AbsorbAll(env, AbsorbAll(env, a, RankedSource(env, item, rank, searchContext)),
                         Emit(env, item, searchContext, depth + 1))
  {
    AbsorbConcat(env, a, RankedSource(env, item, rank, searchContext), Emit(env, item, searchContext, depth + 1));
  }

  lemma AbsorbNextItem(env: Env, a: Evidence, items: seq<Json>, i: nat, searchContext: bool, depth: nat)
    requires i < |items| && depth <= MAX_DEPTH
    ensures AbsorbAll(env, a, EmitItems(env, items[..i + 1], searchContext, depth))
            == AbsorbAll(env, AbsorbAll(env, a, EmitItems(env, items[..i], searchContext, depth)),
                         EmitItem(env, items[i], i + 1, searchContext, depth))
  {
    assert items[..i + 1][..i] == items[..i];
    AbsorbConcat(env, a, EmitItems(env, items[..i], searchContext, depth),
                 EmitItem(env, items[i], i + 1, searchContext, depth));
  }

  // ---------------------------------------------------------- candidates of a response

  function BracketLines(lines: seq<string>): seq<string> {
    if lines == [] then []
    else
      var front, trimmed := BracketLines(lines[..|lines| - 1]), Trim(lines[|lines| - 1]);
      if StartsWith(trimmed, "{") || StartsWith(trimmed, "[") then front + [trimmed] else front
  }

  /** The whole text, its event stream chunks and its lines that open a JSON value. */
  function RawCandidates(text: string): seq<string> {
    [text] + SseChunks.ChunksOf(text) + BracketLines(SseChunks.Lines(text))
  }

  method ResponseCandidates(text: string) returns (candidates: seq<string>)
    ensures candidates == FirstSeen(RawCandidates(text))
  {
    candidates := [text];
    var chunks := SseChunks.SseDataChunks(text);
    candidates := candidates + chunks;
    var lines := SseChunks.Lines(text);
    ghost var head := candidates;
    for i := 0 to |lines|
      invariant candidates == head + BracketLines(lines[..i])
    {
      assert lines[..i + 1][..i] == lines[..i];
      var trimmed := Trim(lines[i]);
      if StartsWith(trimmed, "{") || StartsWith(trimmed, "[") {
        candidates := candidates + [trimmed];
      }
    }
    assert lines[..|lines|] == lines;
    candidates := FirstSeen(candidates);
  }

  function EmissionsOfOne(env: Env, candidate: string): seq<Emission> {
    match ParseJsonish(env, candidate)
    case None => []
    case Some(parsed) => Emit(env, parsed, false, 0)
  }

  function EmissionsOf(env: Env, candidates: seq<string>): seq<Emission> {
    if candidates == [] then []
    else EmissionsOf(env, candidates[..|candidates| - 1]) + EmissionsOfOne(env, candidates[|candidates| - 1])
  }

  lemma AbsorbNextCandidate(env: Env, a: Evidence, candidates: seq<string>, i: nat)
    requires i < |candidates|
    ensures AbsorbAll(env, a, EmissionsOf(env, candidates[..i + 1]))
            == AbsorbAll(env, AbsorbAll(env, a, EmissionsOf(env, candidates[..i])), EmissionsOfOne(env, candidates[i]))
  {
    assert candidates[..i + 1][..i] == candidates[..i];
    AbsorbConcat(env, a, EmissionsOf(env, candidates[..i]), EmissionsOfOne(env, candidates[i]));
  }

  function Extracted(env: Env, text: string): Evidence {
    AbsorbAll(env, NOTHING, EmissionsOf(env, FirstSeen(RawCandidates(text))))
  }

  lemma {:induction false} EmittedByMember(env: Env, candidates: seq<string>, c: string, e: Emission)
    requires c in candidates && e in EmissionsOfOne(env, c)
    ensures e in EmissionsOf(env, candidates)
  {
    var front, last := candidates[..|candidates| - 1], candidates[|candidates| - 1];
    if c != last {
      EmittedByMember(env, front, c, e);
    }
  }

  lemma {:induction false} EmitterOf(env: Env, candidates: seq<string>, e: Emission) returns (c: string)
    requires e in EmissionsOf(env, candidates)
    ensures c in candidates && e in EmissionsOfOne(env, c)
  {
    var front, last := candidates[..|candidates| - 1], candidates[|candidates| - 1];
    if e in EmissionsOf(env, front) {
      c := EmitterOf(env, front, e);
    } else {
      c := last;
    }
  }

  /** A source or query is reachable in a text: some candidate holds it on a path through search context. */
  ghost predicate Reachable(env: Env, text: string, e: Emission) {
    exists c :: c in RawCandidates(text) && ReachableIn(env, c, e)
  }

  ghost predicate ReachableIn(env: Env, candidate: string, e: Emission) {
    var parsed := ParseJsonish(env, candidate);
    parsed.Some? && exists path :: |path| <= MAX_DEPTH && Contributes(env, parsed.value, false, path, e)
  }

  lemma ReachableInExact(env: Env, candidate: string, e: Emission)
    ensures ReachableIn(env, candidate, e) <==> e in EmissionsOfOne(env, candidate)
  {
    var parsed := ParseJsonish(env, candidate);
    if parsed.Some? {
      WalkExact(env, parsed.value, false, 0, e);
    }
  }

  lemma ReachableIsEmitted(env: Env, text: string, e: Emission)
    ensures Reachable(env, text, e) <==> e in EmissionsOf(env, FirstSeen(RawCandidates(text)))
  {
    var raw := RawCandidates(text);
    FirstSeenMember(raw);
    if Reachable(env, text, e) {
      var c :| c in raw && ReachableIn(env, c, e);
      ReachableInExact(env, c, e);
      EmittedByMember(env, FirstSeen(raw), c, e);
    }
    if e in EmissionsOf(env, FirstSeen(raw)) {
      var c := EmitterOf(env, FirstSeen(raw), e);
      ReachableInExact(env, c, e);
    }
  }

  /**
   * Extraction finds exactly the reachable evidence: a URL is in the result when a source with that URL is reachable,
   * and a query key is in the result when a query with that key is.
   */
  lemma ExtractionExact(env: Env, text: string)
    ensures forall u :: Has(Extracted(env, text).sources, u)
                        <==> exists s: Source :: s.canonicalUrl == u && Reachable(env, text, Found(s))
    ensures forall k :: Has(Extracted(env, text).queries, k)
                        <==> exists q :: env.lower(q) == k && Reachable(env, text, Query(q))
  {
    var es := EmissionsOf(env, FirstSeen(RawCandidates(text)));
    AbsorbSplits(env, NOTHING, es);
    EmissionKinds(es);
    forall u ensures Has(Extracted(env, text).sources, u)
                     <==> exists s: Source :: s.canonicalUrl == u && Reachable(env, text, Found(s)) {
      SourceReached(env, text, u);
    }
    forall k ensures Has(Extracted(env, text).queries, k)
                     <==> exists q :: env.lower(q) == k && Reachable(env, text, Query(q)) {
      QueryReached(env, text, k);
    }
  }

  lemma SourceReached(env: Env, text: string, u: UrlIdentity.Url)
    ensures Has(Extracted(env, text).sources, u) <==>
      exists s: Source :: s.canonicalUrl == u && Reachable(env, text, Found(s))
  {
    var es := EmissionsOf(env, FirstSeen(RawCandidates(text)));
    var ss := SourcesOf(es);
    AbsorbSplits(env, NOTHING, es);
    EmissionKinds(es);
    AccumulatedUrls(ss, u);
    UrlOfMember(ss, u);
    forall s: Source ensures s in ss <==> Reachable(env, text, Found(s)) {
      ReachableIsEmitted(env, text, Found(s));
    }
  }

  lemma QueryReached(env: Env, text: string, k: string)
    ensures Has(Extracted(env, text).queries, k) <==> exists q :: env.lower(q) == k && Reachable(env, text, Query(q))
  {
    var es := EmissionsOf(env, FirstSeen(RawCandidates(text)));
    var qs := QueriesOf(es);
    AbsorbSplits(env, NOTHING, es);
    EmissionKinds(es);
    QueryKeyOf(env.lower, qs, k);
    if q :| q in qs && env.lower(q) == k {
      ReachableIsEmitted(env, text, Query(q));
    }
    if q :| env.lower(q) == k && Reachable(env, text, Query(q)) {
      ReachableIsEmitted(env, text, Query(q));
      assert q in qs;
    }
  }

  lemma QueryKeyOf(lower: string -> string, qs: seq<string>, k: string)
    ensures Has(AddQueries(lower, [], qs), k) <==> exists q :: q in qs && lower(q) == k
  {
    QueryKeys(lower, qs);
    HasIffKey(AddQueries(lower, [], qs), k);
    FirstSeenMember(LowerAll(lower, qs));
    if k in LowerAll(lower, qs) {
      var i :| 0 <= i < |LowerAll(lower, qs)| && LowerAll(lower, qs)[i] == k;
      assert qs[i] in qs;
    }
    if q :| q in qs && lower(q) == k {
      var i :| 0 <= i < |qs| && qs[i] == q;
      assert LowerAll(lower, qs)[i] == k;
    }
  }

  lemma QueryKeys(lower: string -> string, qs: seq<string>)
    ensures Keys(AddQueries(lower, [], qs)) == FirstSeen(LowerAll(lower, qs))
  {
    AddQueriesFacts(lower, [], qs);
    assert Keys<string, string>([]) + LowerAll(lower, qs) == LowerAll(lower, qs);
  }

  lemma {:induction false} KindsConcat(s: seq<Emission>, t: seq<Emission>)
    ensures SourcesOf(s + t) == SourcesOf(s) + SourcesOf(t)
    ensures QueriesOf(s + t) == QueriesOf(s) + QueriesOf(t)
  {
    if t == [] {
      assert s + t == s;
    } else {
      KindsConcat(s, t[..|t| - 1]);
      assert (s + t)[..|s + t| - 1] == s + t[..|t| - 1];
    }
  }

  /**
   * A text holds the same JSON several times over: as a whole, as an event payload and as a line. Dropping repeated
   * candidates before the walk changes neither the queries nor the sources; it keeps blocks from counting twice.
   */
  lemma {:induction false} RepeatsAreInvisible(env: Env, candidates: seq<string>)
    ensures
      var once := AbsorbAll(env, NOTHING, EmissionsOf(env, FirstSeen(candidates)));
      var all := AbsorbAll(env, NOTHING, EmissionsOf(env, candidates));
      once.queries == all.queries && once.sources == all.sources && once.blocks <= all.blocks
  {
    if candidates != [] {
      var front, last := candidates[..|candidates| - 1], candidates[|candidates| - 1];
      RepeatsAreInvisible(env, front);
      var before, more := EmissionsOf(env, front), EmissionsOfOne(env, last);
      AbsorbSplits(env, NOTHING, before);
      AbsorbConcat(env, NOTHING, before, more);
      AbsorbSplits(env, AbsorbAll(env, NOTHING, before), more);
      if last in front {
        EmissionKinds(before);
        EmissionKinds(more);
        forall e | e in more ensures e in before {
          EmittedByMember(env, front, last, e);
        }
        ReaddingSources([], SourcesOf(before), SourcesOf(more));
        ReaddingQueries(env.lower, [], QueriesOf(before), QueriesOf(more));
      } else {
        var kept := FirstSeen(front);
        assert (kept + [last])[..|kept|] == kept;
        AbsorbSplits(env, NOTHING, EmissionsOf(env, kept));
        AbsorbConcat(env, NOTHING, EmissionsOf(env, kept), more);
        AbsorbSplits(env, AbsorbAll(env, NOTHING, EmissionsOf(env, kept)), more);
      }
    }
  }

  lemma AbsorbOwnInContext(env: Env, a: Evidence, fields: seq<Field>)
    ensures AbsorbAll(env, a, OwnInContext(env, fields))
            == var listed := AbsorbAll(env, a, ListedQueries(env, fields, QUERY_LIST_KEYS));
               var single := AbsorbAll(env, listed, SingleQuery(env, fields));
               AbsorbAll(env, single, AsFound(SourceFromObject(env, Obj(fields), None)))
  {
    var listed, single := ListedQueries(env, fields, QUERY_LIST_KEYS), SingleQuery(env, fields);
    var source := AsFound(SourceFromObject(env, Obj(fields), None));
    AbsorbConcat(env, a, listed + single, source);
    AbsorbConcat(env, a, listed, single);
  }

  lemma AbsorbCounted(env: Env, a: Evidence, here: bool, rest: seq<Emission>)
    ensures AbsorbAll(env, a, (if here then [Block] else []) + rest)
            == AbsorbAll(env, if here then a.(blocks := a.blocks + 1) else a, rest)
  {
    if here {
      AbsorbNext(env, a, [], Block);
      assert [] + [Block] == [Block];
      AbsorbConcat(env, a, [Block], rest);
    } else {
      assert [] + rest == rest;
    }
  }

  lemma AbsorbOwn(env: Env, a: Evidence, fields: seq<Field>, context: bool)
    ensures AbsorbAll(env, a, Own(env, fields, context))
            == var here := LooksLikeSearchBlock(env, fields);
               AbsorbInside(env, Counted(a, here), fields, context || here)
  {
    var here := LooksLikeSearchBlock(env, fields);
    AbsorbCounted(env, a, here, if context || here then OwnInContext(env, fields) else []);
  }

  function Counted(a: Evidence, here: bool): Evidence {
    if here then a.(blocks := a.blocks + 1) else a
  }

  function AbsorbInside(env: Env, a: Evidence, fields: seq<Field>, inside: bool): Evidence {
    if inside then AbsorbAll(env, a, OwnInContext(env, fields)) else a
  }

  // ------------------------------------------------------------------ the accumulator

  /** The query list as a map by lower-cased text. */
  function Keyed(lower: string -> string, queries: seq<string>): QueryMap {
    seq(|queries|, i requires 0 <= i < |queries| => Entry(lower(queries[i]), queries[i]))
  }

  class Accumulator {
    const env: Env
    var queries: seq<string>
    var querySet: set<string>
    var sourceMap: SourceMap
    var matchedBlockCount: nat

    ghost predicate Valid()
      reads this
    {
      querySet == KeySet(Keyed(env.lower, queries))
    }

    ghost function View(): Evidence
      reads this
    {
      Evidence(Keyed(env.lower, queries), sourceMap, matchedBlockCount)
    }

    constructor (env: Env)
      ensures this.env == env && Valid() && View() == NOTHING
    {
      this.env := env;
      queries, querySet, sourceMap, matchedBlockCount := [], {}, [], 0;
    }

    method AddQuery(value: Json)
      requires Valid()
      modifies this
      ensures Valid() && View() == AbsorbAll(env, old(View()), AsQueries(StringArray(env, value)))
    {
      ghost var start := View();
      var texts := StringArray(env, value);
      ghost var es := AsQueries(texts);
      for i := 0 to |texts|
        invariant Valid() && View() == AbsorbAll(env, start, es[..i])
      {
        assert es[..i + 1] == es[..i] + [Query(texts[i])];
        AbsorbNext(env, start, es[..i], Query(texts[i]));
        AddText(texts[i]);
      }
      assert es[..|texts|] == es;
    }

    method AddText(text: string)
      requires Valid()
      modifies this`queries, this`querySet
      ensures Valid() && View() == AbsorbOne(env, old(View()), Query(text))
    {
      var key := env.lower(text);
      ghost var before := Keyed(env.lower, queries);
      HasIffKey(before, key);
      if key !in querySet {
        querySet := querySet + {key};
        queries := queries + [text];
        assert Keyed(env.lower, queries) == before + [Entry(key, text)];
      }
    }

    method AddSource(found: Option<Source>)
      requires Valid()
      modifies this
      ensures Valid() && View() == AbsorbAll(env, old(View()), AsFound(found))
    {
      if found.None? {
        return;
      }
      var source := found.value;
      AbsorbNext(env, View(), [], Found(source));
      assert [] + [Found(source)] == [Found(source)];
      var previous := Lookup(sourceMap, source.canonicalUrl);
      if previous.None? {
        sourceMap := Put(sourceMap, source.canonicalUrl, source);
        return;
      }
      sourceMap := Put(sourceMap, source.canonicalUrl, Merge(previous.value, source));
    }

    /** The recursive walk updates the accumulator by exactly what the walk emits, in order. */
    method Walk(value: Json, searchContext: bool, depth: nat)
      requires Valid()
      modifies this
      ensures Valid() && View() == AbsorbAll(env, old(View()), Emit(env, value, searchContext, depth))
      decreases Fuel(depth), 1
    {
      if depth > MAX_DEPTH || value.Null? {
        return;
      }
      if value.Str? {
        var parsed := ParseJsonish(env, value.text);
        if parsed.Some? {
          Walk(parsed.value, searchContext, depth + 1);
        }
        return;
      }
      if value.Arr? {
        WalkItems(value.items, searchContext, depth);
        return;
      }
      if value.Obj? {
        var blockHere := LooksLikeSearchBlock(env, value.fields);
        AbsorbConcat(env, View(), Own(env, value.fields, searchContext),
                     EmitFields(env, value.fields, searchContext || blockHere, depth));
        OwnEvidence(value.fields, searchContext);
        WalkFields(value.fields, searchContext || blockHere, depth);
      }
    }

    method WalkCandidates(candidates: seq<string>)
      requires Valid()
      modifies this
      ensures Valid() && View() == AbsorbAll(env, old(View()), EmissionsOf(env, candidates))
    {
      ghost var start := View();
      for i := 0 to |candidates|
        invariant Valid() && View() == AbsorbAll(env, start, EmissionsOf(env, candidates[..i]))
      {
        AbsorbNextCandidate(env, start, candidates, i);
        var parsed := ParseJsonish(env, candidates[i]);
        if parsed.Some? {
          Walk(parsed.value, false, 0);
        }
      }
      assert candidates[..|candidates|] == candidates;
    }

    method WalkItems(items: seq<Json>, searchContext: bool, depth: nat)
      requires Valid() && depth <= MAX_DEPTH
      modifies this
      ensures Valid() && View() == AbsorbAll(env, old(View()), EmitItems(env, items, searchContext, depth))
      decreases Fuel(depth), 0, 1
    {
      ghost var start := View();
      for i := 0 to |items|
        invariant Valid() && View() == AbsorbAll(env, start, EmitItems(env, items[..i], searchContext, depth))
      {
        AbsorbNextItem(env, start, items, i, searchContext, depth);
        WalkItem(items[i], i + 1, searchContext, depth);
      }
      assert items[..|items|] == items;
    }

    method WalkItem(item: Json, rank: nat, searchContext: bool, depth: nat)
      requires Valid() && depth <= MAX_DEPTH
      modifies this
      ensures Valid() && View() == AbsorbAll(env, old(View()), EmitItem(env, item, rank, searchContext, depth))
      decreases Fuel(depth), 0, 0
    {
      AbsorbItem(env, View(), item, rank, searchContext, depth);
      AddRanked(item, rank, searchContext);
      Walk(item, searchContext, depth + 1);
    }

    method AddRanked(item: Json, rank: nat, searchContext: bool)
      requires Valid()
      modifies this
      ensures Valid() && View() == AbsorbAll(env, old(View()), RankedSource(env, item, rank, searchContext))
    {
      if searchContext {
        AddSource(SourceFromObject(env, item, Some(rank)));
      }
    }

    method WalkFields(fields: seq<Field>, searchContext: bool, depth: nat)
      requires Valid() && depth <= MAX_DEPTH
      modifies this
      ensures Valid() && View() == AbsorbAll(env, old(View()), EmitFields(env, fields, searchContext, depth))
      decreases Fuel(depth), 0, 1
    {
      ghost var start := View();
      for i := 0 to |fields|
        invariant Valid() && View() == AbsorbAll(env, start, EmitFields(env, fields[..i], searchContext, depth))
      {
        AbsorbNextField(env, start, fields, i, searchContext, depth);
        WalkField(fields[i], searchContext, depth);
      }
      assert fields[..|fields|] == fields;
    }

    method WalkField(field: Field, searchContext: bool, depth: nat)
      requires Valid() && depth <= MAX_DEPTH
      modifies this
      ensures Valid() && View() == AbsorbAll(env, old(View()), EmitField(env, field, searchContext, depth))
      decreases Fuel(depth), 0, 0
    {
      var childContext := searchContext || NamesResults(field.name);
      Walk(field.value, childContext, depth + 1);
    }

    method OwnEvidence(fields: seq<Field>, searchContext: bool)
      requires Valid()
      modifies this
      ensures Valid() && View() == AbsorbAll(env, old(View()), Own(env, fields, searchContext))
    {
      AbsorbOwn(env, View(), fields, searchContext);
      var blockHere := LooksLikeSearchBlock(env, fields);
      CountBlock(blockHere);
      ContextEvidence(fields, searchContext || blockHere);
    }

    method CountBlock(blockHere: bool)
      requires Valid()
      modifies this
      ensures Valid() && View() == Counted(old(View()), blockHere)
    {
      if blockHere {
        matchedBlockCount := matchedBlockCount + 1;
      }
    }

    method ContextEvidence(fields: seq<Field>, inside: bool)
      requires Valid()
      modifies this
      ensures Valid() && View() == AbsorbInside(env, old(View()), fields, inside)
    {
      if inside {
        AbsorbOwnInContext(env, View(), fields);
        ListedEvidence(fields);
        SingleEvidence(fields);
        AddSource(SourceFromObject(env, Obj(fields), None));
      }
    }

    method SingleEvidence(fields: seq<Field>)
      requires Valid()
      modifies this
      ensures Valid() && View() == AbsorbAll(env, old(View()), SingleQuery(env, fields))
    {
      var query := Get(fields, "query");
      if query.Str? {
        AddQuery(query);
      }
    }

    method ListedEvidence(fields: seq<Field>)
      requires Valid()
      modifies this
      ensures Valid() && View() == AbsorbAll(env, old(View()), ListedQueries(env, fields, QUERY_LIST_KEYS))
    {
      ghost var start := View();
      for k := 0 to |QUERY_LIST_KEYS|
        invariant Valid() && View() == AbsorbAll(env, start, ListedQueries(env, fields, QUERY_LIST_KEYS[..k]))
      {
        assert QUERY_LIST_KEYS[..k + 1][..k] == QUERY_LIST_KEYS[..k];
        var name := QUERY_LIST_KEYS[k];
        AbsorbConcat(env, start, ListedQueries(env, fields, QUERY_LIST_KEYS[..k]),
                     if HasField(fields, name) then AsQueries(StringArray(env, Get(fields, name))) else []);
        if HasField(fields, name) {
          AddQuery(Get(fields, name));
        }
      }
      assert QUERY_LIST_KEYS[..|QUERY_LIST_KEYS|] == QUERY_LIST_KEYS;
    }
  }

  /** A missing position becomes the rank in the result. */
  function Shown(m: SourceMap): seq<Source> {
    seq(|m|, i requires 0 <= i < |m| => m[i].value.(position := OrElse(m[i].value.position, Some(i + 1))))
  }

  method ExtractSearchEvidence(env: Env, text: string)
    returns (queries: seq<string>, retrievedSources: seq<Source>, matchedBlockCount: nat)
    ensures Keyed(env.lower, queries) == Extracted(env, text).queries
    ensures retrievedSources == Shown(Extracted(env, text).sources)
    ensures matchedBlockCount == Extracted(env, text).blocks
  {
    var accumulator := new Accumulator(env);
    var candidates := ResponseCandidates(text);
    accumulator.WalkCandidates(candidates);
    queries := accumulator.queries;
    retrievedSources := Shown(accumulator.sourceMap);
    matchedBlockCount := accumulator.matchedBlockCount;
  }
}
