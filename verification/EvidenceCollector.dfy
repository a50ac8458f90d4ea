/** Collecting the evidence of many responses: a merge of merges, compared with one flat extraction. */
module EvidenceCollector {
  import opened Wrappers
  import opened Sequences
  import opened InsertionMap
  import opened Text
  import opened UrlIdentity
  import opened EvidenceMerge
  import opened EvidenceExtraction
  import opened PlausibleQuery
  import Walk = EvidenceWalk

  /** `rejected` and `unscoped` count diagnostics: implausible queries, and texts that came before the turn. */
  datatype Collected = Collected(queries: QueryMap, sources: SourceMap, rejected: nat, unscoped: nat)

  const PLAUSIBLE: string -> bool := IsPlausibleQuery

  const EMPTY := Collected([], [], 0, 0)

  /** The elements that satisfy `p`, in order. */
  function Kept(p: string -> bool, qs: seq<string>): (kept: seq<string>)
    ensures |kept| <= |qs|
  {
    if qs == [] then []
    else
      var front, last := Kept(p, qs[..|qs| - 1]), qs[|qs| - 1];
      if p(last) then front + [last] else front
  }

  predicate HasSearchSignal(text: string) {
    var lower := LowerAscii(text);
    || Contains(lower, "10025") || Contains(lower, "search_query_result")
    || Contains(lower, "search_result_block") || Contains(lower, "search_queries")
  }

  /** What absorbing one text makes of the collected evidence; `scoped` says whether the turn is known. */
  function AfterText(env: Walk.Env, c: Collected, text: string, scoped: bool): Collected {
    if text == "" || !HasSearchSignal(text) then c
    else if !scoped then c.(unscoped := c.unscoped + 1)
    else
      var evidence := Extracted(env, text);
      var queries := Values(evidence.queries);
      Collected(AddQueries(env.lower, c.queries, Kept(PLAUSIBLE, queries)),
        AddSources(c.sources, Shown(evidence.sources)),
                c.rejected + |queries| - |Kept(PLAUSIBLE, queries)|, c.unscoped)
  }

  lemma {:induction false} KeptFacts(p: string -> bool, qs: seq<string>)
    ensures forall q :: q in Kept(p, qs) <==> q in qs && p(q)
  {
    if qs != [] {
      KeptFacts(p, qs[..|qs| - 1]);
      assert qs == qs[..|qs| - 1] + [qs[|qs| - 1]];
    }
  }

  // ------------------------------------------------------------------------ sources

  function Flat<T>(docs: seq<seq<T>>): seq<T> {
    if docs == [] then [] else Flat(docs[..|docs| - 1]) + docs[|docs| - 1]
  }

  /** One response's sources, merged and ranked. */
  function Response(doc: seq<Source>): seq<Source> {
    Shown(AddSources([], doc))
  }

  function CollectSources(docs: seq<seq<Source>>): SourceMap {
    if docs == [] then [] else AddSources(CollectSources(docs[..|docs| - 1]), Response(docs[|docs| - 1]))
  }

  lemma ResponseUrls(doc: seq<Source>)
    ensures UrlsOf(Response(doc)) == FirstSeen(UrlsOf(doc)) && Distinct(UrlsOf(Response(doc)))
  {
    AddSourcesFacts([], doc);
    var m := AddSources([], doc);
    assert Keys<Url, Source>([]) + UrlsOf(doc) == UrlsOf(doc);
    FirstSeenMember(UrlsOf(doc));
    forall i | 0 <= i < |m| ensures UrlsOf(Shown(m))[i] == Keys(m)[i] {
      assert m[i] in m;
    }
    assert UrlsOf(Shown(m)) == Keys(m);
  }

  lemma UrlsConcat(a: seq<Source>, b: seq<Source>)
    ensures UrlsOf(a + b) == UrlsOf(a) + UrlsOf(b)
  {
  }

  /** The collector sees the same URLs in the same order as one flat extraction over all responses. */
  lemma {:induction false} SameUrls(docs: seq<seq<Source>>)
    ensures KeyedByUrl(CollectSources(docs))
    ensures Keys(CollectSources(docs)) == FirstSeen(UrlsOf(Flat(docs))) == Keys(AddSources([], Flat(docs)))
  {
    AddSourcesFacts([], Flat(docs));
    assert Keys<Url, Source>([]) + UrlsOf(Flat(docs)) == UrlsOf(Flat(docs));
    if docs != [] {
      var front, last := docs[..|docs| - 1], docs[|docs| - 1];
      SameUrls(front);
      AddSourcesFacts(CollectSources(front), Response(last));
      ResponseUrls(last);
      FirstSeenLeft(UrlsOf(Flat(front)), FirstSeen(UrlsOf(last)));
      FirstSeenRight(UrlsOf(Flat(front)), UrlsOf(last));
      UrlsConcat(Flat(front), last);
    }
  }

  /** The field does not depend on the rank given to sources that state none. */
  ghost predicate IgnoresRank<T(!new)>(field: Source -> Option<T>) {
    forall s: Source, p: Option<nat> :: field(s.(position := p)) == field(s)
  }

  lemma NotInResponse(doc: seq<Source>, u: Url)
    requires !Has(AddSources([], doc), u)
    ensures forall j :: 0 <= j < |Response(doc)| ==> Response(doc)[j].canonicalUrl != u
  {
    var m := AddSources([], doc);
    AddSourcesFacts([], doc);
    HasIffKey(m, u);
    forall j | 0 <= j < |m| ensures Response(doc)[j].canonicalUrl != u {
      assert m[j] in m && Keys(m)[j] == m[j].key;
    }
  }

  /** The source a response shows for a URL. */
  lemma ShownFor<T(!new)>(field: Source -> Option<T>, doc: seq<Source>, u: Url)
    requires Has(AddSources([], doc), u)
    ensures var m := AddSources([], doc);
      var i := Find(m, u);
      && FirstKnown(field, Response(doc), u) == field(Response(doc)[i])
      && Response(doc)[i] == m[i].value.(position := OrElse(m[i].value.position, Some(i + 1)))
  {
    var m := AddSources([], doc);
    AddSourcesFacts([], doc);
    LookupKeyed(m, u);
    ResponseUrls(doc);
    FirstKnownDistinct(field, Response(doc), Find(m, u));
  }

  /** Ranking one response's sources loses no field but the position. */
  lemma ResponseKeepsField<T(!new)>(field: Source -> Option<T>, doc: seq<Source>, u: Url)
    requires FirstWins(field) && IgnoresRank(field)
    ensures FirstKnown(field, Response(doc), u) == FirstKnown(field, doc, u)
  {
    var m := AddSources([], doc);
    StoredIsFirstKnown(field, [], doc, u);
    if Has(m, u) {
      ShownFor(field, doc, u);
    } else {
      NotInResponse(doc, u);
      FirstKnownAbsent(field, Response(doc), u);
    }
  }

  /** For every field but the position the collector stores what one flat extraction would. */
  lemma {:induction false} SameField<T(!new)>(field: Source -> Option<T>, docs: seq<seq<Source>>, u: Url)
    requires FirstWins(field) && IgnoresRank(field)
    ensures Stored(field, CollectSources(docs), u) == FirstKnown(field, Flat(docs), u)
      == Stored(field, AddSources([], Flat(docs)), u)
  {
    StoredIsFirstKnown(field, [], Flat(docs), u);
    if docs != [] {
      var front, last := docs[..|docs| - 1], docs[|docs| - 1];
      SameField(field, front, u);
      SameUrls(front);
      StoredIsFirstKnown(field, CollectSources(front), Response(last), u);
      ResponseKeepsField(field, last, u);
      FirstKnownConcat(field, Flat(front), last, u);
    }
  }

  function Unranked(m: SourceMap): SourceMap {
    seq(|m|, i requires 0 <= i < |m| => Entry(m[i].key, m[i].value.(position := None)))
  }

  /**
   * Merging response by response gives the flat extraction over all responses, apart from positions: same URLs, same
   * order, same title, source name, summary, raw URL and domain.
   */
  lemma CollectorIsFlat(docs: seq<seq<Source>>)
    ensures Unranked(CollectSources(docs)) == Unranked(AddSources([], Flat(docs)))
  {
    var merged, flat := CollectSources(docs), AddSources([], Flat(docs));
    SameUrls(docs);
    AddSourcesFacts([], Flat(docs));
    assert |merged| == |Keys(merged)| == |Keys(flat)| == |flat|;
    forall i | 0 <= i < |merged| ensures Unranked(merged)[i] == Unranked(flat)[i] {
      var u := merged[i].key;
      assert Keys(merged)[i] == u && Keys(flat)[i] == u;
      SameStored(docs, u);
      LookupAt(merged, i);
      LookupAt(flat, i);
    }
  }

  lemma SameStored(docs: seq<seq<Source>>, u: Url)
    requires Has(CollectSources(docs), u) && Has(AddSources([], Flat(docs)), u)
    ensures Lookup(CollectSources(docs), u).value.(position := None)
      == Lookup(AddSources([], Flat(docs)), u).value.(position := None)
  {
    var merged, flat := CollectSources(docs), AddSources([], Flat(docs));
    SameUrls(docs);
    AddSourcesFacts([], Flat(docs));
    StoredFields(merged, u);
    StoredFields(flat, u);
    FieldsFirstWin();
    SameField(TITLE, docs, u);
    SameField(SOURCE_NAME, docs, u);
    SameField(SUMMARY, docs, u);
    SameField(ORIGIN, docs, u);
  }

  /** The first position a response states for a URL, else the rank of the URL among the response's URLs. */
  function PositionIn(doc: seq<Source>, u: Url): Option<nat> {
    OrElse(FirstKnown(POSITION, doc, u), Some(RankIn(doc, u)))
  }

  function RankIn(doc: seq<Source>, u: Url): nat {
    1 + Find(AddSources([], doc), u)
  }

  /**
   * The position a URL is given: the one the first response with the URL states for it, else its rank there. Later
   * responses never change it.
   */
  lemma {:induction false} CollectedPosition(docs: seq<seq<Source>>, j: nat, u: Url)
    requires j < |docs| && u in UrlsOf(docs[j]) && forall k :: 0 <= k < j ==> u !in UrlsOf(docs[k])
    ensures Stored(POSITION, CollectSources(docs), u)
            == PositionIn(docs[j], u)
  {
    var front, last := docs[..|docs| - 1], docs[|docs| - 1];
    CollectedStep(front, last, u);
    if j < |front| {
      CollectedPosition(front, j, u);
    } else {
      FirstAppearance(front, last, u);
    }
  }

  lemma FirstAppearance(front: seq<seq<Source>>, last: seq<Source>, u: Url)
    requires u in UrlsOf(last) && forall k :: 0 <= k < |front| ==> u !in UrlsOf(front[k])
    ensures Stored(POSITION, AddSources(CollectSources(front), Response(last)), u) == PositionIn(last, u)
  {
    CollectedStep(front, last, u);
    NotInFlat(front, u);
    RankedPosition(last, u);
  }

  lemma CollectedStep(front: seq<seq<Source>>, last: seq<Source>, u: Url)
    ensures Stored(POSITION, AddSources(CollectSources(front), Response(last)), u)
            == OrElse(Stored(POSITION, CollectSources(front), u), FirstKnown(POSITION, Response(last), u))
    ensures u !in UrlsOf(Flat(front)) ==> Stored(POSITION, CollectSources(front), u) == None
  {
    FieldsFirstWin();
    SameUrls(front);
    StoredIsFirstKnown(POSITION, CollectSources(front), Response(last), u);
    FirstSeenMember(UrlsOf(Flat(front)));
    HasIffKey(CollectSources(front), u);
  }

  lemma {:induction false} NotInFlat(docs: seq<seq<Source>>, u: Url)
    requires forall k :: 0 <= k < |docs| ==> u !in UrlsOf(docs[k])
    ensures u !in UrlsOf(Flat(docs))
  {
    if docs != [] {
      NotInFlat(docs[..|docs| - 1], u);
      UrlsConcat(Flat(docs[..|docs| - 1]), docs[|docs| - 1]);
    }
  }

  lemma RankedPosition(doc: seq<Source>, u: Url)
    requires u in UrlsOf(doc)
    ensures FirstKnown(POSITION, Response(doc), u) == PositionIn(doc, u)
  {
    AccumulatorIsFirstKnown(doc, u);
    ShownFor(POSITION, doc, u);
  }

  lemma {:induction false} FlatSplit<T>(docs: seq<seq<T>>, j: nat)
    requires j < |docs|
    ensures Flat(docs) == Flat(docs[..j]) + docs[j] + Flat(docs[j + 1..])
  {
    var n := |docs| - 1;
    if j < n {
      FlatSplit(docs[..n], j);
      assert docs[..n][..j] == docs[..j] && docs[..n][j + 1..] == docs[j + 1..][..n - j - 1];
      assert docs[j + 1..][n - j - 1] == docs[n];
    } else {
      assert docs[..n] == docs[..j] && Flat(docs[j + 1..]) == [];
    }
  }

  /**
   * What one flat extraction knows of a position: what the first response with the URL states, else what later ones do.
   */
  lemma FlatPosition(docs: seq<seq<Source>>, j: nat, u: Url)
    requires j < |docs| && forall k :: 0 <= k < j ==> u !in UrlsOf(docs[k])
    ensures FirstKnown(POSITION, Flat(docs), u)
            == OrElse(FirstKnown(POSITION, docs[j], u), FirstKnown(POSITION, Flat(docs[j + 1..]), u))
  {
    FlatSplit(docs, j);
    var before, later := Flat(docs[..j]), Flat(docs[j + 1..]);
    FirstKnownConcat(POSITION, before + docs[j], later, u);
    FirstKnownConcat(POSITION, before, docs[j], u);
    NotInFlat(docs[..j], u);
    forall i | 0 <= i < |before| ensures before[i].canonicalUrl != u {
      assert UrlsOf(before)[i] == before[i].canonicalUrl;
    }
    FirstKnownAbsent(POSITION, before, u);
  }

  /**
   * When the collector shows the position that one flat extraction would: the first response with the URL states it,
   * or what the flat extraction falls back on, the first position stated later or else the rank among all URLs,
   * happens to be the rank of the URL in that response.
   */
  lemma PositionsAgreeIff(docs: seq<seq<Source>>, j: nat, u: Url)
    requires j < |docs| && u in UrlsOf(docs[j]) && forall k :: 0 <= k < j ==> u !in UrlsOf(docs[k])
    ensures
      Stored(POSITION, CollectSources(docs), u) == PositionIn(Flat(docs), u) <==>
        || FirstKnown(POSITION, docs[j], u).Some?
        || OrElse(FirstKnown(POSITION, Flat(docs[j + 1..]), u), Some(RankIn(Flat(docs), u))) == Some(RankIn(docs[j], u))
  {
    CollectedPosition(docs, j, u);
    FlatPosition(docs, j, u);
    FallbacksAgree(
      FirstKnown(POSITION, docs[j], u), FirstKnown(POSITION, Flat(docs[j + 1..]), u),
      RankIn(docs[j], u), RankIn(Flat(docs), u));
  }

  lemma FallbacksAgree(stated: Option<nat>, later: Option<nat>, rank: nat, flatRank: nat)
    ensures OrElse(stated, Some(rank)) == OrElse(OrElse(stated, later), Some(flatRank)) <==>
            stated.Some? || OrElse(later, Some(flatRank)) == Some(rank)
  {
  }

  /** The two do differ: the flat extraction waits for the position stated later, the collector settles for a rank. */
  lemma PositionsDiffer(s: Source, p: nat)
    requires s.position == None && p != 1
    ensures var docs := [[s], [s.(position := Some(p))]];
      && Stored(POSITION, CollectSources(docs), s.canonicalUrl) == Some(1)
      && Stored(POSITION, AddSources([], Flat(docs)), s.canonicalUrl) == Some(p)
  {
    var t := s.(position := Some(p));
    var first, second := [s], [t];
    var docs := [first, second];
    assert UrlsOf(docs[0])[0] == s.canonicalUrl;
    CollectedPosition(docs, 0, s.canonicalUrl);
    AddedAlone(s);
    FlatPair(first, second);
    FirstKnownConcat(POSITION, first, second, s.canonicalUrl);
    AddedAlone(t);
    FieldsFirstWin();
    StoredIsFirstKnown(POSITION, [], first + second, s.canonicalUrl);
  }

  lemma AddedAlone(s: Source)
    ensures AddSources([], [s]) == [Entry(s.canonicalUrl, s)]
    ensures FirstKnown(POSITION, [s], s.canonicalUrl) == s.position
  {
    var one := [s];
    assert one[..0] == [];
    assert AddSources([], one) == AddSource(AddSources([], one[..0]), s);
    assert FirstKnown(POSITION, one, s.canonicalUrl)
      == OrElse(FirstKnown(POSITION, one[..0], s.canonicalUrl), s.position);
  }

  lemma FlatPair<T>(first: seq<T>, second: seq<T>)
    ensures Flat([first, second]) == first + second
  {
    var docs := [first, second];
    assert docs[..1] == [first] && docs[..1][..0] == [];
    assert Flat(docs[..1]) == [] + first;
  }

  // ------------------------------------------------------------------------ queries

  // Stated for any test `p` of a query; the collector's is `PLAUSIBLE`.

  /** The queries of a response that pass, repeats dropped first. */
  function KeptOnce(p: string -> bool, lower: string -> string, doc: seq<string>): seq<string> {
    Kept(p, Values(AddQueries(lower, [], doc)))
  }

  function CollectQueries(p: string -> bool, lower: string -> string, docs: seq<seq<string>>): QueryMap {
    if docs == [] then []
    else AddQueries(lower, CollectQueries(p, lower, docs[..|docs| - 1]), KeptOnce(p, lower, docs[|docs| - 1]))
  }

  /** Queries with one key are alike: all pass or none does. */
  ghost predicate ByKey(p: string -> bool, lower: string -> string) {
    forall a: string, b: string :: lower(a) == lower(b) ==> p(a) == p(b)
  }

  lemma KeptLast(p: string -> bool, qs: seq<string>, q: string)
    ensures Kept(p, qs + [q]) == if p(q) then Kept(p, qs) + [q] else Kept(p, qs)
  {
    assert (qs + [q])[..|qs|] == qs;
  }

  lemma {:induction false} KeptConcat(p: string -> bool, a: seq<string>, b: seq<string>)
    ensures Kept(p, a + b) == Kept(p, a) + Kept(p, b)
  {
    if b == [] {
      assert a + b == a;
    } else {
      var front, last := b[..|b| - 1], b[|b| - 1];
      KeptConcat(p, a, front);
      KeptNext(p, a, front, last);
      assert b == front + [last];
    }
  }

  lemma KeptNext(p: string -> bool, a: seq<string>, b: seq<string>, q: string)
    requires Kept(p, a + b) == Kept(p, a) + Kept(p, b)
    ensures Kept(p, a + (b + [q])) == Kept(p, a) + Kept(p, b + [q])
  {
    KeptLast(p, a + b, q);
    KeptLast(p, b, q);
    assert a + (b + [q]) == (a + b) + [q];
  }

  lemma AddedValues(lower: string -> string, m: QueryMap, q: string)
    ensures Values(AddQuery(lower, m, q)) == if Has(m, lower(q)) then Values(m) else Values(m) + [q]
  {
  }

  /** Dropping repeats inside a response first makes no difference. */
  lemma {:induction false} RepeatsFirst(lower: string -> string, m: QueryMap, qs: seq<string>)
    requires KeyedByLower(lower, m)
    ensures AddQueries(lower, m, Values(AddQueries(lower, [], qs))) == AddQueries(lower, m, qs)
  {
    if qs != [] {
      var front, q := qs[..|qs| - 1], qs[|qs| - 1];
      RepeatsFirst(lower, m, front);
      var once := AddQueries(lower, [], front);
      AddedValues(lower, once, q);
      if Has(once, lower(q)) {
        var all := AddQueries(lower, m, front);
        AddQueriesFacts(lower, [], front);
        AddQueriesFacts(lower, m, front);
        HasByLookup(once, lower(q));
        HasByLookup(all, lower(q));
      } else {
        var v := Values(once) + [q];
        assert v[..|v| - 1] == Values(once);
      }
    }
  }

  lemma HasByLookup<K, V>(m: Entries<K, V>, k: K)
    ensures Has(m, k) <==> Lookup(m, k).Some?
  {
  }

  lemma FilterStep(p: string -> bool, lower: string -> string, once: QueryMap, kept: QueryMap, q: string)
    requires Values(kept) == Kept(p, Values(once))
    requires p(q) ==> (Has(once, lower(q)) <==> Has(kept, lower(q)))
    ensures Values(if p(q) then AddQuery(lower, kept, q) else kept) == Kept(p, Values(AddQuery(lower, once, q)))
  {
    AddedValues(lower, once, q);
    AddedValues(lower, kept, q);
    KeptConcat(p, Values(once), [q]);
    SingletonQueries(p, lower, q);
  }

  lemma KeyByValue(lower: string -> string, m: QueryMap, q: string)
    requires KeyedByLower(lower, m)
    ensures Has(m, lower(q)) <==> exists v :: v in Values(m) && lower(v) == lower(q)
  {
    HasIffKey(m, lower(q));
    if Has(m, lower(q)) {
      var i := Find(m, lower(q));
      assert m[i] in m && Values(m)[i] == m[i].value;
    }
    if v :| v in Values(m) && lower(v) == lower(q) {
      var i :| 0 <= i < |m| && Values(m)[i] == v;
      assert m[i] in m;
    }
  }

  /** Adding distinct queries and dropping failing ones commute, if the map and its passing part hold the same keys. */
  lemma {:induction false} FilterAll(
    p: string -> bool, lower: string -> string, once: QueryMap, kept: QueryMap, qs: seq<string>)
    requires KeyedByLower(lower, once) && KeyedByLower(lower, kept)
    requires Values(kept) == Kept(p, Values(once)) && Distinct(LowerAll(lower, qs))
    requires forall q :: q in qs && p(q) ==> (Has(once, lower(q)) <==> Has(kept, lower(q)))
    ensures Values(AddQueries(lower, kept, Kept(p, qs))) == Kept(p, Values(AddQueries(lower, once, qs)))
  {
    if qs != [] {
      var front, q := qs[..|qs| - 1], qs[|qs| - 1];
      assert LowerAll(lower, front) == LowerAll(lower, qs)[..|qs| - 1];
      FilterAll(p, lower, once, kept, front);
      NewKey(lower, once, qs);
      KeptFacts(p, front);
      NewKeyAmongKept(p, lower, kept, qs);
      FilterStep(p, lower, AddQueries(lower, once, front), AddQueries(lower, kept, Kept(p, front)), q);
      if p(q) {
        AddQueriesNext(lower, kept, Kept(p, front), q);
      }
    }
  }

  lemma {:induction false} FirstWithKey(lower: string -> string, qs: seq<string>, k: string)
    ensures FirstWith(lower, qs, k).Some? ==>
      FirstWith(lower, qs, k).value in qs && lower(FirstWith(lower, qs, k).value) == k
    ensures FirstWith(lower, qs, k).None? <==> forall q :: q in qs ==> lower(q) != k
  {
    if qs != [] {
      FirstWithKey(lower, qs[..|qs| - 1], k);
      assert qs == qs[..|qs| - 1] + [qs[|qs| - 1]];
    }
  }

  /** Among queries with distinct keys the last one's key is not brought in by the others. */
  lemma NewKey(lower: string -> string, m: QueryMap, qs: seq<string>)
    requires KeyedByLower(lower, m) && qs != [] && Distinct(LowerAll(lower, qs))
    ensures Has(AddQueries(lower, m, qs[..|qs| - 1]), lower(qs[|qs| - 1])) <==> Has(m, lower(qs[|qs| - 1]))
  {
    var front, k := qs[..|qs| - 1], lower(qs[|qs| - 1]);
    forall q | q in front ensures lower(q) != k {
      var i :| 0 <= i < |front| && front[i] == q;
      assert LowerAll(lower, qs)[i] != LowerAll(lower, qs)[|qs| - 1];
    }
    HasAfter(lower, m, front, k);
  }

  lemma NewKeyAmongKept(p: string -> bool, lower: string -> string, m: QueryMap, qs: seq<string>)
    requires KeyedByLower(lower, m) && qs != [] && Distinct(LowerAll(lower, qs))
    ensures Has(AddQueries(lower, m, Kept(p, qs[..|qs| - 1])), lower(qs[|qs| - 1])) <==> Has(m, lower(qs[|qs| - 1]))
  {
    var front, k := qs[..|qs| - 1], lower(qs[|qs| - 1]);
    KeptFacts(p, front);
    forall q | q in Kept(p, front) ensures lower(q) != k {
      var i :| 0 <= i < |front| && front[i] == q;
      assert LowerAll(lower, qs)[i] != LowerAll(lower, qs)[|qs| - 1];
    }
    HasAfter(lower, m, Kept(p, front), k);
  }

  lemma HasAfter(lower: string -> string, m: QueryMap, qs: seq<string>, k: string)
    requires KeyedByLower(lower, m)
    ensures Has(AddQueries(lower, m, qs), k) <==> Has(m, k) || exists q :: q in qs && lower(q) == k
  {
    AddQueriesFacts(lower, m, qs);
    FirstWithKey(lower, qs, k);
    HasByLookup(m, k);
    HasByLookup(AddQueries(lower, m, qs), k);
  }

  lemma {:induction false} FirstWithConcat(lower: string -> string, a: seq<string>, b: seq<string>, k: string)
    ensures FirstWith(lower, a + b, k) == OrElse(FirstWith(lower, a, k), FirstWith(lower, b, k))
  {
    if b == [] {
      assert a + b == a;
    } else {
      FirstWithConcat(lower, a, b[..|b| - 1], k);
      assert (a + b)[..|a + b| - 1] == a + b[..|b| - 1];
    }
  }

  /** What is stored after adding to an empty map: the first query with each key, and no other. */
  lemma OnceFacts(lower: string -> string, doc: seq<string>)
    ensures var once := AddQueries(lower, [], doc);
      && KeyedByLower(lower, once) && LowerAll(lower, Values(once)) == Keys(once) && Distinct(Keys(once))
      && (forall q :: q in Values(once) <==> FirstWith(lower, doc, lower(q)) == Some(q))
  {
    var once := AddQueries(lower, [], doc);
    AddQueriesFacts(lower, [], doc);
    forall i | 0 <= i < |once| ensures LowerAll(lower, Values(once))[i] == Keys(once)[i] {
      assert once[i] in once;
    }
    forall q ensures q in Values(once) <==> FirstWith(lower, doc, lower(q)) == Some(q) {
      assert Lookup(once, lower(q)) == OrElse(None, FirstWith(lower, doc, lower(q)));
      if q in Values(once) {
        var i :| 0 <= i < |once| && Values(once)[i] == q;
        assert once[i] in once;
        LookupAt(once, i);
      }
      if Has(once, lower(q)) && Lookup(once, lower(q)) == Some(q) {
        assert Values(once)[Find(once, lower(q))] == q;
      }
    }
  }

  // ---------------------------------------------------- when collecting is flat

  /** The collected queries are those of a flat extraction that pass. */
  ghost predicate QueriesAreFlat(p: string -> bool, lower: string -> string, docs: seq<seq<string>>) {
    Values(CollectQueries(p, lower, docs)) == KeptOnce(p, lower, Flat(docs))
  }

  /** Some response shows first, of its queries with key `k`, one that passes. */
  ghost predicate PassesSomewhere(p: string -> bool, lower: string -> string, docs: seq<seq<string>>, k: string) {
    exists i :: 0 <= i < |docs| && PassesIn(p, lower, docs[i], k)
  }

  predicate PassesIn(p: string -> bool, lower: string -> string, doc: seq<string>, k: string) {
    FirstWith(lower, doc, k).Some? && p(FirstWith(lower, doc, k).value)
  }

  /** Where a key passes in some response, the first query with it in all responses passes too. */
  ghost predicate FirstsPass(p: string -> bool, lower: string -> string, docs: seq<seq<string>>) {
    forall k :: PassesSomewhere(p, lower, docs, k) ==> PassesIn(p, lower, Flat(docs), k)
  }

  lemma {:induction false} CollectedKeys(p: string -> bool, lower: string -> string, docs: seq<seq<string>>)
    ensures KeyedByLower(lower, CollectQueries(p, lower, docs))
    ensures forall k :: Has(CollectQueries(p, lower, docs), k) <==> PassesSomewhere(p, lower, docs, k)
  {
    if docs != [] {
      var front, last := docs[..|docs| - 1], docs[|docs| - 1];
      CollectedKeys(p, lower, front);
      AddQueriesFacts(lower, CollectQueries(p, lower, front), KeptOnce(p, lower, last));
      forall k ensures Has(CollectQueries(p, lower, docs), k) <==> PassesSomewhere(p, lower, docs, k) {
        HasAfter(lower, CollectQueries(p, lower, front), KeptOnce(p, lower, last), k);
        KeptOnceKeys(p, lower, last, k);
        PassesSplit(p, lower, front, last, k);
        assert docs == front + [last];
      }
    }
  }

  lemma KeptOnceKeys(p: string -> bool, lower: string -> string, doc: seq<string>, k: string)
    ensures (exists q :: q in KeptOnce(p, lower, doc) && lower(q) == k) <==> PassesIn(p, lower, doc, k)
  {
    OnceFacts(lower, doc);
    KeptFacts(p, Values(AddQueries(lower, [], doc)));
    FirstWithKey(lower, doc, k);
    if PassesIn(p, lower, doc, k) {
      var q := FirstWith(lower, doc, k).value;
      assert q in KeptOnce(p, lower, doc) && lower(q) == k;
    }
  }

  lemma PassesSplit(p: string -> bool, lower: string -> string, front: seq<seq<string>>, last: seq<string>, k: string)
    ensures PassesSomewhere(p, lower, front + [last], k) <==>
      PassesSomewhere(p, lower, front, k) || PassesIn(p, lower, last, k)
  {
    var docs := front + [last];
    assert docs[|front|] == last && forall i :: 0 <= i < |front| ==> docs[i] == front[i];
    if i :| 0 <= i < |front| && PassesIn(p, lower, front[i], k) {
      assert PassesIn(p, lower, docs[i], k);
    }
    if PassesIn(p, lower, last, k) {
      assert PassesIn(p, lower, docs[|front|], k);
    }
  }

  lemma {:induction false} InFlatQueries(p: string -> bool, lower: string -> string, docs: seq<seq<string>>, k: string)
    requires PassesSomewhere(p, lower, docs, k)
    ensures FirstWith(lower, Flat(docs), k).Some?
  {
    var front, last := docs[..|docs| - 1], docs[|docs| - 1];
    assert docs == front + [last];
    PassesSplit(p, lower, front, last, k);
    FirstWithConcat(lower, Flat(front), last, k);
    if PassesSomewhere(p, lower, front, k) {
      InFlatQueries(p, lower, front, k);
    }
  }

  lemma FirstsPassInFront(p: string -> bool, lower: string -> string, front: seq<seq<string>>, last: seq<string>)
    requires FirstsPass(p, lower, front + [last])
    ensures FirstsPass(p, lower, front)
  {
    assert (front + [last])[..|front|] == front;
    forall k | PassesSomewhere(p, lower, front, k) ensures PassesIn(p, lower, Flat(front), k) {
      PassesSplit(p, lower, front, last, k);
      InFlatQueries(p, lower, front, k);
      FirstWithConcat(lower, Flat(front), last, k);
      assert PassesSomewhere(p, lower, front + [last], k);
    }
  }

  lemma {:induction false} FirstsPassIsFlat(p: string -> bool, lower: string -> string, docs: seq<seq<string>>)
    requires FirstsPass(p, lower, docs)
    ensures QueriesAreFlat(p, lower, docs)
  {
    if docs != [] {
      var front, last := docs[..|docs| - 1], docs[|docs| - 1];
      assert docs == front + [last];
      FirstsPassInFront(p, lower, front, last);
      FirstsPassIsFlat(p, lower, front);
      var once, kept := AddQueries(lower, [], Flat(front)), CollectQueries(p, lower, front);
      OnceFacts(lower, Flat(front));
      OnceFacts(lower, last);
      CollectedKeys(p, lower, front);
      var qs := Values(AddQueries(lower, [], last));
      forall q | q in qs && p(q) ensures Has(once, lower(q)) <==> Has(kept, lower(q)) {
        SameKeys(p, lower, front, last, q);
      }
      FilterAll(p, lower, once, kept, qs);
      RepeatsFirst(lower, once, last);
      AddQueriesConcat(lower, [], Flat(front), last);
    }
  }

  lemma SameKeys(p: string -> bool, lower: string -> string, front: seq<seq<string>>, last: seq<string>, q: string)
    requires FirstsPass(p, lower, front + [last]) && QueriesAreFlat(p, lower, front)
    requires q in Values(AddQueries(lower, [], last)) && p(q)
    ensures Has(AddQueries(lower, [], Flat(front)), lower(q)) <==> Has(CollectQueries(p, lower, front), lower(q))
  {
    var k := lower(q);
    var once, kept := AddQueries(lower, [], Flat(front)), CollectQueries(p, lower, front);
    OnceFacts(lower, last);
    OnceFacts(lower, Flat(front));
    CollectedKeys(p, lower, front);
    KeyByValue(lower, once, q);
    KeyByValue(lower, kept, q);
    KeptFacts(p, Values(once));
    if Has(once, k) {
      PassesSplit(p, lower, front, last, k);
      assert PassesIn(p, lower, Flat(front + [last]), k);
      assert (front + [last])[..|front|] == front;
      FirstWithConcat(lower, Flat(front), last, k);
      FirstWithKey(lower, Flat(front), k);
      var v :| v in Values(once) && lower(v) == k;
      assert v in Values(kept);
    }
  }

  /**
   * When collecting queries response by response agrees with a flat extraction: exactly when every key that passes in
   * some response, judged by its first query there, also passes by its first query in all responses.
   */
  lemma QueriesAreFlatWhen(p: string -> bool, lower: string -> string, docs: seq<seq<string>>)
    ensures QueriesAreFlat(p, lower, docs) <==> FirstsPass(p, lower, docs)
  {
    if QueriesAreFlat(p, lower, docs) {
      forall k | PassesSomewhere(p, lower, docs, k) ensures PassesIn(p, lower, Flat(docs), k) {
        CollectedKeys(p, lower, docs);
        var c := CollectQueries(p, lower, docs);
        var v := c[Find(c, k)].value;
        assert c[Find(c, k)] in c && Values(c)[Find(c, k)] == v;
        assert v in KeptOnce(p, lower, Flat(docs)) && lower(v) == k;
        KeptOnceKeys(p, lower, Flat(docs), k);
      }
    }
    if FirstsPass(p, lower, docs) {
      FirstsPassIsFlat(p, lower, docs);
    }
  }

  /** Over all responses at once: the two always agree exactly when the test goes by the lower-cased text. */
  lemma QueriesAreFlatIff(p: string -> bool, lower: string -> string)
    ensures (forall docs :: QueriesAreFlat(p, lower, docs)) <==> ByKey(p, lower)
  {
    if ByKey(p, lower) {
      forall docs ensures QueriesAreFlat(p, lower, docs) {
        forall k | PassesSomewhere(p, lower, docs, k) ensures PassesIn(p, lower, Flat(docs), k) {
          InFlatQueries(p, lower, docs, k);
          FirstWithKey(lower, Flat(docs), k);
          var i :| 0 <= i < |docs| && PassesIn(p, lower, docs[i], k);
          FirstWithKey(lower, docs[i], k);
        }
        QueriesAreFlatWhen(p, lower, docs);
      }
    } else {
      var a, b :| lower(a) == lower(b) && p(a) != p(b);
      if p(b) {
        DroppedHidesKept(p, lower, a, b);
      } else {
        DroppedHidesKept(p, lower, b, a);
      }
    }
  }

  /** In one response a failing query hides a passing one with its key; in two responses it does not. */
  lemma DroppedHidesKept(p: string -> bool, lower: string -> string, a: string, b: string)
    requires lower(a) == lower(b) && !p(a) && p(b)
    ensures !QueriesAreFlat(p, lower, [[a], [b]])
  {
    var first, second := [a], [b];
    var docs := [first, second];
    FlatPair(first, second);
    var both := first + second;
    assert both[..1] == first && both[1] == b && docs[..1] == [first] && docs[..1][..0] == [];
    SingletonQueries(p, lower, a);
    SingletonQueries(p, lower, b);
    assert AddQueries(lower, [], both) == AddQuery(lower, AddQueries(lower, [], first), b) == [Entry(lower(a), a)];
    assert CollectQueries(p, lower, docs[..1])
           == AddQueries(lower, CollectQueries(p, lower, docs[..1][..0]), KeptOnce(p, lower, first)) == [];
    assert CollectQueries(p, lower, docs) == AddQueries(lower, [], second);
  }

  lemma SingletonQueries(p: string -> bool, lower: string -> string, q: string)
    ensures AddQueries(lower, [], [q]) == [Entry(lower(q), q)] && Values(AddQueries(lower, [], [q])) == [q]
    ensures Kept(p, [q]) == if p(q) then [q] else []
  {
    var one := [q];
    assert one[..0] == [];
    assert AddQueries(lower, [], one) == AddQuery(lower, AddQueries(lower, [], one[..0]), q);
    assert Kept(p, one) == if p(q) then Kept(p, one[..0]) + [q] else [];
  }

  /** With ASCII lower-casing the two agree; with a lower-casing that maps the Kelvin sign to `k` they do not. */
  lemma AgreementDependsOnLowering(lower: string -> string)
    ensures forall docs :: QueriesAreFlat(PLAUSIBLE, LowerAscii, docs)
    ensures lower(KELVIN) == lower(LATIN) ==> exists docs :: !QueriesAreFlat(PLAUSIBLE, lower, docs)
  {
    forall a, b | LowerAscii(a) == LowerAscii(b) ensures IsPlausibleQuery(a) == IsPlausibleQuery(b) {
      PlausibleIgnoresAsciiCase(a);
      PlausibleIgnoresAsciiCase(b);
    }
    QueriesAreFlatIff(PLAUSIBLE, LowerAscii);
    KelvinIsImplausible();
    QueriesAreFlatIff(PLAUSIBLE, lower);
  }
}
