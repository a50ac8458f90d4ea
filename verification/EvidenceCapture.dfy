/** The collector of a turn: which texts it absorbs, what a whole run of texts leaves in it. */
module EvidenceCapture {
  import opened Wrappers
  import opened Sequences
  import opened InsertionMap
  import opened Text
  import opened UrlIdentity
  import opened EvidenceMerge
  import opened EvidenceExtraction
  import opened EvidenceCollector
  import Walk = EvidenceWalk

  class Collector {
    const env: Walk.Env
    var queries: seq<string>
    var querySet: set<string>
    var sources: SourceMap
    var rejectedQueries: seq<string>
    var diagnostics: seq<string>

    ghost predicate Valid()
      reads this
    {
      querySet == KeySet(Keyed(env.lower, queries))
    }

    ghost function View(): Collected
      reads this
    {
      Collected(Keyed(env.lower, queries), sources, |rejectedQueries|, |diagnostics|)
    }

    constructor (env: Walk.Env)
      ensures this.env == env && Valid() && View() == EMPTY
    {
      this.env := env;
      queries, querySet, sources, rejectedQueries, diagnostics := [], {}, [], [], [];
    }

    /** Takes in one response text; the result says whether it held any evidence, new or repeated. */
    method Absorb(text: string, turnKnown: bool) returns (matched: bool)
      requires Valid()
      modifies this
      ensures Valid() && View() == AfterText(env, old(View()), text, turnKnown)
      ensures matched <==>
        Admitted(Observed(text, turnKnown))
        && (Extracted(env, text).queries != [] || Extracted(env, text).sources != [])
    {
      if text == "" || !HasSearchSignal(text) {
        return false;
      }
      if !turnKnown {
        diagnostics := diagnostics + ["evidence-before-turn-scope"];
        return false;
      }
      var found, retrieved, _ := ExtractSearchEvidence(env, text);
      assert found == Values(Extracted(env, text).queries);
      AbsorbQueries(found);
      MergeSources(retrieved);
      matched := found != [] || retrieved != [];
    }

    method AbsorbQueries(found: seq<string>)
      requires Valid()
      modifies this`queries, this`querySet, this`rejectedQueries
      ensures Valid()
      ensures View() == var before := old(View());
        before.(queries := AddQueries(env.lower, before.queries, Kept(PLAUSIBLE, found)),
                rejected := before.rejected + |found| - |Kept(PLAUSIBLE, found)|)
    {
      ghost var before, count := Keyed(env.lower, queries), |rejectedQueries|;
      for i := 0 to |found|
        invariant Valid()
        invariant Keyed(env.lower, queries) == AddQueries(env.lower, before, Kept(PLAUSIBLE, found[..i]))
        invariant |rejectedQueries| == count + i - |Kept(PLAUSIBLE, found[..i])|
      {
        KeptStep(PLAUSIBLE, env.lower, before, found, i);
        if !PLAUSIBLE(found[i]) {
          rejectedQueries := rejectedQueries + [found[i]];
        } else {
          AddIfNew(found[i]);
        }
      }
      assert found[..|found|] == found;
    }

    method AddIfNew(query: string)
      requires Valid()
      modifies this`queries, this`querySet
      ensures Valid() && Keyed(env.lower, queries) == AddQuery(env.lower, old(Keyed(env.lower, queries)), query)
    {
      ghost var before := Keyed(env.lower, queries);
      var key := env.lower(query);
      HasIffKey(before, key);
      if key !in querySet {
        querySet := querySet + {key};
        queries := queries + [query];
        assert Keyed(env.lower, queries) == before + [Entry(key, query)];
      }
    }

    method MergeSources(retrieved: seq<Source>)
      modifies this`sources
      ensures sources == AddSources(old(sources), retrieved)
    {
      for i := 0 to |retrieved|
        invariant sources == AddSources(old(sources), retrieved[..i])
      {
        assert retrieved[..i + 1][..i] == retrieved[..i];
        var source := retrieved[i];
        var previous := Lookup(sources, source.canonicalUrl);
        if previous.None? {
          sources := Put(sources, source.canonicalUrl, source);
        } else {
          sources := Put(sources, source.canonicalUrl, Merge(previous.value, source));
        }
      }
      assert retrieved[..|retrieved|] == retrieved;
    }
  }

  lemma KeptStep(p: string -> bool, lower: string -> string, m: QueryMap, qs: seq<string>, i: nat)
    requires i < |qs|
    ensures var kept, more := Kept(p, qs[..i]), Kept(p, qs[..i + 1]);
      if p(qs[i]) then
        && |more| == |kept| + 1
        && AddQueries(lower, m, more) == AddQuery(lower, AddQueries(lower, m, kept), qs[i])
      else more == kept
  {
    KeptLast(p, qs[..i], qs[i]);
    assert qs[..i] + [qs[i]] == qs[..i + 1];
    AddQueriesNext(lower, m, Kept(p, qs[..i]), qs[i]);
  }

  // -------------------------------------------------------------------- whole runs

  /** A response text and whether the turn was known when it came in. */
  datatype Observed = Observed(text: string, turnKnown: bool)

  predicate Admitted(o: Observed) {
    o.text != "" && HasSearchSignal(o.text) && o.turnKnown
  }

  function AbsorbRun(env: Walk.Env, run: seq<Observed>): Collected {
    if run == [] then EMPTY
    else var last := run[|run| - 1]; AfterText(env, AbsorbRun(env, run[..|run| - 1]), last.text, last.turnKnown)
  }

  function SourceDoc(env: Walk.Env, text: string): seq<Source> {
    SourcesOf(EmissionsOf(env, FirstSeen(RawCandidates(text))))
  }

  function QueryDoc(env: Walk.Env, text: string): seq<string> {
    QueriesOf(EmissionsOf(env, FirstSeen(RawCandidates(text))))
  }

  function AdmittedTexts(run: seq<Observed>): seq<string> {
    if run == [] then []
    else
      var front, last := AdmittedTexts(run[..|run| - 1]), run[|run| - 1];
      if Admitted(last) then front + [last.text] else front
  }

  function SourceDocs(env: Walk.Env, texts: seq<string>): seq<seq<Source>> {
    seq(|texts|, i requires 0 <= i < |texts| => SourceDoc(env, texts[i]))
  }

  function QueryDocs(env: Walk.Env, texts: seq<string>): seq<seq<string>> {
    seq(|texts|, i requires 0 <= i < |texts| => QueryDoc(env, texts[i]))
  }

  lemma ExtractedParts(env: Walk.Env, text: string)
    ensures Extracted(env, text).sources == AddSources([], SourceDoc(env, text))
    ensures Extracted(env, text).queries == AddQueries(env.lower, [], QueryDoc(env, text))
  {
    AbsorbSplits(env, NOTHING, EmissionsOf(env, FirstSeen(RawCandidates(text))));
  }

  /** What a run leaves is the response-by-response merge of the texts it admitted, in order. */
  lemma {:induction false} RunIsCollected(env: Walk.Env, run: seq<Observed>)
    ensures AbsorbRun(env, run).sources == CollectSources(SourceDocs(env, AdmittedTexts(run)))
    ensures AbsorbRun(env, run).queries == CollectQueries(PLAUSIBLE, env.lower, QueryDocs(env, AdmittedTexts(run)))
  {
    if run != [] {
      var front, last := run[..|run| - 1], run[|run| - 1];
      RunIsCollected(env, front);
      if Admitted(last) {
        AdmittedStep(env, AbsorbRun(env, front), AdmittedTexts(front), last);
      }
    }
  }

  lemma AdmittedStep(env: Walk.Env, c: Collected, texts: seq<string>, o: Observed)
    requires Admitted(o)
    requires c.sources == CollectSources(SourceDocs(env, texts))
      && c.queries == CollectQueries(PLAUSIBLE, env.lower, QueryDocs(env, texts))
    ensures AfterText(env, c, o.text, o.turnKnown).sources == CollectSources(SourceDocs(env, texts + [o.text]))
    ensures AfterText(env, c, o.text, o.turnKnown).queries
      == CollectQueries(PLAUSIBLE, env.lower, QueryDocs(env, texts + [o.text]))
  {
    AdmittedParts(env, c, o);
    DocsGrow(env, texts, o.text);
    CollectNext(SourceDocs(env, texts), SourceDoc(env, o.text));
    CollectNextQueries(env.lower, QueryDocs(env, texts), QueryDoc(env, o.text));
  }

  lemma AdmittedParts(env: Walk.Env, c: Collected, o: Observed)
    requires Admitted(o)
    ensures AfterText(env, c, o.text, o.turnKnown).sources == AddSources(c.sources, Response(SourceDoc(env, o.text)))
    ensures AfterText(env, c, o.text, o.turnKnown).queries
            == AddQueries(env.lower, c.queries, KeptOnce(PLAUSIBLE, env.lower, QueryDoc(env, o.text)))
  {
    ExtractedParts(env, o.text);
  }

  lemma DocsGrow(env: Walk.Env, texts: seq<string>, text: string)
    ensures SourceDocs(env, texts + [text]) == SourceDocs(env, texts) + [SourceDoc(env, text)]
    ensures QueryDocs(env, texts + [text]) == QueryDocs(env, texts) + [QueryDoc(env, text)]
  {
  }

  lemma CollectNext(docs: seq<seq<Source>>, doc: seq<Source>)
    ensures CollectSources(docs + [doc]) == AddSources(CollectSources(docs), Response(doc))
  {
    assert (docs + [doc])[..|docs|] == docs;
  }

  lemma CollectNextQueries(lower: string -> string, docs: seq<seq<string>>, doc: seq<string>)
    ensures CollectQueries(PLAUSIBLE, lower, docs + [doc])
            == AddQueries(lower, CollectQueries(PLAUSIBLE, lower, docs), KeptOnce(PLAUSIBLE, lower, doc))
  {
    assert (docs + [doc])[..|docs|] == docs;
  }

  lemma {:induction false} InFlat(docs: seq<seq<Source>>, s: Source)
    ensures s in Flat(docs) <==> exists i :: 0 <= i < |docs| && s in docs[i]
  {
    if docs != [] {
      var front, last := docs[..|docs| - 1], docs[|docs| - 1];
      InFlat(front, s);
      if i :| 0 <= i < |docs| && s in docs[i] {
        assert i < |front| ==> s in front[i];
      }
      if i :| 0 <= i < |front| && s in front[i] {
        assert s in docs[i];
      }
      assert docs[|docs| - 1] == last;
    }
  }

  lemma InDoc(env: Walk.Env, text: string, s: Source)
    ensures s in SourceDoc(env, text) <==> Reachable(env, text, Walk.Found(s))
  {
    EmissionKinds(EmissionsOf(env, FirstSeen(RawCandidates(text))));
    ReachableIsEmitted(env, text, Walk.Found(s));
  }

  /** Some admitted text holds a source with the URL on a path through search context. */
  ghost predicate ReachedBy(env: Walk.Env, texts: seq<string>, u: Url) {
    exists i, s: Source :: 0 <= i < |texts| && s.canonicalUrl == u && Reachable(env, texts[i], Walk.Found(s))
  }

  lemma DocsReach(env: Walk.Env, texts: seq<string>, u: Url)
    ensures u in UrlsOf(Flat(SourceDocs(env, texts))) <==> ReachedBy(env, texts, u)
  {
    UrlOfMember(Flat(SourceDocs(env, texts)), u);
    if s: Source :| s in Flat(SourceDocs(env, texts)) && s.canonicalUrl == u {
      DocSource(env, texts, s);
      var i :| 0 <= i < |texts| && Reachable(env, texts[i], Walk.Found(s));
    }
    if i, s: Source :| 0 <= i < |texts| && s.canonicalUrl == u && Reachable(env, texts[i], Walk.Found(s)) {
      DocSource(env, texts, s);
    }
  }

  lemma DocSource(env: Walk.Env, texts: seq<string>, s: Source)
    ensures s in Flat(SourceDocs(env, texts))
            <==> exists i :: 0 <= i < |texts| && Reachable(env, texts[i], Walk.Found(s))
  {
    var docs := SourceDocs(env, texts);
    InFlat(docs, s);
    forall i | 0 <= i < |texts| ensures s in docs[i] <==> Reachable(env, texts[i], Walk.Found(s)) {
      InDoc(env, texts[i], s);
    }
  }

  /**
   * Over every run of texts: the collected URLs are exactly those reachable in an admitted text, and apart from
   * positions the collected sources are those of one flat extraction over all admitted texts.
   */
  lemma RunExact(env: Walk.Env, run: seq<Observed>, u: Url)
    ensures Has(AbsorbRun(env, run).sources, u) <==> ReachedBy(env, AdmittedTexts(run), u)
    ensures Unranked(AbsorbRun(env, run).sources) == Unranked(AddSources([], Flat(SourceDocs(env, AdmittedTexts(run)))))
  {
    var texts := AdmittedTexts(run);
    var docs := SourceDocs(env, texts);
    RunIsCollected(env, run);
    CollectorIsFlat(docs);
    SameUrls(docs);
    FirstSeenMember(UrlsOf(Flat(docs)));
    HasIffKey(CollectSources(docs), u);
    DocsReach(env, texts, u);
  }

  // ------------------------------------------------------- absorbing a text again

  function Responses(docs: seq<seq<Source>>): seq<seq<Source>> {
    seq(|docs|, i requires 0 <= i < |docs| => Response(docs[i]))
  }

  function PlausibleDocs(lower: string -> string, docs: seq<seq<string>>): seq<seq<string>> {
    seq(|docs|, i requires 0 <= i < |docs| => KeptOnce(PLAUSIBLE, lower, docs[i]))
  }

  lemma {:induction false} CollectedAtOnce(docs: seq<seq<Source>>)
    ensures CollectSources(docs) == AddSources([], Flat(Responses(docs)))
  {
    if docs != [] {
      var front := docs[..|docs| - 1];
      CollectedAtOnce(front);
      assert Responses(docs)[..|docs| - 1] == Responses(front);
      AddSourcesConcat([], Flat(Responses(front)), Response(docs[|docs| - 1]));
    }
  }

  lemma {:induction false} QueriesAtOnce(lower: string -> string, docs: seq<seq<string>>)
    ensures CollectQueries(PLAUSIBLE, lower, docs) == AddQueries(lower, [], Flat(PlausibleDocs(lower, docs)))
  {
    if docs != [] {
      var front := docs[..|docs| - 1];
      QueriesAtOnce(lower, front);
      assert PlausibleDocs(lower, docs)[..|docs| - 1] == PlausibleDocs(lower, front);
      AddQueriesConcat(lower, [], Flat(PlausibleDocs(lower, front)), KeptOnce(PLAUSIBLE, lower, docs[|docs| - 1]));
    }
  }

  lemma {:induction false} DocInFlat<T>(docs: seq<seq<T>>, i: nat)
    requires i < |docs|
    ensures forall x :: x in docs[i] ==> x in Flat(docs)
  {
    if i < |docs| - 1 {
      DocInFlat(docs[..|docs| - 1], i);
    }
  }

  lemma {:induction false} WasAdmitted(run: seq<Observed>, o: Observed) returns (i: nat)
    requires o in run && Admitted(o)
    ensures i < |AdmittedTexts(run)| && AdmittedTexts(run)[i] == o.text
  {
    var front, last := run[..|run| - 1], run[|run| - 1];
    if o == last {
      i := |AdmittedTexts(front)|;
    } else {
      i := WasAdmitted(front, o);
    }
  }

  /**
   * A text absorbed at any point of a run changes no query and no source when it comes again. Only the count of
   * rejected queries grows: the implausible ones are counted once more.
   */
  lemma AbsorbingAgain(env: Walk.Env, run: seq<Observed>, o: Observed)
    requires o in run && Admitted(o)
    ensures var c := AbsorbRun(env, run);
      var queries := Values(Extracted(env, o.text).queries);
      AfterText(env, c, o.text, o.turnKnown) == c.(rejected := c.rejected + |queries| - |Kept(PLAUSIBLE, queries)|)
  {
    var texts := AdmittedTexts(run);
    var i := WasAdmitted(run, o);
    RunIsCollected(env, run);
    ExtractedParts(env, o.text);
    SourcesAgain(SourceDocs(env, texts), i);
    QueriesAgain(env.lower, QueryDocs(env, texts), i);
  }

  lemma SourcesAgain(docs: seq<seq<Source>>, i: nat)
    requires i < |docs|
    ensures AddSources(CollectSources(docs), Response(docs[i])) == CollectSources(docs)
  {
    CollectedAtOnce(docs);
    DocInFlat(Responses(docs), i);
    assert Responses(docs)[i] == Response(docs[i]);
    ReaddingSources([], Flat(Responses(docs)), Response(docs[i]));
  }

  lemma QueriesAgain(lower: string -> string, docs: seq<seq<string>>, i: nat)
    requires i < |docs|
    ensures AddQueries(lower, CollectQueries(PLAUSIBLE, lower, docs), KeptOnce(PLAUSIBLE, lower, docs[i]))
            == CollectQueries(PLAUSIBLE, lower, docs)
  {
    QueriesAtOnce(lower, docs);
    DocInFlat(PlausibleDocs(lower, docs), i);
    assert PlausibleDocs(lower, docs)[i] == KeptOnce(PLAUSIBLE, lower, docs[i]);
    ReaddingQueries(lower, [], Flat(PlausibleDocs(lower, docs)), KeptOnce(PLAUSIBLE, lower, docs[i]));
  }

  // ----------------------------------------------------------------- the signal gate

  function ItemFor(address: string): Walk.Json {
    Walk.Obj([Walk.Field("url", Walk.Str(address))])
  }

  function TreeFor(address: string): Walk.Json {
    Walk.Obj([Walk.Field("search_results", Walk.Arr([ItemFor(address)]))])
  }

  /** The text of that tree. */
  function SampleFor(address: string): string {
    "{\"search_" + "results\":" + "[{\"url\":\"" + address + "\"}]}"
  }

  /** Characters one of which occurs in every marker the gate looks for. */
  predicate LacksMarkers(text: string) {
    '1' !in text && 'q' !in text && 'Q' !in text && 'k' !in text && 'K' !in text
  }

  lemma {:induction false} ContainedCharacters(s: string, part: string)
    requires Contains(s, part)
    ensures forall c :: c in part ==> c in s
  {
    if StartsWith(s, part) {
      assert s == part + s[|part|..];
    } else {
      ContainedCharacters(s[1..], part);
    }
  }

  lemma LoweredMarkers(text: string)
    requires LacksMarkers(text)
    ensures LacksMarkers(LowerAscii(text))
  {
    var lower := LowerAscii(text);
    forall i | 0 <= i < |lower| ensures lower[i] !in {'1', 'q', 'Q', 'k', 'K'} {
      assert text[i] in text;
    }
  }

  lemma NotContained(text: string, part: string, c: char)
    requires c in part && c !in text
    ensures !Contains(text, part)
  {
    if Contains(text, part) {
      ContainedCharacters(text, part);
    }
  }

  lemma NoMarkersNoSignal(text: string)
    requires LacksMarkers(text)
    ensures !HasSearchSignal(text)
  {
    LoweredMarkers(text);
    var lower := LowerAscii(text);
    assert "10025"[0] == '1' && "search_query_result"[7] == 'q';
    assert "search_result_block"[18] == 'k' && "search_queries"[7] == 'q';
    NotContained(lower, "10025", '1');
    NotContained(lower, "search_query_result", 'q');
    NotContained(lower, "search_result_block", 'k');
    NotContained(lower, "search_queries", 'q');
  }

  lemma SampleLacksMarkers(address: string)
    requires LacksMarkers(address)
    ensures LacksMarkers(SampleFor(address))
  {
    assert LacksMarkers("{\"search_");
    assert LacksMarkers("results\":");
    assert LacksMarkers("[{\"url\":\"");
    assert LacksMarkers("\"}]}");
    LacksBoth("{\"search_", "results\":");
    LacksBoth("{\"search_" + "results\":", "[{\"url\":\"");
    LacksBoth("{\"search_" + "results\":" + "[{\"url\":\"", address);
    LacksBoth("{\"search_" + "results\":" + "[{\"url\":\"" + address, "\"}]}");
  }

  lemma LacksBoth(a: string, b: string)
    requires LacksMarkers(a) && LacksMarkers(b)
    ensures LacksMarkers(a + b)
  {
  }

  lemma SampleIsParsed(env: Walk.Env, address: string)
    requires |address| <= 1_000 && env.parseJson(SampleFor(address)) == Some(TreeFor(address))
    ensures Walk.ParseJsonish(env, SampleFor(address)) == Some(TreeFor(address))
  {
    var text := SampleFor(address);
    assert text[0] == '{' && text[|text| - 1] == '}';
    TrimsToItself(text);
    assert text[..1] == "{" && text[|text| - 1..] == "}";
  }

  /**
   * The gate is narrower than the walk: a text whose only search marker is a `search_results` member is skipped,
   * although the walk would find the source under it.
   */
  lemma GateSkipsReachableEvidence(env: Walk.Env, c: Collected, text: string, address: string)
    requires !HasSearchSignal(text)
    requires Walk.ParseJsonish(env, text) == Some(TreeFor(address)) && IsExternalSourceUrl(env.urls, address)
    ensures AfterText(env, c, text, true) == c
    ensures Extracted(env, text).sources != []
  {
    var s := ItemIsRanked(env, address);
    ItemContributes(env, address, s);
    assert ReachableIn(env, text, Walk.Found(s));
    assert RawCandidates(text)[0] == text;
    assert Reachable(env, text, Walk.Found(s));
    SourceReached(env, text, s.canonicalUrl);
  }

  /** Such texts exist: the plain JSON text for any external address without the marker characters. */
  lemma GateSkipsSample(env: Walk.Env, c: Collected, address: string)
    requires LacksMarkers(address) && |address| <= 1_000
    requires env.parseJson(SampleFor(address)) == Some(TreeFor(address)) && IsExternalSourceUrl(env.urls, address)
    ensures AfterText(env, c, SampleFor(address), true) == c
    ensures Extracted(env, SampleFor(address)).sources != []
  {
    SampleLacksMarkers(address);
    NoMarkersNoSignal(SampleFor(address));
    SampleIsParsed(env, address);
    GateSkipsReachableEvidence(env, c, SampleFor(address), address);
  }

  lemma ItemIsRanked(env: Walk.Env, address: string) returns (s: Source)
    requires IsExternalSourceUrl(env.urls, address)
    ensures Walk.Ranked(env, [ItemFor(address)], 0, Walk.Found(s))
  {
    ExternalHasCanonicalForm(env.urls, address);
    AddressOfItem(env, address);
    s := Walk.SourceFromObject(env, ItemFor(address), Some(1)).value;
  }

  lemma AddressOfItem(env: Walk.Env, address: string)
    requires IsExternalSourceUrl(env.urls, address)
    ensures Walk.ValueByKeys(ItemFor(address).fields, Walk.URL_KEYS) == Walk.Str(address)
  {
    assert address != "";
  }

  lemma ItemContributes(env: Walk.Env, address: string, s: Source)
    requires Walk.Ranked(env, [ItemFor(address)], 0, Walk.Found(s))
    ensures Walk.Contributes(env, TreeFor(address), false, [Walk.Member(0)], Walk.Found(s))
  {
    var path := [Walk.Member(0)];
    var tree, list := TreeFor(address), Walk.Arr([ItemFor(address)]);
    assert path[1..] == [] && path[..0] == [];
    SearchResultsNames();
    assert Walk.OpensAt(env, tree, path, 0);
    assert Walk.InContext(env, tree, path);
    assert Walk.Follow(env, list, path[1..]) == Some(list);
    assert Walk.Follow(env, tree, path) == Some(list);
    assert Walk.Ranked(env, list.items, 0, Walk.Found(s));
    assert Walk.Gives(env, list, true, Walk.Found(s));
  }

  lemma SearchResultsNames()
    ensures Walk.NamesResults("search_results")
  {
    var lower := LowerAscii("search_results");
    assert lower == "search_results";
    assert StartsWith(lower, "search_result");
  }
}
