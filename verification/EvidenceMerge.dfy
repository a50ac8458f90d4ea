/** The evidence accumulator: queries and sources in first-seen order, each field its first known value. */
module EvidenceMerge {
  import opened Wrappers
  import opened Sequences
  import opened InsertionMap
  import opened UrlIdentity

  datatype Source = Source(
    canonicalUrl: Url, url: string, domain: Option<string>,
    title: Option<string>, sourceName: Option<string>, summary: Option<string>, position: Option<nat>)

  /** Sources by canonical URL; queries by their lower-cased text. */
  type SourceMap = Entries<Url, Source>
  type QueryMap = Entries<string, string>

  /** A source seen again only fills in what is missing. */
  function Merge(previous: Source, source: Source): Source {
    previous.(title := OrElse(previous.title, source.title),
              sourceName := OrElse(previous.sourceName, source.sourceName),
              summary := OrElse(previous.summary, source.summary),
              position := OrElse(previous.position, source.position))
  }

  function AddSource(m: SourceMap, s: Source): SourceMap {
    match Lookup(m, s.canonicalUrl)
    case None => Put(m, s.canonicalUrl, s)
    case Some(previous) => Put(m, s.canonicalUrl, Merge(previous, s))
  }

  function AddSources(m: SourceMap, ss: seq<Source>): SourceMap {
    if ss == [] then m else AddSource(AddSources(m, ss[..|ss| - 1]), ss[|ss| - 1])
  }

  function AddQuery(lower: string -> string, m: QueryMap, q: string): QueryMap {
    if Has(m, lower(q)) then m else m + [Entry(lower(q), q)]
  }

  function AddQueries(lower: string -> string, m: QueryMap, qs: seq<string>): QueryMap {
    if qs == [] then m else AddQuery(lower, AddQueries(lower, m, qs[..|qs| - 1]), qs[|qs| - 1])
  }

  // -------------------------------------------------- first known value, per URL

  function UrlsOf(ss: seq<Source>): seq<Url> {
    seq(|ss|, i requires 0 <= i < |ss| => ss[i].canonicalUrl)
  }

  /** The first known value of a field among the sources with a URL. */
  function FirstKnown<T>(field: Source -> Option<T>, ss: seq<Source>, u: Url): Option<T> {
    if ss == [] then None
    else
      var last := ss[|ss| - 1];
      OrElse(FirstKnown(field, ss[..|ss| - 1], u), if last.canonicalUrl == u then field(last) else None)
  }

  /** A field of the stored source with a URL. */
  function Stored<T>(field: Source -> Option<T>, m: SourceMap, u: Url): Option<T> {
    match Lookup(m, u)
    case None => None
    case Some(s) => field(s)
  }

  /** Merging keeps the first known value of the field. */
  ghost predicate FirstWins<T>(field: Source -> Option<T>) {
    forall a: Source, b: Source :: a.canonicalUrl == b.canonicalUrl ==> field(Merge(a, b)) == OrElse(field(a), field(b))
  }

  ghost predicate KeyedByUrl(m: SourceMap) {
    Unique(m) && forall e :: e in m ==> e.value.canonicalUrl == e.key
  }

  lemma LookupKeyed(m: SourceMap, u: Url)
    requires KeyedByUrl(m) && Has(m, u)
    ensures Lookup(m, u).value.canonicalUrl == u
  {
    assert m[Find(m, u)] in m;
  }

  lemma AddSourceFacts(m: SourceMap, s: Source)
    requires KeyedByUrl(m)
    ensures KeyedByUrl(AddSource(m, s))
    ensures Keys(AddSource(m, s)) == if s.canonicalUrl in Keys(m) then Keys(m) else Keys(m) + [s.canonicalUrl]
    ensures forall u :: (Lookup(AddSource(m, s), u)
                         == if u != s.canonicalUrl then Lookup(m, u)
                            else Some(if Has(m, u) then Merge(Lookup(m, u).value, s) else s))
  {
    var k := s.canonicalUrl;
    var v := if Has(m, k) then Merge(Lookup(m, k).value, s) else s;
    HasIffKey(m, k);
    PutFacts(m, k, v);
    var after := AddSource(m, s);
    assert after == Put(m, k, v);
    if Has(m, k) {
      LookupKeyed(m, k);
    }
    forall e | e in after ensures e.value.canonicalUrl == e.key {
      if e != Entry(k, v) {
        assert e in m;
      }
    }
  }

  lemma AddSourcesNext(m: SourceMap, ss: seq<Source>, s: Source)
    ensures AddSources(m, ss + [s]) == AddSource(AddSources(m, ss), s)
  {
    assert (ss + [s])[..|ss|] == ss;
  }

  lemma {:induction false} AddSourcesFacts(m: SourceMap, ss: seq<Source>)
    requires KeyedByUrl(m)
    ensures KeyedByUrl(AddSources(m, ss))
    ensures Keys(AddSources(m, ss)) == FirstSeen(Keys(m) + UrlsOf(ss))
  {
    if ss == [] {
      assert Keys(m) + UrlsOf(ss) == Keys(m);
      DistinctKeys(m);
      FirstSeenDistinct(Keys(m));
    } else {
      var front, s := ss[..|ss| - 1], ss[|ss| - 1];
      AddSourcesFacts(m, front);
      AddedKey(AddSources(m, front), Keys(m) + UrlsOf(front), s);
      assert Keys(m) + UrlsOf(ss) == Keys(m) + UrlsOf(front) + [s.canonicalUrl];
    }
  }

  lemma AddedKey(m: SourceMap, urls: seq<Url>, s: Source)
    requires KeyedByUrl(m) && Keys(m) == FirstSeen(urls)
    ensures KeyedByUrl(AddSource(m, s)) && Keys(AddSource(m, s)) == FirstSeen(urls + [s.canonicalUrl])
  {
    AddSourceFacts(m, s);
    FirstSeenMember(urls);
    FirstSeenNext(urls, s.canonicalUrl);
  }

  lemma UrlOfMember(ss: seq<Source>, u: Url)
    ensures u in UrlsOf(ss) <==> exists s :: s in ss && s.canonicalUrl == u
  {
    if u in UrlsOf(ss) {
      var i :| 0 <= i < |ss| && UrlsOf(ss)[i] == u;
      assert ss[i] in ss;
    }
    if s :| s in ss && s.canonicalUrl == u {
      var i :| 0 <= i < |ss| && ss[i] == s;
      assert UrlsOf(ss)[i] == u;
    }
  }

  /** The URLs of the accumulator are those of the sources. */
  lemma AccumulatedUrls(ss: seq<Source>, u: Url)
    ensures Keys(AddSources([], ss)) == FirstSeen(UrlsOf(ss))
    ensures Has(AddSources([], ss), u) <==> u in UrlsOf(ss)
  {
    AddSourcesFacts([], ss);
    assert Keys<Url, Source>([]) + UrlsOf(ss) == UrlsOf(ss);
    FirstSeenMember(UrlsOf(ss));
    HasIffKey(AddSources([], ss), u);
  }

  lemma StoredAfterAdd<T>(field: Source -> Option<T>, m: SourceMap, s: Source, u: Url)
    requires KeyedByUrl(m) && FirstWins(field)
    ensures Stored(field, AddSource(m, s), u)
            == OrElse(Stored(field, m, u), if s.canonicalUrl == u then field(s) else None)
  {
    AddSourceFacts(m, s);
    if u == s.canonicalUrl && Has(m, u) {
      LookupKeyed(m, u);
      var previous := Lookup(m, u).value;
      assert field(Merge(previous, s)) == OrElse(field(previous), field(s));
    }
  }

  /** Every field that merging keeps is the first known value among what was added, after what was there. */
  lemma {:induction false} StoredIsFirstKnown<T>(field: Source -> Option<T>, m: SourceMap, ss: seq<Source>, u: Url)
    requires KeyedByUrl(m) && FirstWins(field)
    ensures Stored(field, AddSources(m, ss), u) == OrElse(Stored(field, m, u), FirstKnown(field, ss, u))
  {
    if ss != [] {
      var front, s := ss[..|ss| - 1], ss[|ss| - 1];
      StoredIsFirstKnown(field, m, front, u);
      AddSourcesFacts(m, front);
      StoredAfterAdd(field, AddSources(m, front), s, u);
    }
  }

  lemma {:induction false} FirstKnownConcat<T>(field: Source -> Option<T>, a: seq<Source>, b: seq<Source>, u: Url)
    ensures FirstKnown(field, a + b, u) == OrElse(FirstKnown(field, a, u), FirstKnown(field, b, u))
  {
    if b == [] {
      assert a + b == a;
    } else {
      FirstKnownConcat(field, a, b[..|b| - 1], u);
      assert (a + b)[..|a + b| - 1] == a + b[..|b| - 1];
    }
  }

  /** In a list whose URLs are distinct, the first known value is the one of the only source with that URL. */
  lemma {:induction false} FirstKnownDistinct<T>(field: Source -> Option<T>, ss: seq<Source>, i: nat)
    requires Distinct(UrlsOf(ss)) && i < |ss|
    ensures FirstKnown(field, ss, ss[i].canonicalUrl) == field(ss[i])
  {
    var n := |ss| - 1;
    var front := ss[..n];
    assert forall j :: 0 <= j < n ==> UrlsOf(front)[j] == UrlsOf(ss)[j];
    if i < n {
      FirstKnownDistinct(field, front, i);
      assert UrlsOf(ss)[i] != UrlsOf(ss)[n];
    } else {
      forall j | 0 <= j < n ensures front[j].canonicalUrl != ss[n].canonicalUrl {
        assert UrlsOf(ss)[j] != UrlsOf(ss)[n];
      }
      FirstKnownAbsent(field, front, ss[n].canonicalUrl);
    }
  }

  lemma {:induction false} FirstKnownAbsent<T>(field: Source -> Option<T>, ss: seq<Source>, u: Url)
    requires forall j :: 0 <= j < |ss| ==> ss[j].canonicalUrl != u
    ensures FirstKnown(field, ss, u) == None
  {
    if ss != [] {
      FirstKnownAbsent(field, ss[..|ss| - 1], u);
    }
  }

  // ------------------------------------------------------------------- the fields

  const TITLE: Source -> Option<string> := (s: Source) => s.title
  const SOURCE_NAME: Source -> Option<string> := (s: Source) => s.sourceName
  const SUMMARY: Source -> Option<string> := (s: Source) => s.summary
  const POSITION: Source -> Option<nat> := (s: Source) => s.position
  /** What merging never changes: it comes from the first source with the URL. */
  const ORIGIN: Source -> Option<(string, Option<string>)> := (s: Source) => Some((s.url, s.domain))

  lemma FieldsFirstWin()
    ensures FirstWins(TITLE) && FirstWins(SOURCE_NAME) && FirstWins(SUMMARY) && FirstWins(POSITION) && FirstWins(ORIGIN)
  {
  }

  /** What is stored for a URL, field by field. */
  lemma StoredFields(m: SourceMap, u: Url)
    requires KeyedByUrl(m)
    ensures Has(m, u) ==>
      var s := Lookup(m, u).value;
      && s.canonicalUrl == u && Stored(TITLE, m, u) == s.title && Stored(SOURCE_NAME, m, u) == s.sourceName
      && Stored(SUMMARY, m, u) == s.summary && Stored(POSITION, m, u) == s.position
      && Stored(ORIGIN, m, u) == Some((s.url, s.domain))
  {
    if Has(m, u) {
      LookupKeyed(m, u);
    }
  }

  /**
   * The accumulator is the first-known-value fold: its URLs are the first occurrences in order, and every field of
   * a URL is the first known value of that field.
   */
  lemma AccumulatorIsFirstKnown(ss: seq<Source>, u: Url)
    ensures var m := AddSources([], ss);
      && Keys(m) == FirstSeen(UrlsOf(ss))
      && (Has(m, u) <==> u in UrlsOf(ss))
      && (Has(m, u) ==>
            var s := Lookup(m, u).value;
            && s.canonicalUrl == u && s.title == FirstKnown(TITLE, ss, u)
            && s.sourceName == FirstKnown(SOURCE_NAME, ss, u)
            && s.summary == FirstKnown(SUMMARY, ss, u) && s.position == FirstKnown(POSITION, ss, u)
            && Some((s.url, s.domain)) == FirstKnown(ORIGIN, ss, u))
  {
    AccumulatedUrls(ss, u);
    AddSourcesFacts([], ss);
    StoredFields(AddSources([], ss), u);
    FieldsFirstWin();
    StoredIsFirstKnown(TITLE, [], ss, u);
    StoredIsFirstKnown(SOURCE_NAME, [], ss, u);
    StoredIsFirstKnown(SUMMARY, [], ss, u);
    StoredIsFirstKnown(POSITION, [], ss, u);
    StoredIsFirstKnown(ORIGIN, [], ss, u);
  }

  // ------------------------------------------------------------------ idempotence

  /** Adding the source again would change nothing. */
  ghost predicate Absorbed(m: SourceMap, s: Source) {
    Has(m, s.canonicalUrl) && Merge(Lookup(m, s.canonicalUrl).value, s) == Lookup(m, s.canonicalUrl).value
  }

  lemma AbsorbedStays(m: SourceMap, s: Source, t: Source)
    requires KeyedByUrl(m) && (Absorbed(m, s) || s == t)
    ensures Absorbed(AddSource(m, t), s)
  {
    AddSourceFacts(m, t);
    HasIffKey(m, s.canonicalUrl);
    HasIffKey(AddSource(m, t), s.canonicalUrl);
  }

  lemma AbsorbedChangesNothing(m: SourceMap, s: Source)
    requires Absorbed(m, s)
    ensures AddSource(m, s) == m
  {
    var i := Find(m, s.canonicalUrl);
    assert m[i] == Entry(s.canonicalUrl, m[i].value);
  }

  lemma {:induction false} AllAbsorbed(m: SourceMap, ss: seq<Source>, s: Source)
    requires KeyedByUrl(m) && (Absorbed(m, s) || s in ss)
    ensures Absorbed(AddSources(m, ss), s)
  {
    if ss != [] {
      var front, t := ss[..|ss| - 1], ss[|ss| - 1];
      AddSourcesFacts(m, front);
      if Absorbed(m, s) || s in front {
        AllAbsorbed(m, front, s);
      }
      AbsorbedStays(AddSources(m, front), s, t);
    }
  }

  /** Adding sources that have been added already, in any order and any number of times, changes nothing. */
  lemma {:induction false} ReaddingSources(m: SourceMap, ss: seq<Source>, again: seq<Source>)
    requires KeyedByUrl(m) && forall s :: s in again ==> s in ss
    ensures AddSources(AddSources(m, ss), again) == AddSources(m, ss)
  {
    if again != [] {
      ReaddingSources(m, ss, again[..|again| - 1]);
      AllAbsorbed(m, ss, again[|again| - 1]);
      AbsorbedChangesNothing(AddSources(m, ss), again[|again| - 1]);
    }
  }

  lemma {:induction false} AddSourcesConcat(m: SourceMap, a: seq<Source>, b: seq<Source>)
    ensures AddSources(m, a + b) == AddSources(AddSources(m, a), b)
  {
    if b == [] {
      assert a + b == a;
    } else {
      AddSourcesConcat(m, a, b[..|b| - 1]);
      assert (a + b)[..|a + b| - 1] == a + b[..|b| - 1];
    }
  }

  // ----------------------------------------------------------------------- queries

  function LowerAll(lower: string -> string, qs: seq<string>): seq<string> {
    seq(|qs|, i requires 0 <= i < |qs| => lower(qs[i]))
  }

  /** The first query with a key. */
  function FirstWith(lower: string -> string, qs: seq<string>, k: string): Option<string> {
    if qs == [] then None
    else OrElse(FirstWith(lower, qs[..|qs| - 1], k), if lower(qs[|qs| - 1]) == k then Some(qs[|qs| - 1]) else None)
  }

  ghost predicate KeyedByLower(lower: string -> string, m: QueryMap) {
    Unique(m) && forall e :: e in m ==> lower(e.value) == e.key
  }

  lemma AddQueryFacts(lower: string -> string, m: QueryMap, q: string)
    requires KeyedByLower(lower, m)
    ensures KeyedByLower(lower, AddQuery(lower, m, q))
    ensures Keys(AddQuery(lower, m, q)) == if lower(q) in Keys(m) then Keys(m) else Keys(m) + [lower(q)]
    ensures forall k :: Lookup(AddQuery(lower, m, q), k)
                        == OrElse(Lookup(m, k), if lower(q) == k then Some(q) else None)
  {
    HasIffKey(m, lower(q));
    if !Has(m, lower(q)) {
      PutFacts(m, lower(q), q);
      assert AddQuery(lower, m, q) == Put(m, lower(q), q);
    }
  }

  lemma AddQueriesNext(lower: string -> string, m: QueryMap, qs: seq<string>, q: string)
    ensures AddQueries(lower, m, qs + [q]) == AddQuery(lower, AddQueries(lower, m, qs), q)
  {
    assert (qs + [q])[..|qs|] == qs;
  }

  lemma {:induction false} AddQueriesFacts(lower: string -> string, m: QueryMap, qs: seq<string>)
    requires KeyedByLower(lower, m)
    ensures KeyedByLower(lower, AddQueries(lower, m, qs))
    ensures Keys(AddQueries(lower, m, qs)) == FirstSeen(Keys(m) + LowerAll(lower, qs))
    ensures forall k :: Lookup(AddQueries(lower, m, qs), k) == OrElse(Lookup(m, k), FirstWith(lower, qs, k))
  {
    if qs == [] {
      assert Keys(m) + LowerAll(lower, qs) == Keys(m);
      assert Distinct(Keys(m));
      FirstSeenDistinct(Keys(m));
    } else {
      var front, q := qs[..|qs| - 1], qs[|qs| - 1];
      AddQueriesFacts(lower, m, front);
      AddQueryFacts(lower, AddQueries(lower, m, front), q);
      var before := Keys(m) + LowerAll(lower, front);
      FirstSeenMember(before);
      assert Keys(m) + LowerAll(lower, qs) == before + [lower(q)];
      assert (before + [lower(q)])[..|before|] == before;
    }
  }

  lemma {:induction false} AddQueriesConcat(lower: string -> string, m: QueryMap, a: seq<string>, b: seq<string>)
    ensures AddQueries(lower, m, a + b) == AddQueries(lower, AddQueries(lower, m, a), b)
  {
    if b == [] {
      assert a + b == a;
    } else {
      AddQueriesConcat(lower, m, a, b[..|b| - 1]);
      assert (a + b)[..|a + b| - 1] == a + b[..|b| - 1];
    }
  }

  lemma {:induction false} QueryKept(lower: string -> string, m: QueryMap, qs: seq<string>, q: string)
    requires Has(m, lower(q)) || q in qs
    ensures Has(AddQueries(lower, m, qs), lower(q))
  {
    if qs != [] {
      var front, last := qs[..|qs| - 1], qs[|qs| - 1];
      var before := AddQueries(lower, m, front);
      var after := AddQueries(lower, m, qs);
      if Has(m, lower(q)) || q in front {
        QueryKept(lower, m, front, q);
        HasIffKey(before, lower(q));
        assert forall i :: 0 <= i < |before| ==> after[i] == before[i];
      } else if !Has(before, lower(q)) {
        assert after[|before|].key == lower(q);
      }
      HasIffKey(after, lower(q));
    }
  }

  /** Adding queries that have been added already changes nothing. */
  lemma {:induction false} ReaddingQueries(lower: string -> string, m: QueryMap, qs: seq<string>, again: seq<string>)
    requires forall q :: q in again ==> q in qs
    ensures AddQueries(lower, AddQueries(lower, m, qs), again) == AddQueries(lower, m, qs)
  {
    if again != [] {
      ReaddingQueries(lower, m, qs, again[..|again| - 1]);
      QueryKept(lower, m, qs, again[|again| - 1]);
    }
  }
}
