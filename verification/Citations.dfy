/** Visible citations: which links of an answer are kept, and where every other link went. */
module Citations {
  import opened Wrappers
  import opened Sequences
  import opened InsertionMap
  import opened UrlIdentity

  datatype Row = Row(url: string, title: string, marker: string)
  datatype Relation = Relation(url: string, marker: string, answerText: string)

  datatype Citation = Citation(
    title: Option<string>, url: string, canonicalUrl: Url, position: nat,
    marker: Option<string>, answerText: Option<string>, matched: bool)

  datatype Discarded = Discarded(internalHost: nat, unparseable: nat, duplicate: nat)
  datatype Meta = Meta(citations: seq<Citation>, rawLinkCount: nat, uniqueUrlCount: nat, discarded: Discarded)

  /** `text || null` */
  function NonEmpty(text: string): Option<string> {
    if text == "" then None else Some(text)
  }

  // ------------------------------------------------------------------ what is cited

  /** The first relation with a canonical URL. */
  function FirstRelation(env: Env, relations: seq<Relation>, u: Url): Option<Relation> {
    if relations == [] then None
    else
      OrElse(FirstRelation(env, relations[..|relations| - 1], u),
             var last := relations[|relations| - 1];
             if CanonicalForm(env, last.url) == Some(u) then Some(last) else None)
  }

  /** The canonical form of an external URL. */
  function ExternalForm(env: Env, url: string): Option<Url> {
    if IsExternalSourceUrl(env, url) then CanonicalForm(env, url) else None
  }

  /** The canonical URLs of the external rows, in order. */
  function ExternalForms(env: Env, rows: seq<Row>): seq<Url> {
    if rows == [] then []
    else
      var front, last := ExternalForms(env, rows[..|rows| - 1]), ExternalForm(env, rows[|rows| - 1].url);
      if last.Some? then front + [last.value] else front
  }

  function NotExternal(env: Env, rows: seq<Row>): nat {
    if rows == [] then 0
    else NotExternal(env, rows[..|rows| - 1]) + if IsExternalSourceUrl(env, rows[|rows| - 1].url) then 0 else 1
  }

  function CitationOf(row: Row, u: Url, relation: Option<Relation>, position: nat): Citation {
    Citation(NonEmpty(row.title), row.url, u, position,
             OrElse(if relation.Some? then NonEmpty(relation.value.marker) else None, NonEmpty(row.marker)),
             if relation.Some? then NonEmpty(relation.value.answerText) else None, relation.Some?)
  }

  /** The citation stems from the first external row with its URL and from the first relation with it. */
  ghost predicate StemsFrom(env: Env, relations: seq<Relation>, rows: seq<Row>, c: Citation, position: nat) {
    exists r: nat :: IsFirstRow(env, rows, r, c.canonicalUrl)
                     && c == CitationOf(rows[r], c.canonicalUrl, FirstRelation(env, relations, c.canonicalUrl),
                                        position)
  }

  /** Row `r` is the first external row with the canonical URL. */
  ghost predicate IsFirstRow(env: Env, rows: seq<Row>, r: nat, u: Url) {
    && r < |rows| && ExternalForm(env, rows[r].url) == Some(u)
    && forall q :: 0 <= q < r ==> ExternalForm(env, rows[q].url) != Some(u)
  }

  function FormsOf(citations: seq<Citation>): seq<Url> {
    seq(|citations|, i requires 0 <= i < |citations| => citations[i].canonicalUrl)
  }

  /** Every citation stems from the first row with its URL and carries its rank. */
  ghost predicate Cites(env: Env, relations: seq<Relation>, rows: seq<Row>, citations: seq<Citation>) {
    && FormsOf(citations) == FirstSeen(ExternalForms(env, rows))
    && forall i :: 0 <= i < |citations| ==> StemsFrom(env, relations, rows, citations[i], i + 1)
  }

  method NormalizeCitationRows(env: Env, rows: seq<Row>, relations: seq<Relation>) returns (meta: Meta)
    ensures Cites(env, relations, rows, meta.citations)
    ensures meta.rawLinkCount == |rows| && meta.uniqueUrlCount == |meta.citations|
    ensures meta.rawLinkCount
            == meta.uniqueUrlCount + meta.discarded.internalHost + meta.discarded.unparseable + meta.discarded.duplicate
    ensures meta.discarded.unparseable == 0
    ensures meta.discarded.internalHost == NotExternal(env, rows)
  {
    var relationMap := RelationMap(env, relations);
    var seen: set<Url> := {};
    var citations: seq<Citation> := [];
    var rawLinkCount := 0;
    var internalHost, unparseable, duplicate: int := 0, 0, 0;
    for i := 0 to |rows|
      invariant rawLinkCount == i == |citations| + internalHost + duplicate && unparseable == 0 <= duplicate
      invariant internalHost == NotExternal(env, rows[..i])
      invariant seen == Elements(FormsOf(citations))
      invariant Cites(env, relations, rows[..i], citations)
    {
      rawLinkCount := rawLinkCount + 1;
      var row := rows[i];
      assert rows[..i + 1] == rows[..i] + [row];
      CitesStep(env, relations, rows[..i], row, citations);
      if !IsExternalSourceUrl(env, row.url) {
        internalHost := internalHost + 1;
        continue;
      }
      ExternalHasCanonicalForm(env, row.url);
      var canonical := CanonicalForm(env, row.url);
      if canonical.None? {
        unparseable := unparseable + 1;
        continue;
      }
      if canonical.value in seen {
        duplicate := duplicate + 1;
        continue;
      }
      seen := seen + {canonical.value};
      var relation := Lookup(relationMap, canonical.value);
      citations := citations + [CitationOf(row, canonical.value, relation, |citations| + 1)];
    }
    assert rows[..|rows|] == rows;
    meta := Meta(citations, rawLinkCount, |citations|, Discarded(internalHost, unparseable, duplicate));
  }

  /** Relations by canonical URL; the first one stays. */
  method RelationMap(env: Env, relations: seq<Relation>) returns (m: Entries<Url, Relation>)
    ensures forall u :: Lookup(m, u) == FirstRelation(env, relations, u)
  {
    m := [];
    for i := 0 to |relations|
      invariant Unique(m)
      invariant forall u :: Lookup(m, u) == FirstRelation(env, relations[..i], u)
    {
      assert relations[..i + 1][..i] == relations[..i];
      var canonical := CanonicalForm(env, relations[i].url);
      if canonical.Some? && !Has(m, canonical.value) {
        PutFacts(m, canonical.value, relations[i]);
        m := Put(m, canonical.value, relations[i]);
      }
    }
    assert relations[..|relations|] == relations;
  }

  /** What one more row does to the citations so far. */
  lemma CitesStep(env: Env, relations: seq<Relation>, rows: seq<Row>, row: Row, citations: seq<Citation>)
    requires Cites(env, relations, rows, citations)
    ensures var form := ExternalForm(env, row.url);
      if form.None? || form.value in FormsOf(citations) then Cites(env, relations, rows + [row], citations)
      else
        var c := CitationOf(row, form.value, FirstRelation(env, relations, form.value), |citations| + 1);
        Cites(env, relations, rows + [row], citations + [c])
    ensures NotExternal(env, rows + [row])
      == NotExternal(env, rows) + if IsExternalSourceUrl(env, row.url) then 0 else 1
  {
    var more := rows + [row];
    assert more[..|rows|] == rows;
    var form := ExternalForm(env, row.url);
    KeptRows(env, relations, rows, row, citations);
    FirstSeenMember(ExternalForms(env, rows));
    if form.Some? {
      var forms := ExternalForms(env, rows);
      assert (forms + [form.value])[..|forms|] == forms;
      if form.value !in FormsOf(citations) {
        FormNotSeen(env, rows, form.value);
        assert IsFirstRow(env, more, |rows|, form.value);
        var c := CitationOf(row, form.value, FirstRelation(env, relations, form.value), |citations| + 1);
        assert StemsFrom(env, relations, more, c, |citations| + 1);
        var next := citations + [c];
        assert FormsOf(next) == FormsOf(citations) + [form.value];
      }
    }
  }

  lemma KeptRows(env: Env, relations: seq<Relation>, rows: seq<Row>, row: Row, citations: seq<Citation>)
    requires Cites(env, relations, rows, citations)
    ensures forall i :: 0 <= i < |citations| ==> StemsFrom(env, relations, rows + [row], citations[i], i + 1)
  {
    forall i | 0 <= i < |citations| ensures StemsFrom(env, relations, rows + [row], citations[i], i + 1) {
      var c := citations[i];
      assert StemsFrom(env, relations, rows, c, i + 1);
      var r: nat :| IsFirstRow(env, rows, r, c.canonicalUrl)
               && c == CitationOf(rows[r], c.canonicalUrl, FirstRelation(env, relations, c.canonicalUrl), i + 1);
      assert IsFirstRow(env, rows + [row], r, c.canonicalUrl);
    }
  }

  lemma {:induction false} FormNotSeen(env: Env, rows: seq<Row>, u: Url)
    requires u !in ExternalForms(env, rows)
    ensures forall q :: 0 <= q < |rows| ==> ExternalForm(env, rows[q].url) != Some(u)
  {
    if rows != [] {
      var front := rows[..|rows| - 1];
      FormNotSeen(env, front, u);
      forall q | 0 <= q < |front| ensures rows[q] == front[q] {
      }
    }
  }

  /** No two citations share a canonical URL, and every external row's URL is cited. */
  lemma CitedOnce(env: Env, relations: seq<Relation>, rows: seq<Row>, citations: seq<Citation>)
    requires Cites(env, relations, rows, citations)
    ensures Distinct(FormsOf(citations))
    ensures forall u :: u in FormsOf(citations) <==> u in ExternalForms(env, rows)
    ensures forall i :: 0 <= i < |citations| ==> citations[i].position == i + 1
  {
    FirstSeenMember(ExternalForms(env, rows));
  }

  /** A relation is found exactly when one has the URL, and it is the first such. */
  lemma {:induction false} RelationFound(env: Env, relations: seq<Relation>, u: Url)
    ensures FirstRelation(env, relations, u).None? <==>
      forall k :: 0 <= k < |relations| ==> CanonicalForm(env, relations[k].url) != Some(u)
    ensures FirstRelation(env, relations, u).Some? ==>
      exists k :: (0 <= k < |relations| && FirstRelation(env, relations, u) == Some(relations[k])
                   && CanonicalForm(env, relations[k].url) == Some(u)
                   && forall j :: 0 <= j < k ==> CanonicalForm(env, relations[j].url) != Some(u))
  {
    if relations != [] {
      var n := |relations| - 1;
      var front := relations[..n];
      RelationFound(env, front, u);
      assert forall k :: 0 <= k < n ==> front[k] == relations[k];
    }
  }

  /** A citation is marked as matched exactly when some relation has its canonical URL. */
  lemma MatchedIffRelated(env: Env, relations: seq<Relation>, rows: seq<Row>, citations: seq<Citation>, i: nat)
    requires Cites(env, relations, rows, citations) && i < |citations|
    ensures citations[i].matched <==>
      exists k :: 0 <= k < |relations| && CanonicalForm(env, relations[k].url) == Some(citations[i].canonicalUrl)
  {
    RelationFound(env, relations, citations[i].canonicalUrl);
  }

  // ------------------------------------------------------------- the visible result

  /** One look at the answer; `expected` is the number of references the page announces. */
  datatype Snapshot = Snapshot(
    answerFound: bool, sourceFound: bool, expected: Option<int>, links: seq<Row>, relations: seq<Relation>)

  datatype Visible = Visible(
    found: bool, citations: seq<Citation>, captured: nat, expected: Option<int>, ambiguous: bool, mismatch: bool)

  /** The rows that are normalised: an overlay replaces the links when they do not add up and it is the only one. */
  function ChosenRows(snapshot: Snapshot, overlays: seq<seq<Row>>): seq<Row> {
    var mismatch := snapshot.expected.Some? && |snapshot.links| != snapshot.expected.value;
    if mismatch && |overlays| == 1 then overlays[0] else snapshot.links
  }

  /**
   * `first` is the look at the answer as found, `second` the one after an attempt to expand the reference list, which
   * is made when fewer links than announced are visible.
   */
  method ExtractVisibleCitations(
    env: Env, first: Snapshot, second: Snapshot, overlays: seq<seq<Row>>) returns (v: Visible)
    ensures v.found <==> v.citations != []
    ensures !first.answerFound ==> v == Visible(false, [], 0, None, false, false)
    ensures first.answerFound && !first.sourceFound ==>
      Cites(env, first.relations, first.links, v.citations) && v.expected == Some(|v.citations|) && !v.mismatch
    ensures first.answerFound && first.sourceFound ==>
      var snapshot := if first.expected.Some? && |first.links| < first.expected.value then second else first;
      && v.expected == (if snapshot.expected.None? && v.citations != [] then Some(|v.citations|) else snapshot.expected)
      && (snapshot.expected != Some(0) ==>
            Cites(env, snapshot.relations, ChosenRows(snapshot, overlays), v.citations) && v.captured == |v.citations|)
      && (snapshot.expected == Some(0) ==> v.citations == [])
      && (v.mismatch <==>
        snapshot.expected.Some? && snapshot.expected.value > 0 && v.captured != snapshot.expected.value)
  {
    if !first.answerFound {
      return Visible(false, [], 0, None, false, false);
    }
    if !first.sourceFound {
      var inline := NormalizeCitationRows(env, first.links, first.relations);
      return Visible(inline.citations != [], inline.citations, inline.uniqueUrlCount, Some(|inline.citations|),
        false, false);
    }
    var snapshot := first;
    if snapshot.expected.Some? && |snapshot.links| < snapshot.expected.value {
      snapshot := second;
    }
    var rows, ambiguous := snapshot.links, false;
    if snapshot.expected.Some? && |rows| != snapshot.expected.value {
      if |overlays| == 1 {
        rows := overlays[0];
      } else if |overlays| > 1 {
        ambiguous := true;
      }
    }
    var meta := NormalizeCitationRows(env, rows, snapshot.relations);
    var mismatch := snapshot.expected.Some? && snapshot.expected.value > 0
      && meta.uniqueUrlCount != snapshot.expected.value;
    if snapshot.expected == Some(0) {
      return Visible(false, [], meta.uniqueUrlCount, Some(0), ambiguous, mismatch);
    }
    var expected :=
      if snapshot.expected.None? && meta.citations != [] then Some(|meta.citations|) else snapshot.expected;
    v := Visible(meta.citations != [], meta.citations, meta.uniqueUrlCount, expected, ambiguous, mismatch);
  }
}
