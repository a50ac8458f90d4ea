/** The depth-bounded walk that finds search evidence in JSON, and in JSON inside strings. */
module EvidenceWalk {
  import opened Wrappers
  import opened Text
  import opened UrlIdentity
  import opened EvidenceMerge

  /** A parsed JSON value; a number is carried as its text. */
  datatype Json =
    | Null
    | Bool(value: bool)
    | Number(digits: string)
    | Str(text: string)
    | Arr(items: seq<Json>)
    | Obj(fields: seq<Field>)

  datatype Field = Field(name: string, value: Json)

  /**
   * The library calls of the walk: URL parsing, `JSON.parse`, `String(v)`, whitespace-collapsing truncation,
   * `Number(v)` when it is an integer, and locale lower-casing.
   */
  datatype Env = Env(
    urls: UrlIdentity.Env,
    parseJson: string -> Option<Json>,
    show: Json -> string,
    compact: (Json, nat) -> Option<string>,
    integer: Json -> Option<int>,
    lower: string -> string)

  const MAX_DEPTH: nat := 14
  const JSONISH_LIMIT: nat := 1_000_000
  const SEARCH_BLOCK_TYPE := "10025"

  /** A named member; `Null` when it is missing. */
  function Get(fields: seq<Field>, name: string): Json {
    if fields == [] then Null
    else if fields[0].name == name then fields[0].value
    else Get(fields[1..], name)
  }

  predicate HasField(fields: seq<Field>, name: string) {
    exists i :: 0 <= i < |fields| && fields[i].name == name
  }

  function Coalesce(a: Json, b: Json): Json {
    if a.Null? then b else a
  }

  /** The first value of the named members that is neither missing, null nor the empty string. */
  function ValueByKeys(fields: seq<Field>, names: seq<string>): Json {
    if names == [] then Null
    else
      var v := Get(fields, names[0]);
      if v != Null && v != Str("") then v else ValueByKeys(fields, names[1..])
  }

  function ParseJsonish(env: Env, text: string): Option<Json> {
    var t := Trim(text);
    if t == "" || |t| > JSONISH_LIMIT then None
    else if (StartsWith(t, "{") && EndsWith(t, "}")) || (StartsWith(t, "[") && EndsWith(t, "]")) then env.parseJson(t)
    else None
  }

  predicate LooksLikeSearchBlock(env: Env, fields: seq<Field>) {
    || env.show(Coalesce(Coalesce(Get(fields, "block_type"), Get(fields, "blockType")), Str(""))) == SEARCH_BLOCK_TYPE
    || exists i :: 0 <= i < |fields| && NamesBlock(fields[i].name)
  }

  predicate NamesBlock(name: string) {
    Contains(LowerAscii(name), "search_query_result") || Contains(LowerAscii(name), "search_result_block")
  }

  /** A member name whose value is read in search context. */
  predicate NamesResults(name: string) {
    NamesBlock(name) || Contains(LowerAscii(name), "search_result")
  }

  const URL_KEYS := ["url", "href", "link", "source_url", "sourceUrl", "web_url", "webUrl", "article_url", "articleUrl"]
  const POSITION_KEYS := ["position", "rank", "index", "order"]
  const TITLE_KEYS := ["title", "name", "page_title", "pageTitle"]
  const NAME_KEYS := ["source", "source_name", "sourceName", "site", "site_name", "siteName"]
  const SUMMARY_KEYS := ["summary", "snippet", "description", "abstract", "digest"]
  const QUERY_LIST_KEYS := ["queries", "search_queries", "searchQueries", "query_list", "queryList"]

  function OwnPosition(env: Env, fields: seq<Field>): Option<nat> {
    var n := env.integer(ValueByKeys(fields, POSITION_KEYS));
    if n.Some? && n.value > 0 then Some(n.value) else None
  }

  /** The source an object describes; `position` is its rank in the enclosing array, if any. */
  function SourceFromObject(env: Env, v: Json, position: Option<nat>): Option<Source> {
    if !v.Obj? then None
    else
      var raw := ValueByKeys(v.fields, URL_KEYS);
      if !raw.Str? || !IsExternalSourceUrl(env.urls, raw.text) then None
      else match CanonicalForm(env.urls, raw.text)
        case None => None
        case Some(canonical) => Some(Source(
          canonical, raw.text, Some(LowerAscii(canonical.hostname)),
          env.compact(ValueByKeys(v.fields, TITLE_KEYS), 500),
          env.compact(ValueByKeys(v.fields, NAME_KEYS), 300),
          env.compact(ValueByKeys(v.fields, SUMMARY_KEYS), 1500),
          OrElse(OwnPosition(env, v.fields), position)))
  }

  /** The text an element of a query list stands for. */
  function QueryText(v: Json): Option<string> {
    match v
    case Str(s) => Some(s)
    case Obj(fields) =>
      var text := Coalesce(Get(fields, "query"), Get(fields, "text"));
      var nested := Coalesce(Coalesce(text, Get(fields, "keyword")), Get(fields, "q"));
      if nested.Str? then Some(nested.text) else None
    case _ => None
  }

  function QueriesIn(env: Env, items: seq<Json>): seq<string> {
    if items == [] then []
    else
      var front, text := QueriesIn(env, items[..|items| - 1]), QueryText(items[|items| - 1]);
      if text.None? then front
      else
        var compacted := env.compact(Str(text.value), 500);
        if compacted.Some? && compacted.value != "" then front + [compacted.value] else front
  }

  function StringArray(env: Env, v: Json): seq<string> {
    QueriesIn(env, if v.Arr? then v.items else [v])
  }

  // ---------------------------------------------------------------- what the walk emits

  datatype Emission = Block | Query(text: string) | Found(source: Source)

  function AsQueries(texts: seq<string>): seq<Emission> {
    seq(|texts|, i requires 0 <= i < |texts| => Query(texts[i]))
  }

  function AsFound(source: Option<Source>): seq<Emission> {
    match source case None => [] case Some(s) => [Found(s)]
  }

  function ListedQueries(env: Env, fields: seq<Field>, names: seq<string>): seq<Emission> {
    if names == [] then []
    else
      var last := names[|names| - 1];
      ListedQueries(env, fields, names[..|names| - 1])
      + (if HasField(fields, last) then AsQueries(StringArray(env, Get(fields, last))) else [])
  }

  function SingleQuery(env: Env, fields: seq<Field>): seq<Emission> {
    var q := Get(fields, "query");
    if q.Str? then AsQueries(StringArray(env, q)) else []
  }

  function OwnInContext(env: Env, fields: seq<Field>): seq<Emission> {
    ListedQueries(env, fields, QUERY_LIST_KEYS) + SingleQuery(env, fields)
      + AsFound(SourceFromObject(env, Obj(fields), None))
  }

  /** What an object contributes by itself, reached in or out of search context. */
  function Own(env: Env, fields: seq<Field>, context: bool): seq<Emission> {
    var here := LooksLikeSearchBlock(env, fields);
    (if here then [Block] else [])
    + (if context || here then OwnInContext(env, fields) else [])
  }

  function Fuel(depth: nat): nat {
    if depth > MAX_DEPTH then 0 else 1 + MAX_DEPTH - depth
  }

  /** Everything the walk of `v` emits, in order. */
  function Emit(env: Env, v: Json, context: bool, depth: nat): seq<Emission>
    decreases Fuel(depth), 1, 0
  {
    if depth > MAX_DEPTH then []
    else match v
      case Str(text) =>
        (match ParseJsonish(env, text)
         case None => []
         case Some(parsed) => Emit(env, parsed, context, depth + 1))
      case Arr(items) => EmitItems(env, items, context, depth)
      case Obj(fields) =>
        Own(env, fields, context) + EmitFields(env, fields, context || LooksLikeSearchBlock(env, fields), depth)
      case _ => []
  }

  function EmitItems(env: Env, items: seq<Json>, context: bool, depth: nat): seq<Emission>
    requires depth <= MAX_DEPTH
    decreases Fuel(depth), 0, |items| + 1
  {
    if items == [] then []
    else
      EmitItems(env, items[..|items| - 1], context, depth) + EmitItem(env, items[|items| - 1], |items|, context, depth)
  }

  function EmitItem(env: Env, item: Json, rank: nat, context: bool, depth: nat): seq<Emission>
    requires depth <= MAX_DEPTH
    decreases Fuel(depth), 0, 0
  {
    RankedSource(env, item, rank, context) + Emit(env, item, context, depth + 1)
  }

  function RankedSource(env: Env, item: Json, rank: nat, context: bool): seq<Emission> {
    if context then AsFound(SourceFromObject(env, item, Some(rank))) else []
  }

  function EmitFields(env: Env, fields: seq<Field>, context: bool, depth: nat): seq<Emission>
    requires depth <= MAX_DEPTH
    decreases Fuel(depth), 0, |fields| + 1
  {
    if fields == [] then []
    else EmitFields(env, fields[..|fields| - 1], context, depth)
         + EmitField(env, fields[|fields| - 1], context, depth)
  }

  function EmitField(env: Env, field: Field, context: bool, depth: nat): seq<Emission>
    requires depth <= MAX_DEPTH
    decreases Fuel(depth), 0, 0
  {
    Emit(env, field.value, context || NamesResults(field.name), depth + 1)
  }

  // ------------------------------------------------------- the declarative reading

  datatype PathStep = Item(index: nat) | Member(index: nat) | Inside

  type Path = seq<PathStep>

  /** One step down: into an array, into an object, or into the JSON inside a string. */
  function Child(env: Env, v: Json, step: PathStep): Option<Json> {
    match step
    case Item(i) => if v.Arr? && i < |v.items| then Some(v.items[i]) else None
    case Member(i) => if v.Obj? && i < |v.fields| then Some(v.fields[i].value) else None
    case Inside => if v.Str? then ParseJsonish(env, v.text) else None
  }

  function Follow(env: Env, v: Json, path: Path): Option<Json>
    decreases |path|
  {
    if path == [] then Some(v)
    else match Child(env, v, path[0])
      case None => None
      case Some(child) => Follow(env, child, path[1..])
  }

  /** Going this way enters search context: the object is a search block, or the member name says so. */
  predicate Opens(env: Env, v: Json, step: PathStep) {
    step.Member? && v.Obj? && step.index < |v.fields|
    && (LooksLikeSearchBlock(env, v.fields) || NamesResults(v.fields[step.index].name))
  }

  ghost predicate OpensAt(env: Env, v: Json, path: Path, k: nat)
    requires k < |path|
  {
    var node := Follow(env, v, path[..k]);
    node.Some? && Opens(env, node.value, path[k])
  }

  /** The path passes through a search block or a search-result member. */
  ghost predicate InContext(env: Env, v: Json, path: Path) {
    exists k :: 0 <= k < |path| && OpensAt(env, v, path, k)
  }

  /** What a node gives by itself: an object its own evidence, an array its elements' ranked sources. */
  ghost predicate Gives(env: Env, v: Json, inside: bool, e: Emission) {
    || (v.Obj? && e in Own(env, v.fields, inside))
    || (v.Arr? && inside && exists i :: 0 <= i < |v.items| && Ranked(env, v.items, i, e))
  }

  predicate Ranked(env: Env, items: seq<Json>, i: nat, e: Emission)
    requires i < |items|
  {
    e in AsFound(SourceFromObject(env, items[i], Some(i + 1)))
  }

  ghost predicate Contributes(env: Env, v: Json, context: bool, path: Path, e: Emission) {
    var node := Follow(env, v, path);
    node.Some? && Gives(env, node.value, context || InContext(env, v, path), e)
  }

  lemma ContextSplits(env: Env, v: Json, step: PathStep, rest: Path)
    requires Child(env, v, step).Some?
    ensures InContext(env, v, [step] + rest) <==> Opens(env, v, step) || InContext(env, Child(env, v, step).value, rest)
  {
    var path, child := [step] + rest, Child(env, v, step).value;
    assert path[1..] == rest;
    forall k | 0 <= k < |rest| ensures OpensAt(env, v, path, k + 1) <==> OpensAt(env, child, rest, k) {
      assert path[..k + 1][1..] == rest[..k];
      assert path[..k + 1][0] == step;
    }
    assert OpensAt(env, v, path, 0) <==> Opens(env, v, step);
    if InContext(env, v, path) {
      var k :| 0 <= k < |path| && OpensAt(env, v, path, k);
      if k > 0 {
        assert OpensAt(env, child, rest, k - 1);
      }
    }
    if k :| 0 <= k < |rest| && OpensAt(env, child, rest, k) {
      assert OpensAt(env, v, path, k + 1);
    }
  }

  lemma ContributesSplits(env: Env, v: Json, context: bool, step: PathStep, rest: Path, e: Emission)
    requires Child(env, v, step).Some?
    ensures Contributes(env, v, context, [step] + rest, e)
            <==> Contributes(env, Child(env, v, step).value, context || Opens(env, v, step), rest, e)
  {
    ContextSplits(env, v, step, rest);
    assert ([step] + rest)[1..] == rest;
  }

  lemma ContributesHere(env: Env, v: Json, context: bool, e: Emission)
    ensures Contributes(env, v, context, [], e) <==> Gives(env, v, context, e)
  {
    assert !InContext(env, v, []);
  }

  lemma {:induction false} InItems(env: Env, items: seq<Json>, context: bool, depth: nat, i: nat, e: Emission)
    requires depth <= MAX_DEPTH && i < |items|
    requires (context && Ranked(env, items, i, e)) || e in Emit(env, items[i], context, depth + 1)
    ensures e in EmitItems(env, items, context, depth)
    decreases |items|
  {
    if i < |items| - 1 {
      InItems(env, items[..|items| - 1], context, depth, i, e);
    }
  }

  lemma {:induction false} InFields(env: Env, fields: seq<Field>, context: bool, depth: nat, i: nat, e: Emission)
    requires depth <= MAX_DEPTH && i < |fields|
    requires e in Emit(env, fields[i].value, context || NamesResults(fields[i].name), depth + 1)
    ensures e in EmitFields(env, fields, context, depth)
    decreases |fields|
  {
    if i < |fields| - 1 {
      InFields(env, fields[..|fields| - 1], context, depth, i, e);
    }
  }

  lemma GivenIsEmitted(env: Env, v: Json, context: bool, depth: nat, e: Emission)
    requires depth <= MAX_DEPTH && Gives(env, v, context, e)
    ensures e in Emit(env, v, context, depth)
  {
    if v.Arr? {
      var i :| 0 <= i < |v.items| && Ranked(env, v.items, i, e);
      InItems(env, v.items, context, depth, i, e);
    }
  }

  lemma ChildIsEmitted(env: Env, v: Json, step: PathStep, context: bool, depth: nat, e: Emission)
    requires depth < MAX_DEPTH && Child(env, v, step).Some?
    requires e in Emit(env, Child(env, v, step).value, context || Opens(env, v, step), depth + 1)
    ensures e in Emit(env, v, context, depth)
  {
    match step
    case Item(i) => InItems(env, v.items, context, depth, i, e);
    case Member(i) => InFields(env, v.fields, context || LooksLikeSearchBlock(env, v.fields), depth, i, e);
    case Inside =>
  }

  /** `Contributes`, step by step. */
  ghost predicate LeadsTo(env: Env, v: Json, context: bool, path: Path, e: Emission)
    decreases |path|
  {
    if path == [] then Gives(env, v, context, e)
    else
      var child := Child(env, v, path[0]);
      child.Some? && LeadsTo(env, child.value, context || Opens(env, v, path[0]), path[1..], e)
  }

  lemma LeadsToNext(env: Env, v: Json, context: bool, step: PathStep, rest: Path, e: Emission)
    requires Child(env, v, step).Some? ==>
               var child, inner := Child(env, v, step).value, context || Opens(env, v, step);
               LeadsTo(env, child, inner, rest, e) <==> Contributes(env, child, inner, rest, e)
    ensures LeadsTo(env, v, context, [step] + rest, e) <==> Contributes(env, v, context, [step] + rest, e)
  {
    assert ([step] + rest)[1..] == rest;
    if Child(env, v, step).Some? {
      ContributesSplits(env, v, context, step, rest, e);
    }
  }

  lemma {:induction false} LeadsToIff(env: Env, v: Json, context: bool, path: Path, e: Emission)
    ensures LeadsTo(env, v, context, path, e) <==> Contributes(env, v, context, path, e)
    decreases |path|
  {
    if path == [] {
      ContributesHere(env, v, context, e);
    } else {
      var step, rest := path[0], path[1..];
      if Child(env, v, step).Some? {
        LeadsToIff(env, Child(env, v, step).value, context || Opens(env, v, step), rest, e);
      }
      LeadsToNext(env, v, context, step, rest, e);
      assert path == [step] + rest;
    }
  }

  /** Everything on a path of permitted length is emitted. */
  lemma {:induction false} WalkComplete(env: Env, v: Json, context: bool, depth: nat, path: Path, e: Emission)
    requires |path| + depth <= MAX_DEPTH && LeadsTo(env, v, context, path, e)
    ensures e in Emit(env, v, context, depth)
    decreases |path|
  {
    if path == [] {
      GivenIsEmitted(env, v, context, depth, e);
    } else {
      var child, inner := Child(env, v, path[0]).value, context || Opens(env, v, path[0]);
      WalkComplete(env, child, inner, depth + 1, path[1..], e);
      ChildIsEmitted(env, v, path[0], context, depth, e);
    }
  }

  lemma {:induction false} FromItems(
    env: Env, items: seq<Json>, context: bool, depth: nat, e: Emission) returns (i: nat)
    requires depth <= MAX_DEPTH && e in EmitItems(env, items, context, depth)
    ensures i < |items|
    ensures (context && Ranked(env, items, i, e)) || e in Emit(env, items[i], context, depth + 1)
    decreases |items|
  {
    if e in EmitItems(env, items[..|items| - 1], context, depth) {
      i := FromItems(env, items[..|items| - 1], context, depth, e);
    } else {
      i := |items| - 1;
    }
  }

  lemma {:induction false} FromFields(
    env: Env, fields: seq<Field>, context: bool, depth: nat, e: Emission) returns (i: nat)
    requires depth <= MAX_DEPTH && e in EmitFields(env, fields, context, depth)
    ensures i < |fields| && e in Emit(env, fields[i].value, context || NamesResults(fields[i].name), depth + 1)
    decreases |fields|
  {
    if e in EmitFields(env, fields[..|fields| - 1], context, depth) {
      i := FromFields(env, fields[..|fields| - 1], context, depth, e);
    } else {
      i := |fields| - 1;
    }
  }

  /** Where an emission comes from: the node itself, or one of its children. */
  lemma EmittedFrom(env: Env, v: Json, context: bool, depth: nat, e: Emission) returns (step: Option<PathStep>)
    requires e in Emit(env, v, context, depth)
    ensures depth <= MAX_DEPTH
    ensures step.None? ==> Gives(env, v, context, e)
    ensures step.Some? ==> (Child(env, v, step.value).Some?
      && e in Emit(env, Child(env, v, step.value).value, context || Opens(env, v, step.value), depth + 1))
  {
    if v.Str? {
      step := Some(Inside);
    } else if v.Arr? {
      var i := FromItems(env, v.items, context, depth, e);
      step := if context && Ranked(env, v.items, i, e) then None else Some(Item(i));
    } else if e in Own(env, v.fields, context) {
      step := None;
    } else {
      var i := FromFields(env, v.fields, context || LooksLikeSearchBlock(env, v.fields), depth, e);
      step := Some(Member(i));
    }
  }

  /** Everything emitted lies on a path of permitted length. */
  lemma {:induction false} WalkSound(env: Env, v: Json, context: bool, depth: nat, e: Emission) returns (path: Path)
    requires e in Emit(env, v, context, depth)
    ensures |path| + depth <= MAX_DEPTH && LeadsTo(env, v, context, path, e)
    decreases Fuel(depth)
  {
    var step := EmittedFrom(env, v, context, depth, e);
    if step.None? {
      path := [];
    } else {
      var rest := WalkSound(env, Child(env, v, step.value).value, context || Opens(env, v, step.value), depth + 1, e);
      path := [step.value] + rest;
      assert path[1..] == rest;
    }
  }

  /**
   * The walk refines its declarative reading: something is emitted exactly when some path of permitted length leads
   * to it and passes through a search block or a search-result member.
   */
  lemma WalkExact(env: Env, v: Json, context: bool, depth: nat, e: Emission)
    ensures e in Emit(env, v, context, depth) <==>
            exists path :: |path| + depth <= MAX_DEPTH && Contributes(env, v, context, path, e)
  {
    if e in Emit(env, v, context, depth) {
      var path := WalkSound(env, v, context, depth, e);
      LeadsToIff(env, v, context, path, e);
    }
    if path :| |path| + depth <= MAX_DEPTH && Contributes(env, v, context, path, e) {
      LeadsToIff(env, v, context, path, e);
      WalkComplete(env, v, context, depth, path, e);
    }
  }

  /** Search context never hides evidence. */
  lemma ContextOnlyAdds(env: Env, v: Json, depth: nat, e: Emission)
    requires e in Emit(env, v, false, depth)
    ensures e in Emit(env, v, true, depth)
  {
    WalkExact(env, v, false, depth, e);
    var path :| |path| + depth <= MAX_DEPTH && Contributes(env, v, false, path, e);
    assert Contributes(env, v, true, path, e);
    WalkExact(env, v, true, depth, e);
  }
}
