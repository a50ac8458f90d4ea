/** Turning a provider's answer into exit records: reject, abort, deduplicate. */
module ExitExtraction {
  import opened Wrappers
  import opened Sequences
  import opened ProxyRecord
  import opened Text

  datatype ExpiryFormat = Iso8601 | UnixSeconds | UnixMillis

  /**
   * One item of the answer. `host` is `None` when it is not a string, `port` when it is not an integer; `expiresAt`
   * is the value as text.
   */
  datatype RawItem = RawItem(
    id: Option<string>, host: Option<string>, port: Option<int>, scheme: Option<string>,
    expiresAt: Option<string>, username: Option<string>, password: Option<string>)

  /** What the configured source says about every item. */
  datatype Spec = Spec(
    defaultScheme: string, defaultUser: Option<string>, defaultPassword: Option<string>,
    stability: Stability, expiryFormat: Option<ExpiryFormat>)

  /** A parsed URL; `host` includes the port when `port` is not empty. */
  datatype ServerUrl = ServerUrl(
    protocol: string, username: string, password: string, host: string, port: string,
    path: string, query: string, fragment: string)

  /** The URL parser and the reader of expiry times. */
  datatype Env = Env(parse: string -> Option<ServerUrl>, readTime: (string, ExpiryFormat) -> Option<Time>)

  function NormalizeProxyServer(parse: string -> Option<ServerUrl>, value: string): Option<string> {
    var raw := Trim(value);
    if raw == "" then None
    else match parse(raw)
      case None => None
      case Some(url) =>
        if url.protocol != "http:" && url.protocol != "https:" then None
        else if url.username != "" || url.password != "" then None
        else if url.port == "" then None
        else if (url.path != "" && url.path != "/") || url.query != "" || url.fragment != "" then None
        else Some(url.protocol + "//" + url.host)
  }

  function WithoutColon(scheme: string): string {
    if EndsWith(scheme, ":") then scheme[..|scheme| - 1] else scheme
  }

  function BuildProxyServer(
    parse: string -> Option<ServerUrl>, host: Option<string>, port: Option<int>, scheme: string): Option<string>
  {
    var hostText := if host.Some? then Trim(host.value) else "";
    if hostText == "" then None
    else if port.None? || port.value <= 0 || port.value > 65535 then None
    else NormalizeProxyServer(parse, ServerText(hostText, port.value, scheme))
  }

  function ServerText(hostText: string, port: nat, scheme: string): string {
    var bracketed := if ':' in hostText && !StartsWith(hostText, "[") then "[" + hostText + "]" else hostText;
    WithoutColon(LowerAscii(Trim(scheme))) + "://" + bracketed + ":" + Decimal(port)
  }

  /** What becomes of one item before deduplication. */
  datatype Verdict =
    | Rejected(name: string)
    | Aborted(name: string)
    | Accepted(name: string, server: string, user: Option<string>, password: Option<string>, expiresAt: Option<Time>)

  function LabelOf(item: RawItem, index: nat): string {
    if item.id.Some? then item.id.value else "extracted_" + Decimal(index + 1)
  }

  /** The expiry of an item; `Err` when it has one and no format was declared. */
  function ReadExpiry(env: Env, spec: Spec, item: RawItem): Result<Option<Time>, ()> {
    if item.expiresAt.None? || item.expiresAt.value == "" then Ok(None)
    else if spec.expiryFormat.None? then Err(())
    else Ok(env.readTime(Trim(item.expiresAt.value), spec.expiryFormat.value))
  }

  function SchemeOf(spec: Spec, item: RawItem): string {
    if item.scheme.Some? then item.scheme.value else spec.defaultScheme
  }

  function Classify(env: Env, spec: Spec, item: RawItem, index: nat, now: Time): Verdict {
    var name := LabelOf(item, index);
    match BuildProxyServer(env.parse, item.host, item.port, SchemeOf(spec, item))
    case None => Rejected(name)
    case Some(server) =>
      var user := if item.username == Some("") then None else item.username;
      if user.None? != item.password.None? then Aborted(name)
      else match ReadExpiry(env, spec, item)
        case Err(_) => Aborted(name)
        case Ok(expiresAt) =>
          if spec.stability.UntilExpiry? && (expiresAt.None? || expiresAt.value <= now) then Rejected(name)
          else Accepted(name, server, OrElse(user, spec.defaultUser),
            OrElse(item.password, spec.defaultPassword), expiresAt)
  }

  function DedupeKey(v: Verdict): string
    requires v.Accepted?
  {
    v.server + "|" + (if v.user.Some? then v.user.value else "")
  }

  /** The record of an accepted item; `None` when its id is blank or its server does not normalise again. */
  function BuildExit(env: Env, spec: Spec, v: Verdict): Option<Exit>
    requires v.Accepted?
  {
    var id := Trim(v.name);
    match NormalizeProxyServer(env.parse, v.server)
    case None => None
    case Some(server) =>
      if id == "" then None
      else Some(Exit(id, server, spec.stability, v.user, v.password, v.expiresAt, v.name))
  }

  datatype Batch = Batch(exits: seq<Exit>, rejected: seq<string>)

  // ------------------------------------------------------------- specification

  type Acceptance = v: Verdict | v.Accepted? witness Accepted("", "", None, None, None)

  function VerdictsOf(env: Env, spec: Spec, items: seq<RawItem>, now: Time): seq<Verdict> {
    seq(|items|, i requires 0 <= i < |items| => Classify(env, spec, items[i], i, now))
  }

  /** The accepted items, in order, before deduplication. */
  function Survivors(verdicts: seq<Verdict>): seq<Acceptance> {
    if verdicts == [] then []
    else
      var front, v := Survivors(verdicts[..|verdicts| - 1]), verdicts[|verdicts| - 1];
      if v.Accepted? then front + [v] else front
  }

  function Rejections(verdicts: seq<Verdict>): seq<string> {
    if verdicts == [] then []
    else
      var front, v := Rejections(verdicts[..|verdicts| - 1]), verdicts[|verdicts| - 1];
      if v.Rejected? then front + [v.name] else front
  }

  predicate SomeAborts(verdicts: seq<Verdict>) {
    exists i :: 0 <= i < |verdicts| && verdicts[i].Aborted?
  }

  function KeysOf(survivors: seq<Acceptance>): seq<string> {
    seq(|survivors|, i requires 0 <= i < |survivors| => DedupeKey(survivors[i]))
  }

  /** The first survivor of every dedupe key. */
  function Kept(survivors: seq<Acceptance>): seq<Acceptance> {
    if survivors == [] then []
    else
      var n := |survivors| - 1;
      if DedupeKey(survivors[n]) in KeysOf(survivors[..n]) then Kept(survivors[..n])
      else Kept(survivors[..n]) + [survivors[n]]
  }

  /** How many survivors repeat an earlier key. */
  function Repeats(survivors: seq<Acceptance>): nat {
    if survivors == [] then 0
    else
      var n := |survivors| - 1;
      Repeats(survivors[..n]) + (if DedupeKey(survivors[n]) in KeysOf(survivors[..n]) then 1 else 0)
  }

  predicate AllBuildable(env: Env, spec: Spec, kept: seq<Acceptance>) {
    forall i :: 0 <= i < |kept| ==> BuildExit(env, spec, kept[i]).Some?
  }

  function BuildAll(env: Env, spec: Spec, kept: seq<Acceptance>): seq<Exit>
    requires AllBuildable(env, spec, kept)
  {
    seq(|kept|, i requires 0 <= i < |kept| => BuildExit(env, spec, kept[i]).value)
  }

  lemma SurvivorsStep(verdicts: seq<Verdict>, i: nat)
    requires i < |verdicts|
    ensures var v, before := verdicts[i], Survivors(verdicts[..i]);
      && Survivors(verdicts[..i + 1]) == (if v.Accepted? then before + [v] else before)
      && Rejections(verdicts[..i + 1]) == Rejections(verdicts[..i]) + (if v.Rejected? then [v.name] else [])
  {
    assert verdicts[..i + 1][..i] == verdicts[..i];
  }

  lemma KeptStep(survivors: seq<Acceptance>, v: Acceptance)
    ensures KeysOf(survivors + [v]) == KeysOf(survivors) + [DedupeKey(v)]
    ensures Kept(survivors + [v])
            == if DedupeKey(v) in KeysOf(survivors) then Kept(survivors) else Kept(survivors) + [v]
  {
    assert (survivors + [v])[..|survivors|] == survivors;
  }

  lemma {:induction false} KeptGrows(verdicts: seq<Verdict>, i: nat)
    requires i <= |verdicts|
    ensures Kept(Survivors(verdicts[..i])) <= Kept(Survivors(verdicts))
    decreases |verdicts| - i
  {
    if i == |verdicts| {
      assert verdicts[..i] == verdicts;
    } else {
      KeptGrows(verdicts, i + 1);
      SurvivorsStep(verdicts, i);
      if verdicts[i].Accepted? {
        KeptStep(Survivors(verdicts[..i]), verdicts[i]);
      }
    }
  }

  /** A kept survivor that cannot be built spoils the whole batch. */
  lemma UnbuildableStays(env: Env, spec: Spec, verdicts: seq<Verdict>, i: nat, v: Acceptance)
    requires i < |verdicts| && verdicts[i] == v && BuildExit(env, spec, v).None?
    requires DedupeKey(v) !in KeysOf(Survivors(verdicts[..i]))
    ensures !AllBuildable(env, spec, Kept(Survivors(verdicts)))
  {
    SurvivorsStep(verdicts, i);
    KeptStep(Survivors(verdicts[..i]), v);
    KeptGrows(verdicts, i + 1);
    var n := |Kept(Survivors(verdicts[..i]))|;
    assert Kept(Survivors(verdicts[..i + 1]))[n] == v;
    assert Kept(Survivors(verdicts))[n] == v;
  }

  /** What the loop has gathered from the items so far. */
  ghost predicate Gathered(
    env: Env, spec: Spec, verdicts: seq<Verdict>, exits: seq<Exit>, rejected: seq<string>, seen: set<string>)
  {
    && !SomeAborts(verdicts)
    && AllBuildable(env, spec, Kept(Survivors(verdicts)))
    && exits == BuildAll(env, spec, Kept(Survivors(verdicts)))
    && rejected == Rejections(verdicts)
    && forall k :: k in seen <==> k in KeysOf(Survivors(verdicts))
  }

  lemma NoAbortAdded(verdicts: seq<Verdict>, i: nat)
    requires i < |verdicts| && !SomeAborts(verdicts[..i]) && !verdicts[i].Aborted?
    ensures !SomeAborts(verdicts[..i + 1])
  {
    assert forall k :: 0 <= k < i ==> verdicts[..i + 1][k] == verdicts[..i][k];
  }

  lemma RejectionGathered(
    env: Env, spec: Spec, verdicts: seq<Verdict>, i: nat, exits: seq<Exit>, rejected: seq<string>, seen: set<string>)
    requires i < |verdicts| && Gathered(env, spec, verdicts[..i], exits, rejected, seen) && verdicts[i].Rejected?
    ensures Gathered(env, spec, verdicts[..i + 1], exits, rejected + [verdicts[i].name], seen)
  {
    NoAbortAdded(verdicts, i);
    SurvivorsStep(verdicts, i);
  }

  lemma RepeatGathered(
    env: Env, spec: Spec, verdicts: seq<Verdict>, i: nat, exits: seq<Exit>, rejected: seq<string>, seen: set<string>)
    requires i < |verdicts| && Gathered(env, spec, verdicts[..i], exits, rejected, seen)
    requires verdicts[i].Accepted? && DedupeKey(verdicts[i]) in seen
    ensures Gathered(env, spec, verdicts[..i + 1], exits, rejected, seen)
  {
    NoAbortAdded(verdicts, i);
    SurvivorsStep(verdicts, i);
    KeptStep(Survivors(verdicts[..i]), verdicts[i]);
  }

  lemma BuiltOneMore(env: Env, spec: Spec, kept: seq<Acceptance>, v: Acceptance)
    requires AllBuildable(env, spec, kept) && BuildExit(env, spec, v).Some?
    ensures AllBuildable(env, spec, kept + [v])
    ensures BuildAll(env, spec, kept + [v]) == BuildAll(env, spec, kept) + [BuildExit(env, spec, v).value]
  {
  }

  lemma ExitGathered(
    env: Env, spec: Spec, verdicts: seq<Verdict>, i: nat, exits: seq<Exit>, rejected: seq<string>, seen: set<string>)
    requires i < |verdicts| && Gathered(env, spec, verdicts[..i], exits, rejected, seen)
    requires verdicts[i].Accepted? && DedupeKey(verdicts[i]) !in seen && BuildExit(env, spec, verdicts[i]).Some?
    ensures Gathered(env, spec, verdicts[..i + 1], exits + [BuildExit(env, spec, verdicts[i]).value], rejected,
                     seen + {DedupeKey(verdicts[i])})
  {
    NoAbortAdded(verdicts, i);
    SurvivorsStep(verdicts, i);
    KeptStep(Survivors(verdicts[..i]), verdicts[i]);
    BuiltOneMore(env, spec, Kept(Survivors(verdicts[..i])), verdicts[i]);
  }

  /** The loop over the classified items: reject, abort, skip a repeat, or record an exit. */
  method CollectExits(env: Env, spec: Spec, verdicts: seq<Verdict>) returns (r: Result<Batch, string>)
    ensures r.Ok? <==>
      !SomeAborts(verdicts) && AllBuildable(env, spec, Kept(Survivors(verdicts))) && Kept(Survivors(verdicts)) != []
    ensures r.Ok? ==>
      r.value.exits == BuildAll(env, spec, Kept(Survivors(verdicts))) && r.value.rejected == Rejections(verdicts)
  {
    var exits: seq<Exit> := [];
    var rejected: seq<string> := [];
    var seen: set<string> := {};
    for i := 0 to |verdicts|
      invariant Gathered(env, spec, verdicts[..i], exits, rejected, seen)
    {
      var verdict := verdicts[i];
      if verdict.Rejected? {
        RejectionGathered(env, spec, verdicts, i, exits, rejected, seen);
        rejected := rejected + [verdict.name];
        continue;
      }
      if verdict.Aborted? {
        return Err(verdict.name);
      }
      var key := DedupeKey(verdict);
      if key in seen {
        RepeatGathered(env, spec, verdicts, i, exits, rejected, seen);
        continue;
      }
      var exit := BuildExit(env, spec, verdict);
      if exit.None? {
        UnbuildableStays(env, spec, verdicts, i, verdict);
        return Err(verdict.name);
      }
      ExitGathered(env, spec, verdicts, i, exits, rejected, seen);
      seen := seen + {key};
      exits := exits + [exit.value];
    }
    assert verdicts[..|verdicts|] == verdicts;
    if |exits| == 0 {
      return Err("proxy extractor returned no usable exit");
    }
    r := Ok(Batch(exits, rejected));
  }

  /**
   * Normal return is exactly the absence of an aborting item, of a first survivor without a usable id, and of an
   * empty result; the exits are then the records of the first survivor of every key, in order.
   */
  method ExtractProxyExits(env: Env, spec: Spec, items: seq<RawItem>, now: Time) returns (r: Result<Batch, string>)
    ensures var verdicts := VerdictsOf(env, spec, items, now);
      r.Ok? <==>
        !SomeAborts(verdicts) && AllBuildable(env, spec, Kept(Survivors(verdicts))) && Kept(Survivors(verdicts)) != []
    ensures r.Ok? ==>
      var verdicts := VerdictsOf(env, spec, items, now);
      r.value.exits == BuildAll(env, spec, Kept(Survivors(verdicts))) && r.value.rejected == Rejections(verdicts)
  {
    r := CollectExits(env, spec, VerdictsOf(env, spec, items, now));
  }

  // ------------------------------------------------------------------ properties

  lemma {:induction false} KeptCount(survivors: seq<Acceptance>)
    ensures |survivors| == |Kept(survivors)| + Repeats(survivors)
    ensures KeysOf(Kept(survivors)) == FirstSeen(KeysOf(survivors))
    ensures forall v :: v in Kept(survivors) ==> v in survivors
  {
    if survivors == [] {
      assert KeysOf(Kept(survivors)) == FirstSeen(KeysOf(survivors));
    } else {
      var front, v := survivors[..|survivors| - 1], survivors[|survivors| - 1];
      KeptCount(front);
      assert survivors == front + [v];
      KeptStep(front, v);
      assert KeysOf(survivors)[..|front|] == KeysOf(front);
      assert KeysOf(Kept(front) + [v]) == KeysOf(Kept(front)) + [DedupeKey(v)];
    }
  }

  lemma {:induction false} SurvivorsCount(verdicts: seq<Verdict>)
    requires !SomeAborts(verdicts)
    ensures |verdicts| == |Survivors(verdicts)| + |Rejections(verdicts)|
    ensures forall v :: v in Survivors(verdicts) ==> v in verdicts
  {
    if verdicts != [] {
      var n := |verdicts| - 1;
      SurvivorsCount(verdicts[..n]);
      assert verdicts == verdicts[..n] + [verdicts[n]];
    }
  }

  /** Every item is an exit, a rejection or a repeat, and nothing is lost. */
  lemma ItemsConserved(verdicts: seq<Verdict>)
    requires !SomeAborts(verdicts)
    ensures |verdicts| == |Kept(Survivors(verdicts))| + |Rejections(verdicts)| + Repeats(Survivors(verdicts))
  {
    SurvivorsCount(verdicts);
    KeptCount(Survivors(verdicts));
  }

  /** No host contains a bar: it is a forbidden host code point of the URL standard. */
  ghost predicate HostsHaveNoBar(parse: string -> Option<ServerUrl>) {
    forall s :: parse(s).Some? ==> '|' !in parse(s).value.host
  }

  /** Normalising a normalised server changes nothing. */
  ghost predicate NormalServersStay(parse: string -> Option<ServerUrl>) {
    forall s :: NormalizeProxyServer(parse, s).Some? ==>
      NormalizeProxyServer(parse, NormalizeProxyServer(parse, s).value) == NormalizeProxyServer(parse, s)
  }

  lemma ServerHasNoBar(parse: string -> Option<ServerUrl>, value: string)
    requires HostsHaveNoBar(parse) && NormalizeProxyServer(parse, value).Some?
    ensures '|' !in NormalizeProxyServer(parse, value).value
  {
    var url := parse(Trim(value)).value;
    assert '|' !in url.host;
    assert '|' !in url.protocol + "//";
  }

  /** The concatenated dedupe key separates exactly the (server, user) pairs. */
  lemma DedupeKeyInjective(env: Env, spec: Spec, a: RawItem, i: nat, b: RawItem, j: nat, now: Time)
    requires HostsHaveNoBar(env.parse) && spec.defaultUser != Some("")
    requires Classify(env, spec, a, i, now).Accepted? && Classify(env, spec, b, j, now).Accepted?
    ensures var v, w := Classify(env, spec, a, i, now), Classify(env, spec, b, j, now);
      DedupeKey(v) == DedupeKey(w) <==> v.server == w.server && v.user == w.user
  {
    var v, w := Classify(env, spec, a, i, now), Classify(env, spec, b, j, now);
    AcceptedServer(env, spec, a, i, now);
    AcceptedServer(env, spec, b, j, now);
    if DedupeKey(v) == DedupeKey(w) {
      SplitAtFirst(v.server, if v.user.Some? then v.user.value else "",
                   w.server, if w.user.Some? then w.user.value else "", '|');
    }
  }

  lemma BuiltServer(parse: string -> Option<ServerUrl>, host: Option<string>, port: Option<int>, scheme: string)
    requires BuildProxyServer(parse, host, port, scheme).Some?
    ensures exists raw :: NormalizeProxyServer(parse, raw) == BuildProxyServer(parse, host, port, scheme)
  {
    assert NormalizeProxyServer(parse, ServerText(Trim(host.value), port.value, scheme)).Some?;
  }

  lemma AcceptedParts(env: Env, spec: Spec, item: RawItem, i: nat, now: Time)
    requires Classify(env, spec, item, i, now).Accepted?
    ensures var v := Classify(env, spec, item, i, now);
      && BuildProxyServer(env.parse, item.host, item.port, SchemeOf(spec, item)) == Some(v.server)
      && v.user == OrElse(if item.username == Some("") then None else item.username, spec.defaultUser)
  {
  }

  lemma AcceptedServer(env: Env, spec: Spec, item: RawItem, i: nat, now: Time)
    requires HostsHaveNoBar(env.parse) && spec.defaultUser != Some("")
    requires Classify(env, spec, item, i, now).Accepted?
    ensures var v := Classify(env, spec, item, i, now);
      && '|' !in v.server && v.user != Some("")
      && exists raw :: NormalizeProxyServer(env.parse, raw) == Some(v.server)
  {
    AcceptedParts(env, spec, item, i, now);
    var v := Classify(env, spec, item, i, now);
    ServerOfParts(env.parse, item.host, item.port, SchemeOf(spec, item), v.server);
  }

  lemma ServerOfParts(
    parse: string -> Option<ServerUrl>, host: Option<string>, port: Option<int>, scheme: string, server: string)
    requires HostsHaveNoBar(parse) && BuildProxyServer(parse, host, port, scheme) == Some(server)
    ensures '|' !in server && exists raw :: NormalizeProxyServer(parse, raw) == Some(server)
  {
    BuiltServer(parse, host, port, scheme);
    var raw :| NormalizeProxyServer(parse, raw) == Some(server);
    ServerHasNoBar(parse, raw);
  }

  /** An accepted item has both or neither credential and, where expiries are declared, has not expired. */
  lemma AcceptedCredentials(env: Env, spec: Spec, item: RawItem, i: nat, now: Time)
    requires spec.defaultUser.Some? == spec.defaultPassword.Some?
    requires Classify(env, spec, item, i, now).Accepted?
    ensures var v := Classify(env, spec, item, i, now);
      && v.user.Some? == v.password.Some?
      && (spec.stability.UntilExpiry? ==> v.expiresAt.Some? && v.expiresAt.value > now)
  {
  }

  lemma BuiltFields(env: Env, spec: Spec, v: Acceptance, raw: string)
    requires NormalServersStay(env.parse) && NormalizeProxyServer(env.parse, raw) == Some(v.server)
    requires BuildExit(env, spec, v).Some?
    ensures var e := BuildExit(env, spec, v).value;
      e.server == v.server && e.username == v.user && e.password == v.password && e.expiresAt == v.expiresAt
  {
  }

  /**
   * The exits are the first survivors in order, pairwise distinct in (server, user), each with both or neither
   * credential, and none already expired when the source declares expiries.
   */
  lemma ExitsWellFormed(env: Env, spec: Spec, items: seq<RawItem>, now: Time)
    requires HostsHaveNoBar(env.parse) && NormalServersStay(env.parse)
    requires spec.defaultUser != Some("") && spec.defaultUser.Some? == spec.defaultPassword.Some?
    requires !SomeAborts(VerdictsOf(env, spec, items, now))
    requires AllBuildable(env, spec, Kept(Survivors(VerdictsOf(env, spec, items, now))))
    ensures var exits := BuildAll(env, spec, Kept(Survivors(VerdictsOf(env, spec, items, now))));
      && (forall i, j :: 0 <= i < j < |exits| ==>
        exits[i].server != exits[j].server || exits[i].username != exits[j].username)
      && (forall e :: e in exits ==> e.username.Some? == e.password.Some?)
      && (forall e :: e in exits && spec.stability.UntilExpiry? ==> e.expiresAt.Some? && e.expiresAt.value > now)
  {
    var verdicts := VerdictsOf(env, spec, items, now);
    var survivors := Survivors(verdicts);
    var kept := Kept(survivors);
    var exits := BuildAll(env, spec, kept);
    SurvivorsCount(verdicts);
    KeptCount(survivors);
    FirstSeenMember(KeysOf(survivors));
    forall i | 0 <= i < |exits|
      ensures exits[i].server == kept[i].server && exits[i].username == kept[i].user
      ensures exits[i].username.Some? == exits[i].password.Some?
      ensures spec.stability.UntilExpiry? ==> exits[i].expiresAt.Some? && exits[i].expiresAt.value > now
    {
      assert kept[i] in kept;
      var k :| 0 <= k < |verdicts| && verdicts[k] == kept[i];
      AcceptedServer(env, spec, items[k], k, now);
      AcceptedCredentials(env, spec, items[k], k, now);
      var raw :| NormalizeProxyServer(env.parse, raw) == Some(kept[i].server);
      BuiltFields(env, spec, kept[i], raw);
    }
    forall i, j | 0 <= i < j < |exits|
      ensures exits[i].server != exits[j].server || exits[i].username != exits[j].username
    {
      assert KeysOf(kept)[i] != KeysOf(kept)[j];
    }
  }
}
