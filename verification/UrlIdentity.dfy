/** The canonical form under which two URLs count as the same resource. */
module UrlIdentity {
  import opened Wrappers
  import opened Text
  import opened HostLabels

  datatype Param = Param(key: string, value: string)

  /** A parsed http(s) URL with decoded query parameters; `rest` is its user info, port and path. */
  datatype Url = Url(protocol: string, hostname: string, rest: string, params: seq<Param>, fragment: string)

  /** `parse` is the URL parser, `collate` is `localeCompare` and `lower` is `toLowerCase`. */
  datatype Env = Env(parse: string -> Option<Url>, collate: (string, string) -> int, lower: string -> string)

  const TRACKING_PARAMS := {
    "fbclid", "gclid", "dclid", "gbraid", "wbraid", "msclkid", "igshid", "yclid", "twclid", "vero_id", "vero_conv",
    "mc_cid", "mc_eid", "_ga", "_gl", "ref_src", "spm", "spm_id_from", "vd_source", "share_source", "share_medium",
    "from_source", "src"
  }

  predicate IsTrackingParam(lower: string -> string, key: string) {
    StartsWith(lower(key), "utm_") || lower(key) in TRACKING_PARAMS
  }

  /** How two parameters are ordered: by key, and by value under the same key. */
  function Compare(collate: (string, string) -> int, a: Param, b: Param): int {
    if a.key == b.key then collate(a.value, b.value) else collate(a.key, b.key)
  }

  /** `x` placed behind the last parameter that does not come after it. */
  function Insert(collate: (string, string) -> int, s: seq<Param>, x: Param): seq<Param> {
    if s == [] then [x]
    else if Compare(collate, s[|s| - 1], x) <= 0 then s + [x]
    else Insert(collate, s[..|s| - 1], x) + [s[|s| - 1]]
  }

  /** A stable sort. */
  function Sort(collate: (string, string) -> int, s: seq<Param>): seq<Param> {
    if s == [] then [] else Insert(collate, Sort(collate, s[..|s| - 1]), s[|s| - 1])
  }

  function Untracked(lower: string -> string, params: seq<Param>): seq<Param> {
    if params == [] then []
    else
      var front, last := params[..|params| - 1], params[|params| - 1];
      if IsTrackingParam(lower, last.key) then Untracked(lower, front) else Untracked(lower, front) + [last]
  }

  function WithoutKey(params: seq<Param>, key: string): seq<Param> {
    if params == [] then []
    else
      var front, last := params[..|params| - 1], params[|params| - 1];
      if last.key == key then WithoutKey(front, key) else WithoutKey(front, key) + [last]
  }

  function Canonical(lower: string -> string, collate: (string, string) -> int, url: Url): Url {
    url.(params := Sort(collate, Untracked(lower, url.params)), fragment := "")
  }

  function ParsedHttpUrl(env: Env, raw: string): Option<Url> {
    if raw == "" then None
    else match env.parse(raw)
      case None => None
      case Some(url) => if url.protocol == "http:" || url.protocol == "https:" then Some(url) else None
  }

  /** The canonical form of a raw URL; `None` when it is not an http(s) URL. */
  function CanonicalForm(env: Env, raw: string): Option<Url> {
    match ParsedHttpUrl(env, raw)
    case None => None
    case Some(url) => Some(Canonical(env.lower, env.collate, url))
  }

  function DomainFromUrl(env: Env, raw: string): Option<string> {
    match ParsedHttpUrl(env, raw)
    case None => None
    case Some(url) => Some(LowerAscii(url.hostname))
  }

  predicate IsExternalSourceUrl(env: Env, raw: string) {
    match DomainFromUrl(env, raw)
    case None => false
    case Some(host) => host != "" && !IsInternalHost(host)
  }

  /** The URL object that canonicalisation edits in place. */
  class UrlObject {
    const protocol: string
    const hostname: string
    const rest: string
    var params: seq<Param>
    var fragment: string

    constructor (url: Url)
      ensures View() == url
    {
      protocol, hostname, rest, params, fragment := url.protocol, url.hostname, url.rest, url.params, url.fragment;
    }

    function View(): Url
      reads this
    {
      Url(protocol, hostname, rest, params, fragment)
    }

    method DeleteTrackingParams(lower: string -> string)
      modifies this`params
      ensures params == Untracked(lower, old(params))
    {
      var snapshot := params;
      assert snapshot[0..] == snapshot;
      DeletedNone(lower, snapshot);
      for i := 0 to |snapshot|
        invariant params == Deleted(lower, snapshot, i)
      {
        var key := snapshot[i].key;
        DeletedOne(lower, snapshot, i);
        if IsTrackingParam(lower, key) {
          params := WithoutKey(params, key);
        }
      }
      DeletedAll(lower, snapshot);
    }

    method SortSearchParams(collate: (string, string) -> int)
      modifies this`params
      ensures params == Sort(collate, old(params))
    {
      var entries := params;
      if |entries| < 2 {
        assert |entries| == 1 ==> entries == [entries[0]] && entries[..0] == [];
        return;
      }
      var sorted: seq<Param> := [];
      for i := 0 to |entries|
        invariant sorted == Sort(collate, entries[..i])
      {
        assert entries[..i + 1][..i] == entries[..i];
        sorted := Insert(collate, sorted, entries[i]);
      }
      assert entries[..|entries|] == entries;
      params := [];
      for i := 0 to |sorted|
        invariant params == sorted[..i]
      {
        params := params + [sorted[i]];
      }
    }
  }

  method CanonicalizeUrl(env: Env, raw: string) returns (canonical: Option<Url>)
    ensures canonical == CanonicalForm(env, raw)
  {
    var parsed := ParsedHttpUrl(env, raw);
    if parsed.None? {
      return None;
    }
    var url := new UrlObject(parsed.value);
    url.fragment := "";
    url.DeleteTrackingParams(env.lower);
    url.SortSearchParams(env.collate);
    canonical := Some(url.View());
  }

  // -------------------------------------------------------------- removing trackers

  /** `params` after the first `n` keys of the snapshot have been looked at. */
  function Deleted(lower: string -> string, params: seq<Param>, n: nat): seq<Param>
    requires n <= |params|
  {
    if n == 0 then params
    else if IsTrackingParam(lower, params[n - 1].key) then WithoutKey(Deleted(lower, params, n - 1), params[n - 1].key)
    else Deleted(lower, params, n - 1)
  }

  lemma DeletedNone(lower: string -> string, params: seq<Param>)
    ensures Deleted(lower, params, 0) == params
  {
  }

  lemma DeletedOne(lower: string -> string, params: seq<Param>, i: nat)
    requires i < |params|
    ensures Deleted(lower, params, i + 1)
            == if IsTrackingParam(lower, params[i].key) then WithoutKey(Deleted(lower, params, i), params[i].key)
              else Deleted(lower, params, i)
  {
  }

  /** The parameters whose key is not in `gone`. */
  ghost function Outside(params: seq<Param>, gone: set<string>): seq<Param> {
    if params == [] then []
    else
      var front, last := params[..|params| - 1], params[|params| - 1];
      if last.key in gone then Outside(front, gone) else Outside(front, gone) + [last]
  }

  lemma {:induction false} OutsideStep(params: seq<Param>, gone: set<string>, key: string)
    ensures WithoutKey(Outside(params, gone), key) == Outside(params, gone + {key})
  {
    if params != [] {
      var front, last := params[..|params| - 1], params[|params| - 1];
      OutsideStep(front, gone, key);
      if last.key !in gone {
        assert (Outside(front, gone) + [last])[..|Outside(front, gone)|] == Outside(front, gone);
      }
    }
  }

  ghost function TrackedKeys(lower: string -> string, params: seq<Param>): set<string> {
    set p | p in params && IsTrackingParam(lower, p.key) :: p.key
  }

  lemma {:induction false} DeletedPrefix(lower: string -> string, params: seq<Param>, n: nat)
    requires n <= |params|
    ensures Deleted(lower, params, n) == Outside(params, TrackedKeys(lower, params[..n]))
  {
    if n == 0 {
      OutsideNothing(params, TrackedKeys(lower, params[..0]));
    } else {
      DeletedPrefix(lower, params, n - 1);
      assert params[..n] == params[..n - 1] + [params[n - 1]];
      OutsideStep(params, TrackedKeys(lower, params[..n - 1]), params[n - 1].key);
      if IsTrackingParam(lower, params[n - 1].key) {
        assert TrackedKeys(lower, params[..n]) == TrackedKeys(lower, params[..n - 1]) + {params[n - 1].key};
      } else {
        assert TrackedKeys(lower, params[..n]) == TrackedKeys(lower, params[..n - 1]);
      }
    }
  }

  lemma {:induction false} OutsideNothing(params: seq<Param>, gone: set<string>)
    requires gone == {}
    ensures Outside(params, gone) == params
  {
    if params != [] {
      OutsideNothing(params[..|params| - 1], gone);
      assert params == params[..|params| - 1] + [params[|params| - 1]];
    }
  }

  lemma {:induction false} OutsideTracked(lower: string -> string, params: seq<Param>, gone: set<string>)
    requires forall p :: p in params ==> (p.key in gone <==> IsTrackingParam(lower, p.key))
    ensures Outside(params, gone) == Untracked(lower, params)
  {
    if params != [] {
      assert params == params[..|params| - 1] + [params[|params| - 1]];
      OutsideTracked(lower, params[..|params| - 1], gone);
    }
  }

  lemma DeletedAll(lower: string -> string, params: seq<Param>)
    ensures Deleted(lower, params, |params|) == Untracked(lower, params)
  {
    DeletedPrefix(lower, params, |params|);
    assert params[..|params|] == params;
    OutsideTracked(lower, params, TrackedKeys(lower, params));
  }

  lemma {:induction false} UntrackedFacts(lower: string -> string, params: seq<Param>)
    ensures forall p ::
      multiset(Untracked(lower, params))[p] == if IsTrackingParam(lower, p.key) then 0 else multiset(params)[p]
    ensures forall p :: p in Untracked(lower, params) <==> p in params && !IsTrackingParam(lower, p.key)
  {
    if params != [] {
      var front, last := params[..|params| - 1], params[|params| - 1];
      UntrackedFacts(lower, front);
      assert params == front + [last];
    }
  }

  lemma {:induction false} UntrackedStays(lower: string -> string, params: seq<Param>)
    requires forall p :: p in params ==> !IsTrackingParam(lower, p.key)
    ensures Untracked(lower, params) == params
  {
    if params != [] {
      assert params == params[..|params| - 1] + [params[|params| - 1]];
      UntrackedStays(lower, params[..|params| - 1]);
    }
  }

  // ------------------------------------------------------------------------ sorting

  /** Swapping the arguments of the comparison flips its sign. */
  ghost predicate Antisymmetric(collate: (string, string) -> int) {
    forall a, b :: collate(a, b) < 0 <==> collate(b, a) > 0
  }

  ghost predicate Transitive(collate: (string, string) -> int) {
    forall a, b, c :: collate(a, b) <= 0 && collate(b, c) <= 0 ==> collate(a, c) <= 0
  }

  ghost predicate Ascending(collate: (string, string) -> int, s: seq<Param>) {
    forall i :: 0 < i < |s| ==> Compare(collate, s[i - 1], s[i]) <= 0
  }

  lemma {:induction false} InsertMembers(collate: (string, string) -> int, s: seq<Param>, x: Param)
    ensures multiset(Insert(collate, s, x)) == multiset(s) + multiset{x}
  {
    if s != [] && Compare(collate, s[|s| - 1], x) > 0 {
      InsertMembers(collate, s[..|s| - 1], x);
      assert s == s[..|s| - 1] + [s[|s| - 1]];
    }
  }

  lemma {:induction false} InsertAscends(collate: (string, string) -> int, s: seq<Param>, x: Param)
    requires Antisymmetric(collate) && Ascending(collate, s)
    ensures |Insert(collate, s, x)| == |s| + 1
    ensures Ascending(collate, Insert(collate, s, x))
    ensures Insert(collate, s, x)[|s|] == x || (s != [] && Insert(collate, s, x)[|s|] == s[|s| - 1])
  {
    if s != [] && Compare(collate, s[|s| - 1], x) > 0 {
      var front, last := s[..|s| - 1], s[|s| - 1];
      InsertAscends(collate, front, x);
      assert Compare(collate, x, last) <= 0;
      assert front != [] ==> Compare(collate, s[|s| - 2], s[|s| - 1]) <= 0;
    }
  }

  lemma MembersOfFront(s: seq<Param>)
    requires s != []
    ensures multiset(s) == multiset(s[..|s| - 1]) + multiset{s[|s| - 1]}
  {
    assert s == s[..|s| - 1] + [s[|s| - 1]];
  }

  lemma {:induction false} SortMembers(collate: (string, string) -> int, s: seq<Param>)
    ensures multiset(Sort(collate, s)) == multiset(s)
  {
    if s != [] {
      var front, last := s[..|s| - 1], s[|s| - 1];
      SortMembers(collate, front);
      InsertMembers(collate, Sort(collate, front), last);
      MembersOfFront(s);
    }
  }

  lemma {:induction false} SortAscends(collate: (string, string) -> int, s: seq<Param>)
    requires Antisymmetric(collate)
    ensures Ascending(collate, Sort(collate, s))
  {
    if s != [] {
      SortAscends(collate, s[..|s| - 1]);
      InsertAscends(collate, Sort(collate, s[..|s| - 1]), s[|s| - 1]);
    }
  }

  lemma {:induction false} AscendingStays(collate: (string, string) -> int, s: seq<Param>)
    requires Ascending(collate, s)
    ensures Sort(collate, s) == s
  {
    if s != [] {
      var front := s[..|s| - 1];
      AscendingStays(collate, front);
      assert s == front + [s[|s| - 1]];
      if front != [] {
        assert Compare(collate, s[|s| - 2], s[|s| - 1]) <= 0;
      }
    }
  }

  /** Canonicalising twice is canonicalising once. */
  lemma CanonicalIdempotent(lower: string -> string, collate: (string, string) -> int, url: Url)
    requires Antisymmetric(collate)
    ensures Canonical(lower, collate, Canonical(lower, collate, url)) == Canonical(lower, collate, url)
  {
    var kept := Untracked(lower, url.params);
    var once := Sort(collate, kept);
    UntrackedFacts(lower, url.params);
    SortMembers(collate, kept);
    SortAscends(collate, kept);
    forall p | p in once ensures !IsTrackingParam(lower, p.key) {
      assert p in multiset(once);
      assert p in kept;
    }
    UntrackedStays(lower, once);
    AscendingStays(collate, once);
  }

  /** Canonicalising loses the fragment and the tracking parameters, and nothing else. */
  lemma CanonicalConserves(lower: string -> string, collate: (string, string) -> int, url: Url)
    requires Antisymmetric(collate)
    ensures var c := Canonical(lower, collate, url);
      && c.fragment == "" && c.protocol == url.protocol && c.hostname == url.hostname && c.rest == url.rest
      && Ascending(collate, c.params)
      && forall p :: multiset(c.params)[p] == if IsTrackingParam(lower, p.key) then 0 else multiset(url.params)[p]
  {
    UntrackedFacts(lower, url.params);
    SortMembers(collate, Untracked(lower, url.params));
    SortAscends(collate, Untracked(lower, url.params));
  }

  // ------------------------------------------------------- independence of the order

  /** No two different parameters compare equal. */
  ghost predicate NoTies(collate: (string, string) -> int, s: seq<Param>) {
    forall a, b :: a in s && b in s && a != b ==> Compare(collate, a, b) != 0
  }

  lemma CompareTransitive(collate: (string, string) -> int, s: seq<Param>, a: Param, b: Param, c: Param)
    requires Antisymmetric(collate) && Transitive(collate) && NoTies(collate, s)
    requires a in s && b in s && c in s
    requires Compare(collate, a, b) <= 0 && Compare(collate, b, c) <= 0
    ensures Compare(collate, a, c) <= 0
  {
    assert a.key == c.key && a.key != b.key ==> Compare(collate, a, b) == 0;
  }

  /** Every earlier parameter compares at most equal to every later one. */
  ghost predicate Ordered(collate: (string, string) -> int, s: seq<Param>) {
    forall i, j :: 0 <= i < j < |s| ==> Compare(collate, s[i], s[j]) <= 0
  }

  lemma {:induction false} AscendingPair(collate: (string, string) -> int, s: seq<Param>, i: nat, j: nat)
    requires Antisymmetric(collate) && Transitive(collate) && NoTies(collate, s) && Ascending(collate, s)
    requires i < j < |s|
    ensures Compare(collate, s[i], s[j]) <= 0
    decreases j
  {
    assert Compare(collate, s[j - 1], s[j]) <= 0;
    if i < j - 1 {
      AscendingPair(collate, s, i, j - 1);
      CompareTransitive(collate, s, s[i], s[j - 1], s[j]);
    }
  }

  lemma AscendingIsOrdered(collate: (string, string) -> int, s: seq<Param>)
    requires Antisymmetric(collate) && Transitive(collate) && NoTies(collate, s) && Ascending(collate, s)
    ensures Ordered(collate, s)
  {
    forall i, j | 0 <= i < j < |s| ensures Compare(collate, s[i], s[j]) <= 0 {
      AscendingPair(collate, s, i, j);
    }
  }

  lemma LastIsGreatest(collate: (string, string) -> int, s: seq<Param>, p: Param)
    requires Ordered(collate, s) && p in s && p != s[|s| - 1]
    ensures Compare(collate, p, s[|s| - 1]) <= 0
  {
    var i :| 0 <= i < |s| && s[i] == p;
  }

  lemma SameLength(s: seq<Param>, t: seq<Param>)
    requires multiset(s) == multiset(t)
    ensures |s| == |t|
  {
    assert |multiset(s)| == |s| && |multiset(t)| == |t|;
  }

  lemma SameRemainder(m: multiset<Param>, n: multiset<Param>, x: Param)
    requires m + multiset{x} == n + multiset{x}
    ensures m == n
  {
    assert m == m + multiset{x} - multiset{x};
    assert n == n + multiset{x} - multiset{x};
  }

  lemma SameLast(collate: (string, string) -> int, s: seq<Param>, t: seq<Param>)
    requires Antisymmetric(collate) && NoTies(collate, s) && s != [] && t != []
    requires Ordered(collate, s) && Ordered(collate, t) && multiset(s) == multiset(t)
    ensures s[|s| - 1] == t[|t| - 1]
  {
    SameMembers(s, t);
    var a, b := s[|s| - 1], t[|t| - 1];
    assert a in s && b in t;
    if a != b {
      LastIsGreatest(collate, t, a);
      LastIsGreatest(collate, s, b);
    }
  }

  lemma FrontStaysOrdered(collate: (string, string) -> int, s: seq<Param>)
    requires Ordered(collate, s) && s != []
    ensures Ordered(collate, s[..|s| - 1])
  {
  }

  lemma FrontStaysUntied(collate: (string, string) -> int, s: seq<Param>)
    requires NoTies(collate, s) && s != []
    ensures NoTies(collate, s[..|s| - 1])
  {
    assert forall p :: p in s[..|s| - 1] ==> p in s;
  }

  /** Without ties there is only one ordered arrangement. */
  lemma {:induction false} OrderedUnique(collate: (string, string) -> int, s: seq<Param>, t: seq<Param>)
    requires Antisymmetric(collate) && NoTies(collate, s)
    requires Ordered(collate, s) && Ordered(collate, t) && multiset(s) == multiset(t)
    ensures s == t
    decreases |s|
  {
    SameLength(s, t);
    if s != [] {
      SameLast(collate, s, t);
      var front, front' := s[..|s| - 1], t[..|t| - 1];
      MembersOfFront(s);
      MembersOfFront(t);
      SameRemainder(multiset(front), multiset(front'), s[|s| - 1]);
      FrontStaysOrdered(collate, s);
      FrontStaysOrdered(collate, t);
      FrontStaysUntied(collate, s);
      OrderedUnique(collate, front, front');
      assert s == front + [s[|s| - 1]] && t == front' + [t[|t| - 1]];
    }
  }

  lemma SameMembers(s: seq<Param>, t: seq<Param>)
    requires multiset(s) == multiset(t)
    ensures forall p :: p in s <==> p in t
  {
    forall p ensures p in s <==> p in t {
      assert p in s <==> p in multiset(s);
      assert p in t <==> p in multiset(t);
    }
  }

  /** The occurrences of two given parameters, in order. */
  function Projection(s: seq<Param>, a: Param, b: Param): seq<Param> {
    if s == [] then []
    else
      var front, last := s[..|s| - 1], s[|s| - 1];
      if last == a || last == b then Projection(front, a, b) + [last] else Projection(front, a, b)
  }

  lemma {:induction false} InsertProjection(
    collate: (string, string) -> int, s: seq<Param>, x: Param, a: Param, b: Param)
    requires Antisymmetric(collate) && Compare(collate, a, b) == 0 && Compare(collate, b, a) == 0
    ensures Projection(Insert(collate, s, x), a, b)
            == Projection(s, a, b) + (if x == a || x == b then [x] else [])
  {
    assert Compare(collate, a, a) == 0 && Compare(collate, b, b) == 0;
    if s == [] {
      assert [x][..0] == [];
    } else if Compare(collate, s[|s| - 1], x) <= 0 {
      assert (s + [x])[..|s|] == s;
    } else {
      var front, last := s[..|s| - 1], s[|s| - 1];
      InsertProjection(collate, front, x, a, b);
      var r := Insert(collate, front, x);
      assert (r + [last])[..|r|] == r;
    }
  }

  lemma {:induction false} SortProjection(collate: (string, string) -> int, s: seq<Param>, a: Param, b: Param)
    requires Antisymmetric(collate) && Compare(collate, a, b) == 0 && Compare(collate, b, a) == 0
    ensures Projection(Sort(collate, s), a, b) == Projection(s, a, b)
  {
    if s != [] {
      SortProjection(collate, s[..|s| - 1], a, b);
      InsertProjection(collate, Sort(collate, s[..|s| - 1]), s[|s| - 1], a, b);
    }
  }

  lemma {:induction false} ProjectionConcat(s: seq<Param>, t: seq<Param>, a: Param, b: Param)
    ensures Projection(s + t, a, b) == Projection(s, a, b) + Projection(t, a, b)
  {
    if t == [] {
      assert s + t == s;
    } else {
      ProjectionConcat(s, t[..|t| - 1], a, b);
      assert (s + t)[..|s + t| - 1] == s + t[..|t| - 1];
    }
  }

  /** Two tied parameters come out in the order in which they stood. */
  lemma TieKeepsOrder(collate: (string, string) -> int, a: Param, b: Param, rest: seq<Param>)
    requires Antisymmetric(collate) && a != b && Compare(collate, a, b) == 0
    ensures Sort(collate, [a, b] + rest) != Sort(collate, [b, a] + rest)
  {
    assert Compare(collate, b, a) == 0;
    SortProjection(collate, [a, b] + rest, a, b);
    SortProjection(collate, [b, a] + rest, a, b);
    ProjectionConcat([a, b], rest, a, b);
    ProjectionConcat([b, a], rest, a, b);
    assert [a, b][..1] == [a] && [b, a][..1] == [b] && [a][..0] == [] && [b][..0] == [];
    assert Projection([a], a, b) == [a] && Projection([b], a, b) == [b];
    assert Projection([a, b] + rest, a, b)[0] == a && Projection([b, a] + rest, a, b)[0] == b;
  }

  ghost predicate SameUpToOrder(u: Url, v: Url) {
    u.(params := v.params, fragment := v.fragment) == v && multiset(u.params) == multiset(v.params)
  }

  lemma UntrackedPermutes(lower: string -> string, s: seq<Param>, t: seq<Param>)
    requires multiset(s) == multiset(t)
    ensures multiset(Untracked(lower, s)) == multiset(Untracked(lower, t))
  {
    UntrackedFacts(lower, s);
    UntrackedFacts(lower, t);
  }

  lemma CanonicalOrderFree(lower: string -> string, collate: (string, string) -> int, u: Url, v: Url)
    requires Antisymmetric(collate) && Transitive(collate) && NoTies(collate, Untracked(lower, u.params))
      && SameUpToOrder(u, v)
    ensures Canonical(lower, collate, u) == Canonical(lower, collate, v)
  {
    var s, t := Untracked(lower, u.params), Untracked(lower, v.params);
    UntrackedPermutes(lower, u.params, v.params);
    SortMembers(collate, s);
    SortMembers(collate, t);
    SortAscends(collate, s);
    SortAscends(collate, t);
    SameMembers(s, Sort(collate, s));
    SameMembers(s, Sort(collate, t));
    AscendingIsOrdered(collate, Sort(collate, s));
    AscendingIsOrdered(collate, Sort(collate, t));
    OrderedUnique(collate, Sort(collate, s), Sort(collate, t));
  }

  /** Two tied surviving parameters make the canonical form depend on the order of the query. */
  lemma TieMakesOrderMatter(
    lower: string -> string, collate: (string, string) -> int, u: Url, a: Param, b: Param) returns (v: Url, w: Url)
    requires Antisymmetric(collate) && a != b && Compare(collate, a, b) == 0
    requires a in Untracked(lower, u.params) && b in Untracked(lower, u.params)
    ensures SameUpToOrder(u, v) && SameUpToOrder(u, w) && Canonical(lower, collate, v) != Canonical(lower, collate, w)
  {
    UntrackedFacts(lower, u.params);
    var rest := PutAside(u.params, a, b);
    v, w := u.(params := [a, b] + rest), u.(params := [b, a] + rest);
    UntrackedPair(lower, a, b, rest);
    UntrackedPair(lower, b, a, rest);
    TieKeepsOrder(collate, a, b, Untracked(lower, rest));
    assert Canonical(lower, collate, v).params != Canonical(lower, collate, w).params;
  }

  /**
   * All arrangements of a URL's parameters have one canonical form if and only if no two different surviving
   * parameters collate equal.
   */
  lemma OrderIrrelevantIffNoTies(lower: string -> string, collate: (string, string) -> int, u: Url)
    requires Antisymmetric(collate) && Transitive(collate)
    ensures (forall v :: SameUpToOrder(u, v) ==> Canonical(lower, collate, v) == Canonical(lower, collate, u))
            <==> NoTies(collate, Untracked(lower, u.params))
  {
    if NoTies(collate, Untracked(lower, u.params)) {
      forall v | SameUpToOrder(u, v) ensures Canonical(lower, collate, v) == Canonical(lower, collate, u) {
        CanonicalOrderFree(lower, collate, u, v);
      }
    } else {
      var a, b :| a in Untracked(lower, u.params) && b in Untracked(lower, u.params) && a != b
        && Compare(collate, a, b) == 0;
      var v, w := TieMakesOrderMatter(lower, collate, u, a, b);
    }
  }

  lemma RemoveOne(s: seq<Param>, x: Param) returns (rest: seq<Param>)
    requires x in s
    ensures multiset([x] + rest) == multiset(s)
  {
    var i :| 0 <= i < |s| && s[i] == x;
    rest := s[..i] + s[i + 1..];
    assert s == s[..i] + [x] + s[i + 1..];
  }

  lemma PutAside(params: seq<Param>, a: Param, b: Param) returns (rest: seq<Param>)
    requires a in params && b in params && a != b
    ensures multiset([a, b] + rest) == multiset(params) && multiset([b, a] + rest) == multiset(params)
  {
    var without := RemoveOne(params, a);
    assert multiset(params)[b] == multiset([a] + without)[b] == multiset(without)[b];
    assert b in multiset(params);
    rest := RemoveOne(without, b);
    assert [a, b] + rest == [a] + ([b] + rest);
    assert multiset([a] + without) == multiset{a} + multiset(without);
    assert multiset([a] + ([b] + rest)) == multiset{a} + multiset([b] + rest);
    assert multiset([b, a] + rest) == multiset{a} + multiset([b] + rest);
  }

  lemma {:induction false} UntrackedConcat(lower: string -> string, s: seq<Param>, t: seq<Param>)
    ensures Untracked(lower, s + t) == Untracked(lower, s) + Untracked(lower, t)
  {
    if t == [] {
      assert s + t == s;
    } else {
      UntrackedConcat(lower, s, t[..|t| - 1]);
      assert (s + t)[..|s + t| - 1] == s + t[..|t| - 1];
    }
  }

  lemma UntrackedPair(lower: string -> string, a: Param, b: Param, rest: seq<Param>)
    requires !IsTrackingParam(lower, a.key) && !IsTrackingParam(lower, b.key)
    ensures Untracked(lower, [a, b] + rest) == [a, b] + Untracked(lower, rest)
  {
    UntrackedConcat(lower, [a, b], rest);
    UntrackedStays(lower, [a, b]);
  }

  /** Whatever passes the external-host test has a canonical form. */
  lemma ExternalHasCanonicalForm(env: Env, raw: string)
    ensures IsExternalSourceUrl(env, raw) ==> CanonicalForm(env, raw).Some?
  {
  }
}
