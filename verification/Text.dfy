/** The string operations the modelled code relies on. */
module Text {
  /** The characters JavaScript's `trim` and `\s` treat as white space. */
  predicate IsSpace(c: char) {
    || c == ' ' || ('\t' <= c <= '\r') || c == '\U{00A0}' || c == '\U{FEFF}' || c == '\U{1680}'
    || ('\U{2000}' <= c <= '\U{200A}') || c == '\U{2028}' || c == '\U{2029}' || c == '\U{202F}' || c == '\U{205F}'
    || c == '\U{3000}'
  }

  function TrimStart(s: string): string {
    if s != "" && IsSpace(s[0]) then TrimStart(s[1..]) else s
  }

  function TrimEnd(s: string): string {
    if s != "" && IsSpace(s[|s| - 1]) then TrimEnd(s[..|s| - 1]) else s
  }

  function Trim(s: string): string {
    TrimEnd(TrimStart(s))
  }

  /** `s.split(c)` */
  function Split(s: string, c: char): (parts: seq<string>)
    ensures parts != []
  {
    if s == "" then [""]
    else
      var rest := Split(s[1..], c);
      if s[0] == c then [""] + rest else [[s[0]] + rest[0]] + rest[1..]
  }

  /** `parts.join(c)` */
  function Join(parts: seq<string>, c: char): string {
    if parts == [] then ""
    else if |parts| == 1 then parts[0]
    else parts[0] + [c] + Join(parts[1..], c)
  }

  predicate StartsWith(s: string, prefix: string) {
    |prefix| <= |s| && s[..|prefix|] == prefix
  }

  predicate EndsWith(s: string, suffix: string) {
    |suffix| <= |s| && s[|s| - |suffix|..] == suffix
  }

  predicate Contains(s: string, part: string) {
    StartsWith(s, part) || (s != "" && Contains(s[1..], part))
  }

  function LowerChar(c: char): char {
    if 'A' <= c <= 'Z' then (c as int + 32) as char else c
  }

  /** ASCII lower case, which is what a case-insensitive pattern of ASCII letters compares. */
  function LowerAscii(s: string): string {
    seq(|s|, i requires 0 <= i < |s| => LowerChar(s[i]))
  }

  function Digit(n: nat): char
    requires n < 10
  {
    (n + 48) as char
  }

  /** `String(n)` for a non-negative integer. */
  function Decimal(n: nat): string {
    if n < 10 then [Digit(n)] else Decimal(n / 10) + [Digit(n % 10)]
  }

  lemma {:induction false} DecimalDigits(n: nat)
    ensures Decimal(n) != "" && forall c :: c in Decimal(n) ==> '0' <= c <= '9'
  {
    if n >= 10 {
      DecimalDigits(n / 10);
    }
  }

  lemma {:induction false} DecimalInjective(m: nat, n: nat)
    requires Decimal(m) == Decimal(n)
    ensures m == n
  {
    DecimalDigits(m / 10);
    DecimalDigits(n / 10);
    var a, b := Decimal(m), Decimal(n);
    assert a[|a| - 1] == b[|b| - 1];
    assert m % 10 == n % 10;
    if m >= 10 && n >= 10 {
      assert a[..|a| - 1] == Decimal(m / 10) && b[..|b| - 1] == Decimal(n / 10);
      DecimalInjective(m / 10, n / 10);
    }
  }

  /** The last occurrence of a separator splits a text in only one way. */
  lemma SplitAtLast(a: string, b: string, a': string, b': string, c: char)
    requires a + [c] + b == a' + [c] + b' && c !in b && c !in b'
    ensures a == a' && b == b'
  {
    var s := a + [c] + b;
    var x, x' := s[|a|], s[|a'|];
    assert |a| < |a'| ==> x' in b;
    assert |a'| < |a| ==> x in b';
    assert a == s[..|a|] && a' == s[..|a'|];
    assert b == s[|a| + 1..] && b' == s[|a'| + 1..];
  }

  /** The first occurrence of a separator splits a text in only one way. */
  lemma SplitAtFirst(a: string, b: string, a': string, b': string, c: char)
    requires a + [c] + b == a' + [c] + b' && c !in a && c !in a'
    ensures a == a' && b == b'
  {
    var s := a + [c] + b;
    var x, x' := s[|a|], s[|a'|];
    assert |a| < |a'| ==> x in a';
    assert |a'| < |a| ==> x' in a;
    assert a == s[..|a|] && a' == s[..|a'|];
    assert b == s[|a| + 1..] && b' == s[|a'| + 1..];
  }

  lemma {:induction false} SplitNone(s: string, c: char)
    requires c !in s
    ensures Split(s, c) == [s]
  {
    if s != "" {
      assert s[0] in s;
      assert forall x :: x in s[1..] ==> x in s;
      SplitNone(s[1..], c);
      assert s == [s[0]] + s[1..];
    }
  }

  lemma SplitCons(x: char, s: string, c: char)
    ensures Split([x] + s, c) == if x == c then [""] + Split(s, c) else [[x] + Split(s, c)[0]] + Split(s, c)[1..]
  {
    assert ([x] + s)[1..] == s;
  }

  lemma FirstOfBoth(x: char, p: seq<string>, q: seq<string>)
    requires p != []
    ensures [[x] + (p + q)[0]] + (p + q)[1..] == [[x] + p[0]] + p[1..] + q
    ensures [""] + (p + q) == [""] + p + q
  {
  }

  lemma {:induction false} SplitJoined(a: string, b: string, c: char)
    ensures Split(a + [c] + b, c) == Split(a, c) + Split(b, c)
  {
    var s := a + [c] + b;
    if a == "" {
      assert s[1..] == b;
    } else {
      SplitJoined(a[1..], b, c);
      var tail := a[1..] + [c] + b;
      assert a == [a[0]] + a[1..] && s == [a[0]] + tail;
      SplitCons(a[0], a[1..], c);
      SplitCons(a[0], tail, c);
      FirstOfBoth(a[0], Split(a[1..], c), Split(b, c));
    }
  }

  lemma {:induction false} SplitOfJoin(parts: seq<string>, c: char)
    requires parts != [] && forall part :: part in parts ==> c !in part
    ensures Split(Join(parts, c), c) == parts
  {
    assert parts[0] in parts;
    SplitNone(parts[0], c);
    if |parts| > 1 {
      assert forall part :: part in parts[1..] ==> part in parts;
      SplitOfJoin(parts[1..], c);
      SplitJoined(parts[0], Join(parts[1..], c), c);
    }
  }

  lemma TrimsToItself(s: string)
    requires s != "" && !IsSpace(s[0]) && !IsSpace(s[|s| - 1])
    ensures Trim(s) == s
  {
  }
}
