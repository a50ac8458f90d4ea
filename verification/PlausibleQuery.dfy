/** Which strings count as search queries, and whether that depends on letter case. */
module PlausibleQuery {
  import opened Text

  predicate IsHexDigit(c: char) {
    ('0' <= c <= '9') || ('a' <= c <= 'f') || ('A' <= c <= 'F')
  }

  predicate IsHan(c: char) {
    '\U{4E00}' <= c <= '\U{9FFF}'
  }

  predicate IsLetter(c: char) {
    ('A' <= c <= 'Z') || ('a' <= c <= 'z') || IsHan(c)
  }

  predicate EndsSentence(c: char) {
    c == '\U{3002}' || c == '\U{FF01}' || c == '\U{FF1F}'
  }

  function Count(p: char -> bool, s: string): nat {
    if s == "" then 0 else Count(p, s[1..]) + if p(s[0]) then 1 else 0
  }

  /** The number of maximal runs of characters that are not white space. */
  function Words(s: string): nat {
    if s == "" then 0
    else Words(s[1..]) + if !IsSpace(s[0]) && (|s| == 1 || IsSpace(s[1])) then 1 else 0
  }

  predicate IsPlausibleQuery(value: string) {
    IsPlausibleText(Trim(value))
  }

  predicate IsPlausibleText(text: string) {
    && text != ""
    && !(|text| >= 16 && forall i :: 0 <= i < |text| ==> IsHexDigit(text[i]))
    && !EndsSentence(text[|text| - 1])
    && Words(text) < 4
    && Count(IsLetter, text) >= 4
    && !(Count(IsHan, text) == |text| && Count(IsHan, text) < 4)
  }

  // ------------------------------------------------------------- ASCII letter case

  /** The test does not look at the case of ASCII letters. */
  ghost predicate IgnoresCase(p: char -> bool) {
    forall c :: p(LowerChar(c)) == p(c)
  }

  lemma LowerTail(s: string)
    requires s != ""
    ensures LowerAscii(s)[1..] == LowerAscii(s[1..]) && LowerAscii(s)[..|s| - 1] == LowerAscii(s[..|s| - 1])
  {
  }

  lemma {:induction false} CountIgnoresCase(p: char -> bool, s: string)
    requires IgnoresCase(p)
    ensures Count(p, LowerAscii(s)) == Count(p, s)
  {
    if s != "" {
      CountIgnoresCase(p, s[1..]);
      LowerTail(s);
    }
  }

  lemma {:induction false} WordsIgnoreCase(s: string)
    ensures Words(LowerAscii(s)) == Words(s)
  {
    if s != "" {
      WordsIgnoreCase(s[1..]);
      LowerTail(s);
    }
  }

  lemma {:induction false} TrimStartIgnoresCase(s: string)
    ensures TrimStart(LowerAscii(s)) == LowerAscii(TrimStart(s))
  {
    if s != "" && IsSpace(s[0]) {
      TrimStartIgnoresCase(s[1..]);
      LowerTail(s);
    }
  }

  lemma {:induction false} TrimEndIgnoresCase(s: string)
    ensures TrimEnd(LowerAscii(s)) == LowerAscii(TrimEnd(s))
  {
    if s != "" && IsSpace(s[|s| - 1]) {
      TrimEndIgnoresCase(s[..|s| - 1]);
      LowerTail(s);
    }
  }

  /** Plausibility ignores the case of ASCII letters. */
  lemma PlausibleIgnoresAsciiCase(q: string)
    ensures IsPlausibleQuery(LowerAscii(q)) == IsPlausibleQuery(q)
  {
    TrimStartIgnoresCase(q);
    TrimEndIgnoresCase(TrimStart(q));
    TextIgnoresCase(Trim(q));
  }

  lemma TextIgnoresCase(text: string)
    ensures IsPlausibleText(LowerAscii(text)) == IsPlausibleText(text)
  {
    WordsIgnoreCase(text);
    CountIgnoresCase(IsLetter, text);
    CountIgnoresCase(IsHan, text);
    HexIgnoresCase(text);
  }

  lemma HexIgnoresCase(s: string)
    ensures (forall i :: 0 <= i < |s| ==> IsHexDigit(LowerAscii(s)[i])) <==>
      (forall i :: 0 <= i < |s| ==> IsHexDigit(s[i]))
  {
    assert forall i :: 0 <= i < |s| ==> IsHexDigit(LowerAscii(s)[i]) == IsHexDigit(s[i]);
  }

  const KELVIN: string := "abc\U{212A}"
  const LATIN: string := "abck"

  /** The Kelvin sign lower-cases to an ASCII letter without being one: the same key, a different verdict. */
  lemma KelvinIsImplausible()
    ensures !IsPlausibleQuery(KELVIN) && IsPlausibleQuery(LATIN)
  {
    var k1, k2, k3 := KELVIN[1..], KELVIN[2..], KELVIN[3..];
    assert k1[1..] == k2 && k2[1..] == k3 && k3[1..] == "";
    assert Trim(KELVIN) == KELVIN;
    assert Count(IsLetter, KELVIN) == 3;
    var l1, l2, l3 := LATIN[1..], LATIN[2..], LATIN[3..];
    assert l1[1..] == l2 && l2[1..] == l3 && l3[1..] == "";
    assert Trim(LATIN) == LATIN;
    assert Count(IsLetter, LATIN) == 4;
    assert Words(LATIN) == 1;
    assert Count(IsHan, LATIN) == 0;
  }
}
