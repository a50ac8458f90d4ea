/** The key an acquire is bound under, and the FNV-1a hash that spreads keys over exits. */
module AssignmentHash {
  import opened Wrappers
  import opened Text

  const WORD: nat := 0x1_0000_0000
  const OFFSET_BASIS: nat := 0x811c9dc5
  const PRIME: nat := 0x01000193
  /** PRIME times this is 1 modulo 2^32. */
  const PRIME_INVERSE: nat := 0x359c449b

  /** Bitwise exclusive or of two natural numbers. */
  function Xor(a: nat, b: nat): nat {
    if a == 0 && b == 0 then 0
    else (if a % 2 == b % 2 then 0 else 1) + 2 * Xor(a / 2, b / 2)
  }

  /** One UTF-16 code unit folded into the hash: exclusive or, then a 32-bit wrapping multiplication. */
  function Mix(hash: nat, unit: nat): nat {
    Xor(hash, unit) * PRIME % WORD
  }

  function HashOf(units: seq<nat>): nat {
    if units == [] then OFFSET_BASIS else Mix(HashOf(units[..|units| - 1]), units[|units| - 1])
  }

  method StableHash(units: seq<nat>) returns (hash: nat)
    ensures hash == HashOf(units)
  {
    hash := OFFSET_BASIS;
    for i := 0 to |units|
      invariant hash == HashOf(units[..i])
    {
      assert units[..i + 1][..i] == units[..i];
      hash := Xor(hash, units[i]);
      hash := hash * PRIME % WORD;
    }
    assert units[..|units|] == units;
  }

  lemma {:induction false} XorUndone(a: nat, b: nat)
    ensures Xor(Xor(a, b), b) == a
  {
    if a != 0 || b != 0 {
      XorUndone(a / 2, b / 2);
      var x := Xor(a, b);
      assert x / 2 == Xor(a / 2, b / 2);
      assert x % 2 == if a % 2 == b % 2 then 0 else 1;
      XorHalves(x, b);
      XorHalves(a, b);
    }
  }

  lemma {:induction false} XorSame(x: nat, a: nat, b: nat)
    ensures Xor(x, a) == Xor(x, b) <==> a == b
  {
    if Xor(x, a) == Xor(x, b) {
      XorSwap(x, a);
      XorSwap(x, b);
      XorUndone(a, x);
      XorUndone(b, x);
    }
  }

  lemma {:induction false} XorSwap(a: nat, b: nat)
    ensures Xor(a, b) == Xor(b, a)
  {
    if a != 0 || b != 0 {
      XorSwap(a / 2, b / 2);
    }
  }

  lemma XorHalves(a: nat, b: nat)
    ensures Xor(a, b) == (if a % 2 == b % 2 then 0 else 1) + 2 * Xor(a / 2, b / 2)
  {
  }

  /** Values that fit in `bits` bits keep fitting. */
  lemma {:induction false} XorFits(a: nat, b: nat, bits: nat)
    requires a < Power(bits) && b < Power(bits)
    ensures Xor(a, b) < Power(bits)
  {
    if bits > 0 && (a != 0 || b != 0) {
      XorFits(a / 2, b / 2, bits - 1);
    }
  }

  function Power(n: nat): nat {
    if n == 0 then 1 else 2 * Power(n - 1)
  }

  lemma WordIsPower()
    ensures Power(32) == WORD
  {
    assert Power(8) == 256;
    assert Power(16) == 256 * Power(8);
    assert Power(24) == 256 * Power(16);
    assert Power(32) == 256 * Power(24);
  }

  lemma TimesPrimeUndone(x: nat)
    requires x < WORD
    ensures x * PRIME % WORD * PRIME_INVERSE % WORD == x
  {
    var q, r := x * PRIME / WORD, x * PRIME % WORD;
    assert r * PRIME_INVERSE == x * PRIME * PRIME_INVERSE - WORD * q * PRIME_INVERSE;
    var k := (PRIME * PRIME_INVERSE - 1) / WORD;
    assert PRIME * PRIME_INVERSE == 1 + k * WORD;
    assert r * PRIME_INVERSE == x + WORD * (x * k - q * PRIME_INVERSE);
  }

  lemma {:induction false} HashFits(units: seq<nat>)
    ensures HashOf(units) < WORD
  {
  }

  /** Code units are below 2^16. */
  predicate Units(units: seq<nat>) {
    forall u :: u in units ==> u < 0x1_0000
  }

  lemma MixSeparates(h: nat, a: nat, g: nat, b: nat)
    requires h < WORD && g < WORD && a < 0x1_0000 && b < 0x1_0000
    ensures Mix(h, a) == Mix(g, b) <==> Xor(h, a) == Xor(g, b)
  {
    WordIsPower();
    XorFits(h, a, 32);
    XorFits(g, b, 32);
    TimesPrimeUndone(Xor(h, a));
    TimesPrimeUndone(Xor(g, b));
  }

  /** Appending the same text never merges or separates two hashes. */
  lemma {:induction false} SuffixKeepsHashesApart(a: seq<nat>, b: seq<nat>, suffix: seq<nat>)
    requires Units(suffix)
    ensures HashOf(a + suffix) == HashOf(b + suffix) <==> HashOf(a) == HashOf(b)
  {
    if suffix == [] {
      assert a + suffix == a && b + suffix == b;
    } else {
      var front, last := suffix[..|suffix| - 1], suffix[|suffix| - 1];
      assert forall u :: u in front ==> u in suffix;
      SuffixKeepsHashesApart(a, b, front);
      assert (a + suffix)[..|a + suffix| - 1] == a + front;
      assert (b + suffix)[..|b + suffix| - 1] == b + front;
      HashFits(a + front);
      HashFits(b + front);
      assert last in suffix;
      MixSeparates(HashOf(a + front), last, HashOf(b + front), last);
      XorUndone(HashOf(a + front), last);
      XorUndone(HashOf(b + front), last);
    }
  }

  /** Two texts that differ in exactly one code unit always hash apart, wherever it stands. */
  lemma OneUnitApart(prefix: seq<nat>, a: nat, b: nat, suffix: seq<nat>)
    requires a != b && a < 0x1_0000 && b < 0x1_0000 && Units(suffix)
    ensures HashOf(prefix + [a] + suffix) != HashOf(prefix + [b] + suffix)
  {
    SuffixKeepsHashesApart(prefix + [a], prefix + [b], suffix);
    assert (prefix + [a])[..|prefix|] == prefix && (prefix + [b])[..|prefix|] == prefix;
    HashFits(prefix);
    MixSeparates(HashOf(prefix), a, HashOf(prefix), b);
    XorSame(HashOf(prefix), a, b);
  }

  // ------------------------------------------------------------ assignment keys

  /** `slot` counts only when it is a positive integer. */
  function SlotIndex(slot: Option<int>): nat {
    if slot.Some? && slot.value > 0 then slot.value else 0
  }

  function OrEmpty(text: Option<string>): string {
    if text.Some? then text.value else ""
  }

  function AssignmentKey(platform: Option<string>, account: Option<string>, slot: Option<int>): string {
    OrEmpty(platform) + "|" + OrEmpty(account) + "|" + Decimal(SlotIndex(slot))
  }

  /** Keys collide exactly when the slot and the joined platform and account agree. */
  lemma KeysCollideIff(
    p: Option<string>, a: Option<string>, s: Option<int>, p': Option<string>, a': Option<string>, s': Option<int>)
    ensures AssignmentKey(p, a, s) == AssignmentKey(p', a', s') <==>
            && SlotIndex(s) == SlotIndex(s')
            && OrEmpty(p) + "|" + OrEmpty(a) == OrEmpty(p') + "|" + OrEmpty(a')
  {
    var head, head' := OrEmpty(p) + "|" + OrEmpty(a), OrEmpty(p') + "|" + OrEmpty(a');
    var n, n' := Decimal(SlotIndex(s)), Decimal(SlotIndex(s'));
    assert AssignmentKey(p, a, s) == head + "|" + n;
    assert AssignmentKey(p', a', s') == head' + "|" + n';
    DecimalDigits(SlotIndex(s));
    DecimalDigits(SlotIndex(s'));
    if AssignmentKey(p, a, s) == AssignmentKey(p', a', s') {
      SplitAtLast(head, n, head', n', '|');
      DecimalInjective(SlotIndex(s), SlotIndex(s'));
    }
  }

  /** With no bar in the platform names, distinct (platform, account, slot) triples get distinct keys. */
  lemma KeysDistinct(
    p: Option<string>, a: Option<string>, s: Option<int>, p': Option<string>, a': Option<string>, s': Option<int>)
    requires '|' !in OrEmpty(p) && '|' !in OrEmpty(p')
    requires AssignmentKey(p, a, s) == AssignmentKey(p', a', s')
    ensures OrEmpty(p) == OrEmpty(p') && OrEmpty(a) == OrEmpty(a') && SlotIndex(s) == SlotIndex(s')
  {
    KeysCollideIff(p, a, s, p', a', s');
    SplitAtFirst(OrEmpty(p), OrEmpty(a), OrEmpty(p'), OrEmpty(a'), '|');
  }

  /** A bar in a platform name lets two different callers share a key. */
  lemma BarredPlatformsCollide()
    ensures AssignmentKey(Some("a|b"), Some("c"), None) == AssignmentKey(Some("a"), Some("b|c"), None)
  {
    assert "a|b" + "|" + "c" == "a" + "|" + "b|c";
  }
}
