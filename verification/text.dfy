/**
 * String helpers the backend gets from JavaScript built-ins: the decimal
 * rendering of a non-negative integer (`Number.prototype.toString`),
 * `Array.prototype.join` and `String.prototype.split` on one separator,
 * hex encoding of random bytes (`Buffer.toString("hex")`), substring search,
 * and the character classes of the regular expressions the routes use.
 */
module Text {

  predicate IsDigit(c: char) { '0' <= c <= '9' }

  predicate AllDigits(s: string) { forall i :: 0 <= i < |s| ==> IsDigit(s[i]) }

  function DigitChar(d: nat): (c: char)
    requires d < 10
    ensures IsDigit(c) && c as int - '0' as int == d
  {
    ('0' as int + d) as char
  }

  /** Decimal rendering of a non-negative integer, without leading zeros. */
  function NatToString(n: nat): (s: string)
    ensures |s| >= 1 && AllDigits(s)
    ensures |s| > 1 ==> s[0] != '0'
    decreases n
  {
    if n < 10 then [DigitChar(n)] else NatToString(n / 10) + [DigitChar(n % 10)]
  }

  /** The value of a string of decimal digits; the inverse of NatToString. */
  function DecimalValue(s: string): nat
    requires AllDigits(s)
    decreases |s|
  {
    if s == [] then 0 else DecimalValue(s[..|s| - 1]) * 10 + (s[|s| - 1] as int - '0' as int)
  }

  lemma {:induction false} DecimalRoundTrip(n: nat)
    ensures DecimalValue(NatToString(n)) == n
    decreases n
  {
    if n >= 10 {
      var s := NatToString(n);
      assert s[..|s| - 1] == NatToString(n / 10);
      DecimalRoundTrip(n / 10);
    }
  }

  lemma NatToStringInjective(a: nat, b: nat)
    ensures NatToString(a) == NatToString(b) ==> a == b
  {
    DecimalRoundTrip(a);
    DecimalRoundTrip(b);
  }

  function Pow10(k: nat): (p: nat)
    ensures p >= 1
  {
    if k == 0 then 1 else 10 * Pow10(k - 1)
  }

  /** A number with k + 1 digits renders to exactly k + 1 characters. */
  lemma {:induction false} NatToStringLength(n: nat, k: nat)
    requires Pow10(k) <= n < Pow10(k + 1)
    ensures |NatToString(n)| == k + 1
    decreases k
  {
    if k > 0 {
      assert n >= 10;
      NatToStringLength(n / 10, k - 1);
    }
  }

  /** `${base}-${n}`: the candidate slug with numeric suffix n. */
  function Suffixed(base: string, n: nat): string
  {
    base + "-" + NatToString(n)
  }

  lemma SuffixedInjective(base: string, a: nat, b: nat)
    ensures Suffixed(base, a) == Suffixed(base, b) ==> a == b
  {
    if Suffixed(base, a) == Suffixed(base, b) {
      assert NatToString(a) == Suffixed(base, a)[|base| + 1..];
      assert NatToString(b) == Suffixed(base, b)[|base| + 1..];
      NatToStringInjective(a, b);
    }
  }

  /** `xs.join(sep)`. */
  function Join(xs: seq<string>, sep: char): string
  {
    if |xs| == 0 then ""
    else if |xs| == 1 then xs[0]
    else xs[0] + [sep] + Join(xs[1..], sep)
  }

  /** `s.split(sep)`: the empty string splits into one empty part. */
  function Split(s: string, sep: char): (parts: seq<string>)
    ensures |parts| >= 1
    ensures forall i :: 0 <= i < |parts| ==> sep !in parts[i]
    decreases |s|
  {
    if |s| == 0 then [""]
    else
      var rest := Split(s[1..], sep);
      if s[0] == sep then [""] + rest else [[s[0]] + rest[0]] + rest[1..]
  }

  lemma {:induction false} SplitWithoutSeparator(a: string, sep: char)
    requires sep !in a
    ensures Split(a, sep) == [a]
    decreases |a|
  {
    if |a| > 0 {
      SplitWithoutSeparator(a[1..], sep);
      assert [a[0]] + a[1..] == a;
    }
  }

  lemma {:induction false} SplitAtFirstSeparator(a: string, b: string, sep: char)
    requires sep !in a
    ensures Split(a + [sep] + b, sep) == [a] + Split(b, sep)
    decreases |a|
  {
    var s := a + [sep] + b;
    if |a| == 0 {
      assert s[1..] == b;
    } else {
      assert s[1..] == a[1..] + [sep] + b;
      SplitAtFirstSeparator(a[1..], b, sep);
      assert [a[0]] + a[1..] == a;
    }
  }

  /** Splitting a joined list gives the list back when no element holds the separator. */
  lemma {:induction false} SplitJoin(xs: seq<string>, sep: char)
    requires |xs| >= 1
    requires forall i :: 0 <= i < |xs| ==> sep !in xs[i]
    ensures Split(Join(xs, sep), sep) == xs
    decreases |xs|
  {
    if |xs| == 1 {
      SplitWithoutSeparator(xs[0], sep);
    } else {
      SplitJoin(xs[1..], sep);
      SplitAtFirstSeparator(xs[0], Join(xs[1..], sep), sep);
      assert [xs[0]] + xs[1..] == xs;
    }
  }

  /** `s.includes(sub)`, the plain reading of SQL `LIKE '%sub%'`. */
  predicate Contains(s: string, sub: string)
  {
    exists i | 0 <= i <= |s| - |sub| :: OccursAt(s, sub, i)
  }

  predicate OccursAt(s: string, sub: string, i: nat)
  {
    i + |sub| <= |s| && s[i..i + |sub|] == sub
  }

  predicate IsLowerHex(c: char) { '0' <= c <= '9' || 'a' <= c <= 'f' }

  function HexDigit(d: bv8): (c: char)
    requires d < 16
    ensures IsLowerHex(c)
  {
    "0123456789abcdef"[d as int]
  }

  /** `buffer.toString("hex")`: two lower-case hex digits per byte. */
  function HexEncode(bytes: seq<bv8>): (s: string)
    ensures |s| == 2 * |bytes|
    ensures forall i :: 0 <= i < |s| ==> IsLowerHex(s[i])
  {
    if bytes == [] then []
    else [HexDigit(bytes[0] >> 4), HexDigit(bytes[0] & 15)] + HexEncode(bytes[1..])
  }

  /** The JavaScript `\s` class (ECMAScript WhiteSpace and LineTerminator). */
  predicate IsJsSpace(c: char)
  {
    var k := c as int;
    (9 <= k <= 13) || k == 32 || k == 0xA0 || k == 0x1680 || (0x2000 <= k <= 0x200A) ||
    k == 0x2028 || k == 0x2029 || k == 0x202F || k == 0x205F || k == 0x3000 || k == 0xFEFF
  }

  /**
   * `/\S+@\S+\.\S+/.test(s)`: somewhere in s a non-space character, an '@',
   * one or more non-space characters, a '.', and a non-space character.
   */
  predicate EmailShaped(s: string)
  {
    exists a | 0 < a < |s| :: EmailShapedAt(s, a)
  }

  /** The '@' of an `\S+@\S+\.\S+` match sits at position a. */
  predicate EmailShapedAt(s: string, a: nat)
    requires 0 < a < |s|
  {
    s[a] == '@' && !IsJsSpace(s[a - 1]) &&
    exists d | a + 1 < d < |s| - 1 :: DomainDotAt(s, a, d)
  }

  /** After the '@' at a, the '.' at d closes a run of non-space characters and a non-space follows. */
  predicate DomainDotAt(s: string, a: nat, d: nat)
    requires a < d < |s| - 1
  {
    s[d] == '.' && !IsJsSpace(s[d + 1]) && forall m | a < m < d :: !IsJsSpace(s[m])
  }

  /** A match needs five characters around an '@', and text added after a match leaves it a match (the pattern is unanchored). */
  lemma EmailShapedBounds(s: string, t: string)
    ensures EmailShaped(s) ==> 5 <= |s| && '@' in s
    ensures EmailShaped(s) ==> EmailShaped(s + t)
  {
    if EmailShaped(s) {
      var a :| 0 < a < |s| && EmailShapedAt(s, a);
      var d :| a + 1 < d < |s| - 1 && DomainDotAt(s, a, d);
      var st := s + t;
      assert forall m | 0 <= m < |s| :: st[m] == s[m];
      assert DomainDotAt(st, a, d);
      assert EmailShapedAt(st, a);
    }
  }

  /** A plain address matches; one with a space inside the domain part, or nothing before the '@', does not. */
  lemma EmailShapedExamples()
    ensures EmailShaped("a@b.c")
    ensures !EmailShaped("a@b c.d")
    ensures !EmailShaped("@bc.d")
  {
    assert DomainDotAt("a@b.c", 1, 3);
    assert EmailShapedAt("a@b.c", 1);
    forall a | 0 < a < |"a@b c.d"| ensures !EmailShapedAt("a@b c.d", a) {
      if a == 1 {
        forall d | a + 1 < d < |"a@b c.d"| - 1 ensures !DomainDotAt("a@b c.d", a, d) {
          assert IsJsSpace("a@b c.d"[3]);
        }
      }
    }
  }

  /** `/^\d+$/.test(s)`: one or more ASCII digits and nothing else. */
  predicate IsDigitString(s: string) { |s| > 0 && AllDigits(s) }
}
