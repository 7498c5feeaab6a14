/**
 * Slug allocation shared by accounts and reports: the account normaliser of
 * `userModel.generateUniqueSlug`, and the reference definition of the slug
 * the probe loops pick (the base if it is free, otherwise `base-N` for the
 * smallest N >= 1 whose candidate is free).
 */
module Slugs {
  import opened Text

  /** `String.prototype.toLowerCase` on ASCII letters. */
  function LowerAscii(c: char): (r: char)
    ensures !('A' <= r <= 'Z')
    ensures 'A' <= c <= 'Z' ==> r as int == c as int + 32
    ensures !('A' <= c <= 'Z') ==> r == c
  {
    if 'A' <= c <= 'Z' then (c as int + 32) as char else c
  }

  /** The regular-expression class `[\w-]`. */
  predicate IsWordOrHyphen(c: char)
  {
    'a' <= c <= 'z' || 'A' <= c <= 'Z' || '0' <= c <= '9' || c == '_' || c == '-'
  }

  /** The characters a normalised slug may contain: `[a-z0-9_-]`. */
  predicate IsSlugChar(c: char)
  {
    'a' <= c <= 'z' || '0' <= c <= '9' || c == '_' || c == '-'
  }

  /**
   * `name.toLowerCase().replace(/ /g, "-").replace(/[^\w-]+/g, "")`. Each
   * step acts on one character at a time, so the three passes are one pass.
   */
  function Normalize(name: string): (slug: string)
    ensures |slug| <= |name|
    ensures forall i :: 0 <= i < |slug| ==> IsSlugChar(slug[i])
    ensures name == [] ==> slug == []
    ensures |name| == 1 ==> slug == NormalizeChar(name[0])
  {
    if name == [] then [] else NormalizeChar(name[0]) + Normalize(name[1..])
  }

  /**
   * What the three passes leave of one character: a space becomes `-`, an
   * upper-case letter its lower-case form, a slug character itself, and
   * anything else outside `[\w-]` nothing.
   */
  function NormalizeChar(ch: char): (r: string)
    ensures |r| <= 1
    ensures forall i :: 0 <= i < |r| ==> IsSlugChar(r[i])
    ensures ch == ' ' ==> r == "-"
    ensures 'A' <= ch <= 'Z' ==> r == [LowerAscii(ch)]
    ensures IsSlugChar(ch) ==> r == [ch]
    ensures ch != ' ' && !IsWordOrHyphen(ch) ==> r == []
  {
    var lower := LowerAscii(ch);
    var c := if lower == ' ' then '-' else lower;
    if IsWordOrHyphen(c) then [c] else []
  }

  lemma {:induction false} NormalizeAppend(a: string, b: string)
    ensures Normalize(a + b) == Normalize(a) + Normalize(b)
    decreases |a|
  {
    if a == [] {
      assert a + b == b;
    } else {
      assert (a + b)[0] == a[0] && (a + b)[1..] == a[1..] + b;
      NormalizeAppend(a[1..], b);
      calc {
        Normalize(a + b);
        NormalizeChar(a[0]) + Normalize(a[1..] + b);
        NormalizeChar(a[0]) + (Normalize(a[1..]) + Normalize(b));
        Normalize(a) + Normalize(b);
      }
    }
  }

  /** The base slug of `${firstName} ${lastName}`: the space becomes the one hyphen between the two parts. */
  lemma FullNameSlug(firstName: string, lastName: string)
    ensures Normalize(firstName + " " + lastName) == Normalize(firstName) + "-" + Normalize(lastName)
  {
    NormalizeAppend(firstName + " ", lastName);
    NormalizeAppend(firstName, " ");
    assert Normalize(" ") == "-";
  }

  /** A string that is already a slug normalises to itself. */
  lemma {:induction false} NormalizeKeepsSlugs(s: string)
    requires forall i :: 0 <= i < |s| ==> IsSlugChar(s[i])
    ensures Normalize(s) == s
    decreases |s|
  {
    if s != [] {
      NormalizeKeepsSlugs(s[1..]);
      assert [s[0]] + s[1..] == s;
    }
  }

  lemma NormalizeIdempotent(s: string)
    ensures Normalize(Normalize(s)) == Normalize(s)
  {
    NormalizeKeepsSlugs(Normalize(s));
  }

  /** s is a candidate `base-k` with k >= c. */
  ghost predicate SuffixFrom(taken: set<string>, base: string, s: string, c: nat)
  {
    s in taken && exists k: nat :: c <= k && s == Suffixed(base, k)
  }

  /** The taken candidates the probe loop starting at c may still meet; it shrinks at every step. */
  ghost function PendingCandidates(taken: set<string>, base: string, c: nat): set<string>
  {
    set s | s in taken && SuffixFrom(taken, base, s, c)
  }

  lemma ProbeShrinks(taken: set<string>, base: string, c: nat)
    requires Suffixed(base, c) in taken
    ensures PendingCandidates(taken, base, c + 1) < PendingCandidates(taken, base, c)
  {
    var s := Suffixed(base, c);
    assert SuffixFrom(taken, base, s, c);
    forall k: nat | c + 1 <= k ensures s != Suffixed(base, k) {
      SuffixedInjective(base, c, k);
    }
    assert s !in PendingCandidates(taken, base, c + 1);
    forall t | t in PendingCandidates(taken, base, c + 1) ensures t in PendingCandidates(taken, base, c) {
      var k: nat :| c + 1 <= k && t == Suffixed(base, k);
      assert SuffixFrom(taken, base, t, c);
    }
  }

  /** The first free candidate `base-n` with n >= c, found by probing c, c + 1, ... */
  function SmallestFreeSuffix(taken: set<string>, base: string, c: nat): (n: nat)
    ensures c <= n
    ensures Suffixed(base, n) !in taken
    ensures forall j :: c <= j < n ==> Suffixed(base, j) in taken
    decreases PendingCandidates(taken, base, c)
  {
    if Suffixed(base, c) in taken then
      ProbeShrinks(taken, base, c);
      SmallestFreeSuffix(taken, base, c + 1)
    else c
  }

  /** Any n past which every candidate from c is taken, and which is free itself, is the smallest free suffix. */
  lemma SmallestFreeSuffixUnique(taken: set<string>, base: string, c: nat, n: nat)
    requires c <= n && Suffixed(base, n) !in taken
    requires forall j :: c <= j < n ==> Suffixed(base, j) in taken
    ensures n == SmallestFreeSuffix(taken, base, c)
  {
    var m := SmallestFreeSuffix(taken, base, c);
  }

  /** The slug allocation assigns, given the slugs `taken` when it looks. */
  function ChosenSlug(taken: set<string>, base: string): (s: string)
    ensures s !in taken
    ensures base !in taken ==> s == base
  {
    if base in taken then Suffixed(base, SmallestFreeSuffix(taken, base, 1)) else base
  }

  /** When the base is taken, the chosen slug is `base-N` with N the smallest free suffix from 1. */
  lemma ChosenSlugIsSmallestFree(taken: set<string>, base: string)
    requires base in taken
    ensures exists n: nat ::
      && 1 <= n && ChosenSlug(taken, base) == Suffixed(base, n)
      && (forall j :: 1 <= j < n ==> Suffixed(base, j) in taken)
  {
    var n := SmallestFreeSuffix(taken, base, 1);
    assert ChosenSlug(taken, base) == Suffixed(base, n);
  }

  /** The chosen slug is never the base when the base is already held. */
  lemma TakenBaseGetsSuffix(taken: set<string>, base: string)
    requires base in taken
    ensures ChosenSlug(taken, base) != base
  {
  }
}
