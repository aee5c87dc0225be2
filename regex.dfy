/**
 * The fragment of JavaScript regular expressions the core uses with `RegExp.prototype.test`,
 * as a datatype of patterns with the usual relational meaning: `Matches(p, s, i, j)` holds when
 * some way of matching `p` consumes exactly `s[i..j]`. A `test` succeeds exactly when some
 * start position has such an end; greediness and backtracking order do not change whether a
 * match exists, so they are not modelled here.
 * Patterns are written in lower case; a pattern with the `i` flag is applied to the
 * ASCII-lowercased subject.
 */
module Regex {
  import opened Text

  /** Character classes: `[0-9]`, `\s`, `[abc]` and `[^abc]`. */
  datatype CharClass = Digit | Space | AnyOf(cs: set<char>) | NoneOf(cs: set<char>)

  predicate InClass(cc: CharClass, c: char) {
    match cc
    case Digit => IsDigit(c)
    case Space => IsSpace(c)
    case AnyOf(cs) => c in cs
    case NoneOf(cs) => c !in cs
  }

  /** Every character of `s[i..j]` belongs to `cc`. */
  predicate AllInClass(cc: CharClass, s: string, i: nat, j: nat)
    requires i <= j <= |s|
  {
    forall k | i <= k < j :: InClass(cc, s[k])
  }

  /** `\b` at position `i`: exactly one of the neighbouring characters is a word character. */
  predicate AtBoundary(s: string, i: nat)
    requires i <= |s|
  {
    (i > 0 && IsWordChar(s[i - 1])) != (i < |s| && IsWordChar(s[i]))
  }

  datatype Pat =
    | Lit(w: string)           // the literal characters `w`
    | One(cc: CharClass)       // one character of a class
    | Star(cc: CharClass)      // `cc*`
    | Plus(cc: CharClass)      // `cc+`
    | Opt(p: Pat)              // `(?:p)?`
    | Or(a: Pat, b: Pat)       // `a|b`
    | Then(a: Pat, b: Pat)     // `ab`
    | Boundary                 // `\b`
    | EndOfInput               // `$` without the `m` flag

  /** The concatenation of `ps`, left to right. */
  function Cat(ps: seq<Pat>): Pat {
    if ps == [] then Lit("") else if |ps| == 1 then ps[0] else Then(ps[0], Cat(ps[1..]))
  }

  /** The alternation `ps[0]|ps[1]|...`; the empty alternation matches nothing. */
  function Alt(ps: seq<Pat>): Pat {
    if ps == [] then One(AnyOf({})) else if |ps| == 1 then ps[0] else Or(ps[0], Alt(ps[1..]))
  }

  /** The alternation of the literals `ws`: `w0|w1|...`. */
  function LitAlt(ws: seq<string>): Pat {
    if ws == [] then One(AnyOf({}))
    else if |ws| == 1 then Lit(ws[0])
    else Or(Lit(ws[0]), LitAlt(ws[1..]))
  }

  /** Some way of matching `p` consumes exactly `s[i..j]`. */
  predicate Matches(p: Pat, s: string, i: nat, j: nat)
    requires i <= j <= |s|
    decreases p
  {
    match p
    case Lit(w) => j == i + |w| && OccursAt(s, w, i)
    case One(cc) => j == i + 1 && InClass(cc, s[i])
    case Star(cc) => AllInClass(cc, s, i, j)
    case Plus(cc) => i < j && AllInClass(cc, s, i, j)
    case Opt(q) => j == i || Matches(q, s, i, j)
    case Or(a, b) => Matches(a, s, i, j) || Matches(b, s, i, j)
    case Then(a, b) => exists m :: i <= m <= j && Matches(a, s, i, m) && Matches(b, s, m, j)
    case Boundary => j == i && AtBoundary(s, i)
    case EndOfInput => j == i == |s|
  }

  /** A match of a concatenation splits into a match of each part (restating it at full depth). */
  lemma MatchesThenSplit(a: Pat, b: Pat, s: string, i: nat, j: nat)
    requires i <= j <= |s| && Matches(Then(a, b), s, i, j)
    ensures exists m :: i <= m <= j && Matches(a, s, i, m) && Matches(b, s, m, j)
  {
  }

  /** An alternation of literals consumes exactly one of them. */
  lemma {:induction false} MatchesLitAlt(ws: seq<string>, s: string, i: nat, j: nat)
    requires i <= j <= |s|
    ensures Matches(LitAlt(ws), s, i, j) <==> exists k :: 0 <= k < |ws| && j == i + |ws[k]| && OccursAt(s, ws[k], i)
  {
    if |ws| > 1 {
      MatchesLitAlt(ws[1..], s, i, j);
      if exists k :: 0 <= k < |ws| && j == i + |ws[k]| && OccursAt(s, ws[k], i) {
        var k :| 0 <= k < |ws| && j == i + |ws[k]| && OccursAt(s, ws[k], i);
        if k > 0 {
          assert ws[1..][k - 1] == ws[k];
        }
      }
    }
  }

  /** Some match of `p` starts at `i`. */
  predicate MatchesAt(p: Pat, s: string, i: nat)
    requires i <= |s|
  {
    exists j :: i <= j <= |s| && Matches(p, s, i, j)
  }

  /** `p.test(s)`: some start position, tried from the left, has a match. */
  predicate Test(p: Pat, s: string) {
    SearchFrom(p, s, 0)
  }

  /** Some start position at `i` or after has a match. */
  predicate SearchFrom(p: Pat, s: string, i: nat)
    requires i <= |s|
    decreases |s| - i
  {
    MatchesAt(p, s, i) || (i < |s| && SearchFrom(p, s, i + 1))
  }

  /** The search succeeds exactly when a match starts somewhere at or after `i`. */
  lemma {:induction false} SearchFromIff(p: Pat, s: string, i: nat)
    requires i <= |s|
    ensures SearchFrom(p, s, i) <==> exists j: nat :: i <= j <= |s| && MatchesAt(p, s, j)
    decreases |s| - i
  {
    if i < |s| {
      SearchFromIff(p, s, i + 1);
    }
  }

  /** Every match of `p` contains the literal `w` (a literal every alternative must pass through). */
  function MustContain(p: Pat, w: string): bool {
    match p
    case Lit(v) => v == w
    case Or(a, b) => MustContain(a, w) && MustContain(b, w)
    case Then(a, b) => MustContain(a, w) || MustContain(b, w)
    case _ => false
  }

  lemma {:induction false} MustContainSound(p: Pat, w: string, s: string, i: nat, j: nat)
    requires i <= j <= |s| && Matches(p, s, i, j) && MustContain(p, w)
    ensures exists k: nat :: i <= k && k + |w| <= j && OccursAt(s, w, k)
    decreases p
  {
    match p
    case Lit(v) =>
      assert OccursAt(s, w, i);
    case Or(a, b) =>
      if Matches(a, s, i, j) {
        MustContainSound(a, w, s, i, j);
      } else {
        MustContainSound(b, w, s, i, j);
      }
    case Then(a, b) =>
      var m :| i <= m <= j && Matches(a, s, i, m) && Matches(b, s, m, j);
      if MustContain(a, w) {
        MustContainSound(a, w, s, i, m);
      } else {
        MustContainSound(b, w, s, m, j);
      }
  }

  /** A concatenation passes through every literal one of its parts passes through. */
  lemma {:induction false} CatMustContain(ps: seq<Pat>, w: string, k: nat)
    requires k < |ps| && MustContain(ps[k], w)
    ensures MustContain(Cat(ps), w)
  {
    if |ps| > 1 && k > 0 {
      assert ps[1..][k - 1] == ps[k];
      CatMustContain(ps[1..], w, k - 1);
    }
  }

  /** A pattern that must pass through `w` only succeeds on text that contains `w`. */
  lemma TestMustContain(p: Pat, w: string, s: string)
    requires MustContain(p, w) && Test(p, s)
    ensures Contains(s, w)
  {
    SearchFromIff(p, s, 0);
    var i: nat :| i <= |s| && MatchesAt(p, s, i);
    var j :| i <= j <= |s| && Matches(p, s, i, j);
    MustContainSound(p, w, s, i, j);
  }
}
