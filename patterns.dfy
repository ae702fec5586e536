/**
 * The regular expressions of the security filter, hand-coded.
 *
 * Every pattern the filter uses is a sequence of items: a literal text, a
 * run of one character class (`\s+`, `\s*`, `\d+`, `\w+`), or an optional
 * group (`(all\s+)?`, `s?`).  `MatchesFrom` is the backtracking meaning of
 * such a pattern, read off the regex; `MatchAt` is the greedy,
 * non-backtracking matcher that the filter runs.  `MatchAtCorrect` proves
 * the two agree for every pattern that is `GreedySafe`, and the filter's
 * tables are shown to be.
 */
module Patterns {
  import opened Text

  datatype Class = Space | Digit | Word | Just(c: char)

  predicate InClass(c: char, k: Class) {
    match k
    case Space => IsWhitespace(c)
    case Digit => IsDigit(c)
    case Word => IsWordChar(c)
    case Just(x) => c == x
  }

  datatype Item =
    | Lit(text: string)                 // the literal text
    | Run(cls: Class, plus: bool)       // `cls+` when plus holds, `cls*` otherwise
    | Opt(group: string, spaced: bool)  // `(group\s+)?` when spaced holds, `(group)?` otherwise

  type Pattern = seq<Item>

  /** Every character of `s[i..j]` is in class `k`. */
  predicate AllIn(s: string, i: nat, j: nat, k: Class)
    requires i <= j <= |s|
  {
    forall m :: i <= m < j ==> InClass(s[m], k)
  }

  /** The items `p[n..]` match some text of `s` that starts at position `i` (regex semantics). */
  ghost predicate MatchesFrom(p: Pattern, n: nat, s: string, i: nat)
    requires n <= |p| && i <= |s|
    decreases |p| - n, 1
  {
    if n == |p| then true
    else match p[n]
      case Lit(w) => LitAt(s, i, w) && MatchesFrom(p, n + 1, s, i + |w|)
      case Run(k, plus) =>
        exists j :: i <= j <= |s| && (plus ==> i < j) && AllIn(s, i, j, k) && MatchesFrom(p, n + 1, s, j)
      case Opt(w, spaced) =>
        || MatchesFrom(p, n + 1, s, i)
        || (LitAt(s, i, w) &&
            if spaced then SpacesThen(p, n + 1, s, i + |w|) else MatchesFrom(p, n + 1, s, i + |w|))
  }

  /** `\s+` from position `a`, followed by a match of `p[n..]`. */
  ghost predicate SpacesThen(p: Pattern, n: nat, s: string, a: nat)
    requires n <= |p| && a <= |s|
    decreases |p| - n + 1, 0
  {
    exists j :: a < j <= |s| && AllIn(s, a, j, Space) && MatchesFrom(p, n, s, j)
  }

  /** `re.search(p, s)` finds a match: the pattern matches from some position. */
  ghost predicate Occurs(p: Pattern, s: string) {
    exists i :: 0 <= i <= |s| && MatchesFrom(p, 0, s, i)
  }

  /** End of the longest run of class `k` that starts at `i`. */
  function RunEnd(s: string, i: nat, k: Class): (j: nat)
    requires i <= |s|
    ensures i <= j <= |s| && AllIn(s, i, j, k)
    ensures j == |s| || !InClass(s[j], k)
    decreases |s| - i
  {
    if i < |s| && InClass(s[i], k) then RunEnd(s, i + 1, k) else i
  }

  /** A run of `k` that cannot be extended ends where `RunEnd` says. */
  lemma RunEndUnique(s: string, i: nat, j: nat, k: Class)
    requires i <= j <= |s| && AllIn(s, i, j, k)
    requires j == |s| || !InClass(s[j], k)
    ensures RunEnd(s, i, k) == j
  {
  }

  /** The greedy matcher: runs and optional groups take as much as they can, and nothing is undone. */
  function MatchAt(p: Pattern, n: nat, s: string, i: nat): bool
    requires n <= |p| && i <= |s|
    decreases |p| - n
  {
    if n == |p| then true
    else match p[n]
      case Lit(w) => LitAt(s, i, w) && MatchAt(p, n + 1, s, i + |w|)
      case Run(k, plus) =>
        var j := RunEnd(s, i, k);
        (!plus || i < j) && MatchAt(p, n + 1, s, j)
      case Opt(w, spaced) =>
        if LitAt(s, i, w) && (!spaced || RunEnd(s, i + |w|, Space) > i + |w|) then
          MatchAt(p, n + 1, s, if spaced then RunEnd(s, i + |w|, Space) else i + |w|)
        else
          MatchAt(p, n + 1, s, i)
  }

  /** `re.search(p, s) is not None`, computed with the greedy matcher. */
  predicate Search(p: Pattern, s: string) {
    exists i :: 0 <= i <= |s| && MatchAt(p, 0, s, i)
  }

  /** No character is in both classes (a sufficient test). */
  predicate Disjoint(a: Class, b: Class) {
    match (a, b)
    case (Just(x), _) => !InClass(x, b)
    case (_, Just(y)) => !InClass(y, a)
    case (Space, Digit) => true
    case (Space, Word) => true
    case (Digit, Space) => true
    case (Word, Space) => true
    case _ => false
  }

  lemma DisjointSound(c: char, a: Class, b: Class)
    requires Disjoint(a, b) && InClass(c, a)
    ensures !InClass(c, b)
  {
  }

  /** Whatever `p[n..]` matches, it starts with a character outside class `k` (and is not empty). */
  predicate StartsOutside(p: Pattern, n: nat, k: Class)
    requires n <= |p|
    decreases |p| - n
  {
    n < |p| &&
    match p[n]
    case Lit(w) => |w| > 0 && !InClass(w[0], k)
    case Run(k2, plus) => Disjoint(k2, k) && (plus || StartsOutside(p, n + 1, k))
    case Opt(w, _) => |w| > 0 && !InClass(w[0], k) && StartsOutside(p, n + 1, k)
  }

  /**
   * Greedy matching loses nothing: what follows a run cannot start inside
   * the run's class, and what follows an optional group cannot start the
   * way the group does.
   */
  predicate GreedySafeAt(p: Pattern, n: nat)
    requires n < |p|
  {
    match p[n]
    case Lit(_) => true
    case Run(k, _) => n + 1 == |p| || StartsOutside(p, n + 1, k)
    case Opt(w, spaced) =>
      |w| > 0 &&
      (n + 1 == |p| || (StartsOutside(p, n + 1, Just(w[0])) && (spaced ==> StartsOutside(p, n + 1, Space))))
  }

  predicate GreedySafe(p: Pattern) {
    forall n :: 0 <= n < |p| ==> GreedySafeAt(p, n)
  }

  /** A match of a pattern that starts outside `k` begins with a character of the text outside `k`. */
  lemma {:induction false} StartsOutsideBlocks(p: Pattern, n: nat, k: Class, s: string, i: nat)
    requires n <= |p| && i <= |s|
    requires StartsOutside(p, n, k) && MatchesFrom(p, n, s, i)
    ensures i < |s| && !InClass(s[i], k)
    decreases |p| - n
  {
    match p[n]
    case Lit(w) =>
      assert s[i..i + |w|][0] == s[i];
    case Run(k2, plus) =>
      var j :| i <= j <= |s| && (plus ==> i < j) && AllIn(s, i, j, k2) && MatchesFrom(p, n + 1, s, j);
      if i < j {
        DisjointSound(s[i], k2, k);
      } else {
        StartsOutsideBlocks(p, n + 1, k, s, j);
      }
    case Opt(w, _) =>
      if MatchesFrom(p, n + 1, s, i) {
        StartsOutsideBlocks(p, n + 1, k, s, i);
      } else {
        assert s[i..i + |w|][0] == s[i];
      }
  }

  /** The greedy matcher decides exactly the regex semantics. */
  lemma {:induction false} MatchAtCorrect(p: Pattern, n: nat, s: string, i: nat)
    requires GreedySafe(p) && n <= |p| && i <= |s|
    ensures MatchAt(p, n, s, i) == MatchesFrom(p, n, s, i)
    decreases |p| - n, 1
  {
    if n < |p| {
      match p[n]
      case Lit(w) =>
        if LitAt(s, i, w) {
          MatchAtCorrect(p, n + 1, s, i + |w|);
        }
      case Run(_, _) => RunCorrect(p, n, s, i);
      case Opt(_, _) => OptCorrect(p, n, s, i);
    }
  }

  lemma {:induction false} RunCorrect(p: Pattern, n: nat, s: string, i: nat)
    requires GreedySafe(p) && n < |p| && i <= |s| && p[n].Run?
    ensures MatchAt(p, n, s, i) == MatchesFrom(p, n, s, i)
    decreases |p| - n, 0
  {
    var k, plus := p[n].cls, p[n].plus;
    assert GreedySafeAt(p, n);
    var e := RunEnd(s, i, k);
    MatchAtCorrect(p, n + 1, s, e);
    if MatchesFrom(p, n, s, i) {
      var j :| i <= j <= |s| && (plus ==> i < j) && AllIn(s, i, j, k) && MatchesFrom(p, n + 1, s, j);
      if n + 1 == |p| {
        if plus {
          assert InClass(s[i], k);
        }
      } else {
        StartsOutsideBlocks(p, n + 1, k, s, j);
        RunEndUnique(s, i, j, k);
      }
    }
  }

  lemma {:induction false} OptCorrect(p: Pattern, n: nat, s: string, i: nat)
    requires GreedySafe(p) && n < |p| && i <= |s| && p[n].Opt?
    ensures MatchAt(p, n, s, i) == MatchesFrom(p, n, s, i)
    decreases |p| - n, 0
  {
    var w, spaced := p[n].group, p[n].spaced;
    assert GreedySafeAt(p, n);
    var after := i + |w|;
    if LitAt(s, i, w) && (!spaced || RunEnd(s, after, Space) > after) {
      var next := if spaced then RunEnd(s, after, Space) else after;
      MatchAtCorrect(p, n + 1, s, next);
      if MatchesFrom(p, n, s, i) && n + 1 < |p| {
        if MatchesFrom(p, n + 1, s, i) {
          StartsOutsideBlocks(p, n + 1, Just(w[0]), s, i);
          assert false;
        } else if spaced {
          assert SpacesThen(p, n + 1, s, after);
          var j :| after < j <= |s| && AllIn(s, after, j, Space) && MatchesFrom(p, n + 1, s, j);
          StartsOutsideBlocks(p, n + 1, Space, s, j);
          RunEndUnique(s, after, j, Space);
        }
      }
      if spaced && MatchAt(p, n, s, i) {
        assert SpacesThen(p, n + 1, s, after);
      }
    } else {
      MatchAtCorrect(p, n + 1, s, i);
    }
  }

  /** `Search` is `re.search` for a greedy-safe pattern. */
  lemma SearchCorrect(p: Pattern, s: string)
    requires GreedySafe(p)
    ensures Search(p, s) == Occurs(p, s)
  {
    forall i | 0 <= i <= |s| ensures MatchAt(p, 0, s, i) == MatchesFrom(p, 0, s, i) {
      MatchAtCorrect(p, 0, s, i);
    }
  }

  /** The item forces some character of class `k` into every match. */
  predicate Forces(it: Item, k: Class) {
    || (it.Lit? && |it.text| > 0 && InClass(it.text[0], k))
    || (it.Run? && it.plus && it.cls == k)
  }

  /** A text in which a pattern occurs holds a character of every class some item of the pattern forces. */
  lemma {:induction false} MatchHasForcedChar(p: Pattern, n: nat, s: string, i: nat, m: nat, k: Class)
    requires n <= m < |p| && i <= |s|
    requires Forces(p[m], k) && MatchesFrom(p, n, s, i)
    ensures exists j :: 0 <= j < |s| && InClass(s[j], k)
    decreases |p| - n
  {
    match p[n]
    case Lit(w) =>
      if n == m {
        assert s[i..i + |w|][0] == s[i];
        assert InClass(s[i], k);
      } else {
        MatchHasForcedChar(p, n + 1, s, i + |w|, m, k);
      }
    case Run(k2, plus) =>
      var j :| i <= j <= |s| && (plus ==> i < j) && AllIn(s, i, j, k2) && MatchesFrom(p, n + 1, s, j);
      if n == m {
        assert InClass(s[i], k);
      } else {
        MatchHasForcedChar(p, n + 1, s, j, m, k);
      }
    case Opt(w, spaced) =>
      if MatchesFrom(p, n + 1, s, i) {
        MatchHasForcedChar(p, n + 1, s, i, m, k);
      } else if spaced {
        assert SpacesThen(p, n + 1, s, i + |w|);
        var j :| i + |w| < j <= |s| && AllIn(s, i + |w|, j, Space) && MatchesFrom(p, n + 1, s, j);
        MatchHasForcedChar(p, n + 1, s, j, m, k);
      } else {
        MatchHasForcedChar(p, n + 1, s, i + |w|, m, k);
      }
  }
}
