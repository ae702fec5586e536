/**
 * The prompt-injection filter applied to claim text and the output
 * validator applied to the agent's fallback answer.
 *
 * `re.IGNORECASE` is modelled by matching lower-case pattern literals
 * against the ASCII-lowered text; the filter itself lowers the text before
 * tokenising it.
 */
module SecurityFilter {
  import opened Text
  import opened Patterns

  // ---------------------------------------------------------------------
  // Pattern tables (fixed once, never changed)
  // ---------------------------------------------------------------------

  /** `ignore\s+(all\s+)?previous\s+instructions?` */
  const IgnorePrevious: Pattern :=
    [Lit("ignore"), Run(Space, true), Opt("all", true), Lit("previous"), Run(Space, true),
     Lit("instruction"), Opt("s", false)]

  /** `you\s+are\s+now\s+(in\s+)?developer\s+mode` */
  const DeveloperMode: Pattern :=
    [Lit("you"), Run(Space, true), Lit("are"), Run(Space, true), Lit("now"), Run(Space, true),
     Opt("in", true), Lit("developer"), Run(Space, true), Lit("mode")]

  /** `system\s+override` */
  const SystemOverride: Pattern := [Lit("system"), Run(Space, true), Lit("override")]

  /** `reveal\s+prompt` */
  const RevealPrompt: Pattern := [Lit("reveal"), Run(Space, true), Lit("prompt")]

  const DangerousPatterns: seq<Pattern> := [IgnorePrevious, DeveloperMode, SystemOverride, RevealPrompt]

  const FuzzyVocabulary: seq<string> := ["ignore", "bypass", "override", "reveal", "delete", "system"]

  /** `SYSTEM\s*[:]\s*You\s+are` */
  const SystemPromptLeak: Pattern :=
    [Lit("system"), Run(Space, false), Lit(":"), Run(Space, false), Lit("you"), Run(Space, true), Lit("are")]

  /** `instructions?[:]\s*\d+\.` */
  const NumberedInstructions: Pattern :=
    [Lit("instruction"), Opt("s", false), Lit(":"), Run(Space, false), Run(Digit, true), Lit(".")]

  const SuspiciousPatterns: seq<Pattern> := [SystemPromptLeak, NumberedInstructions]

  const MaxResponseLength := 5000

  /** The fixed refusal, written in three pieces so that its characters are easy to inspect. */
  const Refusal := "I cannot provide " + "that information " + "for security reasons."

  lemma IgnorePreviousSafe()
    ensures GreedySafe(IgnorePrevious)
  {
    assert StartsOutside(IgnorePrevious, 2, Space);
    assert StartsOutside(IgnorePrevious, 3, Just('a'));
    assert StartsOutside(IgnorePrevious, 3, Space);
  }

  lemma DeveloperModeSafe()
    ensures GreedySafe(DeveloperMode)
  {
    assert StartsOutside(DeveloperMode, 6, Space);
    assert StartsOutside(DeveloperMode, 7, Just('i'));
    assert StartsOutside(DeveloperMode, 7, Space);
  }

  lemma SuspiciousPatternsSafe()
    ensures GreedySafe(SystemPromptLeak) && GreedySafe(NumberedInstructions)
  {
    assert StartsOutside(NumberedInstructions, 4, Space);
  }

  /** Every table entry can be decided by the greedy matcher. */
  lemma TablesGreedySafe()
    ensures forall p :: p in DangerousPatterns ==> GreedySafe(p)
    ensures forall p :: p in SuspiciousPatterns ==> GreedySafe(p)
  {
    IgnorePreviousSafe();
    DeveloperModeSafe();
    SuspiciousPatternsSafe();
    assert GreedySafe(SystemOverride);
    assert GreedySafe(RevealPrompt);
  }

  // ---------------------------------------------------------------------
  // Tokens: `re.findall(r'\b\w+\b', text)`
  // ---------------------------------------------------------------------

  /** `s[i..j]` is one match of `\b\w+\b`: a maximal run of word characters. */
  ghost predicate IsToken(s: string, i: nat, j: nat) {
    i < j <= |s| && AllIn(s, i, j, Word) &&
    (i == 0 || !IsWordChar(s[i - 1])) && (j == |s| || !IsWordChar(s[j]))
  }

  /** Position `i` is not strictly inside a run of word characters. */
  predicate AtBoundary(s: string, i: nat)
    requires i <= |s|
  {
    i == 0 || i == |s| || !IsWordChar(s[i - 1]) || !IsWordChar(s[i])
  }

  function TokensFrom(s: string, i: nat): seq<string>
    requires i <= |s|
    decreases |s| - i
  {
    if i == |s| then []
    else if !IsWordChar(s[i]) then TokensFrom(s, i + 1)
    else
      var j := RunEnd(s, i, Word);
      [s[i..j]] + TokensFrom(s, j)
  }

  function Tokens(s: string): seq<string> {
    TokensFrom(s, 0)
  }

  lemma {:induction false} TokensFromAreMaximalRuns(s: string, i: nat, t: string)
    requires i <= |s| && AtBoundary(s, i)
    ensures t in TokensFrom(s, i) <==> exists a: nat, b: nat :: i <= a && IsToken(s, a, b) && t == s[a..b]
    decreases |s| - i
  {
    if i == |s| {
    } else if !IsWordChar(s[i]) {
      TokensFromAreMaximalRuns(s, i + 1, t);
      if exists a: nat, b: nat :: i <= a && IsToken(s, a, b) && t == s[a..b] {
        var a: nat, b: nat :| i <= a && IsToken(s, a, b) && t == s[a..b];
        assert a != i by {
          assert InClass(s[a], Word);
        }
      }
    } else {
      var j := RunEnd(s, i, Word);
      assert IsToken(s, i, j);
      TokensFromAreMaximalRuns(s, j, t);
      if exists a: nat, b: nat :: i <= a && IsToken(s, a, b) && t == s[a..b] {
        var a: nat, b: nat :| i <= a && IsToken(s, a, b) && t == s[a..b];
        if a == i {
          RunEndUnique(s, i, b, Word);
        } else {
          assert !InClass(s[a - 1], Word);
          assert j <= a - 1;
        }
      }
    }
  }

  /** The tokens of a text are exactly its maximal runs of word characters. */
  lemma TokensAreMaximalRuns(s: string, t: string)
    ensures t in Tokens(s) <==> exists a: nat, b: nat :: IsToken(s, a, b) && t == s[a..b]
  {
    TokensFromAreMaximalRuns(s, 0, t);
  }

  /** A text made only of word characters is a single token. */
  lemma {:induction false} WordIsSingleToken(s: string)
    requires |s| > 0 && forall c :: c in s ==> IsWordChar(c)
    ensures Tokens(s) == [s]
  {
    assert AllIn(s, 0, |s|, Word) by {
      forall m | 0 <= m < |s| ensures InClass(s[m], Word) {
        assert s[m] in s;
      }
    }
    RunEndUnique(s, 0, |s|, Word);
    assert s[0] in s;
    assert s[0..|s|] == s;
    assert TokensFrom(s, |s|) == [];
    assert TokensFrom(s, 0) == [s[0..|s|]] + TokensFrom(s, |s|);
  }

  // ---------------------------------------------------------------------
  // `_is_similar_word`
  // ---------------------------------------------------------------------

  predicate Sorted(s: string) {
    forall i, j :: 0 <= i < j < |s| ==> s[i] <= s[j]
  }

  /** Every character of `s` is at least `c`. */
  predicate AllAtLeast(s: string, c: char) {
    forall i :: 0 <= i < |s| ==> c <= s[i]
  }

  /** A lower bound of every character carries over to any permutation. */
  lemma BoundByMultiset(r: string, t: string, lo: char)
    requires multiset(r) == multiset(t) && AllAtLeast(t, lo)
    ensures AllAtLeast(r, lo)
  {
    forall k | 0 <= k < |r| ensures lo <= r[k] {
      assert r[k] in multiset(t);
      var m :| 0 <= m < |t| && t[m] == r[k];
    }
  }

  /** A character no greater than any of a sorted string can go in front of it. */
  lemma SortedCons(x: char, r: string)
    requires Sorted(r) && AllAtLeast(r, x)
    ensures Sorted([x] + r)
  {
    var t := [x] + r;
    forall i, j | 0 <= i < j < |t| ensures t[i] <= t[j] {
      assert t[j] == r[j - 1];
      if i > 0 {
        assert t[i] == r[i - 1];
      }
    }
  }

  function Insert(c: char, s: string): (r: string)
    requires Sorted(s)
    ensures Sorted(r) && multiset(r) == multiset(s) + multiset{c}
    decreases |s|
  {
    if s == [] || c <= s[0] then
      assert AllAtLeast(s, c) by {
        forall k | 0 <= k < |s| ensures c <= s[k] {
          assert s[0] <= s[k];
        }
      }
      SortedCons(c, s);
      [c] + s
    else
      SortedTail(s);
      var rest := Insert(c, s[1..]);
      assert s == [s[0]] + s[1..];
      assert multiset(s[1..] + [c]) == multiset(s[1..]) + multiset{c};
      BoundByMultiset(rest, s[1..] + [c], s[0]);
      SortedCons(s[0], rest);
      assert multiset([s[0]] + rest) == multiset{s[0]} + multiset(rest);
      [s[0]] + rest
  }

  /** `sorted(s)`: the characters of `s` in code-point order. */
  function SortChars(s: string): (r: string)
    ensures Sorted(r) && multiset(r) == multiset(s)
    decreases |s|
  {
    if s == [] then []
    else
      assert s == [s[0]] + s[1..];
      Insert(s[0], SortChars(s[1..]))
  }

  /** The first character of a sorted string is its least. */
  lemma SortedHeadIsLeast(a: string, c: char)
    requires Sorted(a) && c in multiset(a)
    ensures a[0] <= c
  {
    var l :| 0 <= l < |a| && a[l] == c;
  }

  /** Dropping the first character removes one occurrence of it. */
  lemma TailMultiset(a: string)
    requires a != []
    ensures multiset(a[1..]) == multiset(a) - multiset{a[0]}
  {
    assert a == [a[0]] + a[1..];
  }

  /** The tail of a sorted string is sorted. */
  lemma SortedTail(a: string)
    requires a != [] && Sorted(a)
    ensures Sorted(a[1..])
  {
    var t := a[1..];
    forall i, j | 0 <= i < j < |t| ensures t[i] <= t[j] {
      assert t[i] == a[i + 1] && t[j] == a[j + 1];
    }
  }

  /** Two sorted permutations start with the same character and continue with sorted permutations. */
  lemma SortedHeads(a: string, b: string)
    requires a != [] && b != [] && Sorted(a) && Sorted(b) && multiset(a) == multiset(b)
    ensures a[0] == b[0] && multiset(a[1..]) == multiset(b[1..])
    ensures Sorted(a[1..]) && Sorted(b[1..])
  {
    assert a[0] in multiset(a) && b[0] in multiset(b);
    SortedHeadIsLeast(a, b[0]);
    SortedHeadIsLeast(b, a[0]);
    assert a[0] == b[0];
    TailMultiset(a);
    TailMultiset(b);
    SortedTail(a);
    SortedTail(b);
  }

  /** A sorted sequence is determined by its multiset of characters. */
  lemma {:induction false} SortedUnique(a: string, b: string)
    requires Sorted(a) && Sorted(b) && multiset(a) == multiset(b)
    ensures a == b
    decreases |a|
  {
    assert |a| == |multiset(a)| == |multiset(b)| == |b|;
    if a != [] {
      SortedHeads(a, b);
      SortedUnique(a[1..], b[1..]);
      assert a == [a[0]] + a[1..];
      assert b == [b[0]] + b[1..];
    }
  }

  /** The characters strictly between the first and the last: `w[1:-1]`. */
  function Interior(w: string): string
    requires |w| >= 2
  {
    w[1..|w| - 1]
  }

  /** `_is_similar_word(word, target)`. */
  predicate IsSimilarWord(word: string, target: string) {
    if |word| != |target| || |word| < 3 then false
    else
      && word[0] == target[0]
      && word[|word| - 1] == target[|target| - 1]
      && SortChars(Interior(word)) == SortChars(Interior(target))
  }

  /** Similar words: same length of at least 3, same ends, interiors equal as multisets. */
  lemma SimilarWordIff(word: string, target: string)
    ensures IsSimilarWord(word, target) <==>
      && |word| == |target| && |word| >= 3
      && word[0] == target[0] && word[|word| - 1] == target[|target| - 1]
      && multiset(Interior(word)) == multiset(Interior(target))
  {
    if |word| == |target| && |word| >= 3 && multiset(Interior(word)) == multiset(Interior(target)) {
      SortedUnique(SortChars(Interior(word)), SortChars(Interior(target)));
    }
  }

  lemma SimilarWordSymmetric(word: string, target: string)
    ensures IsSimilarWord(word, target) == IsSimilarWord(target, word)
  {
  }

  lemma SimilarWordReflexive(word: string)
    requires |word| >= 3
    ensures IsSimilarWord(word, word)
  {
  }

  // ---------------------------------------------------------------------
  // `PromptInjectionFilter.detect_injection`
  // ---------------------------------------------------------------------

  predicate PhraseMatch(text: string) {
    exists p :: p in DangerousPatterns && Search(p, Lower(text))
  }

  predicate FuzzyMatch(text: string) {
    exists w, v :: w in Tokens(Lower(text)) && v in FuzzyVocabulary && IsSimilarWord(w, v)
  }

  predicate DetectInjection(text: string) {
    PhraseMatch(text) || FuzzyMatch(text)
  }

  /** A dangerous phrase is found iff it occurs under the regex semantics. */
  lemma PhraseMatchIff(text: string)
    ensures PhraseMatch(text) <==> exists p :: p in DangerousPatterns && Occurs(p, Lower(text))
  {
    var s := Lower(text);
    TablesGreedySafe();
    forall p | p in DangerousPatterns ensures Search(p, s) == Occurs(p, s) {
      SearchCorrect(p, s);
    }
  }

  /** The fuzzy test fires iff some maximal word run is similar to a vocabulary word. */
  lemma FuzzyMatchIff(text: string)
    ensures FuzzyMatch(text) <==>
      exists a: nat, b: nat, v :: IsToken(Lower(text), a, b) && v in FuzzyVocabulary && IsSimilarWord(Lower(text)[a..b], v)
  {
    var s := Lower(text);
    if FuzzyMatch(text) {
      var w, v :| w in Tokens(s) && v in FuzzyVocabulary && IsSimilarWord(w, v);
      TokensAreMaximalRuns(s, w);
      var a: nat, b: nat :| IsToken(s, a, b) && w == s[a..b];
      assert IsToken(s, a, b) && v in FuzzyVocabulary && IsSimilarWord(s[a..b], v);
    }
    if exists a: nat, b: nat, v :: IsToken(s, a, b) && v in FuzzyVocabulary && IsSimilarWord(s[a..b], v) {
      var a: nat, b: nat, v :| IsToken(s, a, b) && v in FuzzyVocabulary && IsSimilarWord(s[a..b], v);
      TokensAreMaximalRuns(s, s[a..b]);
      assert s[a..b] in Tokens(s);
    }
  }

  /**
   * Injection is detected iff a dangerous phrase occurs in the lowered text
   * under the regex semantics, or some maximal run of word characters of the
   * lowered text is similar to a vocabulary word.
   */
  lemma DetectInjectionIff(text: string)
    ensures DetectInjection(text) <==>
      || (exists p :: p in DangerousPatterns && Occurs(p, Lower(text)))
      || (exists a: nat, b: nat, v :: IsToken(Lower(text), a, b) && v in FuzzyVocabulary && IsSimilarWord(Lower(text)[a..b], v))
  {
    PhraseMatchIff(text);
    FuzzyMatchIff(text);
  }

  /** Upper- or lower-case makes no difference to the verdict. */
  lemma DetectIgnoresCase(a: string, b: string)
    requires Lower(a) == Lower(b)
    ensures DetectInjection(a) == DetectInjection(b)
  {
  }

  /** Every vocabulary word is detected when it appears on its own. */
  lemma VocabularyDetected(v: string)
    requires v in FuzzyVocabulary
    ensures DetectInjection(v)
  {
    assert forall c :: c in v ==> IsLower(c);
    LowerOfLowercase(v);
    WordIsSingleToken(v);
    SimilarWordReflexive(v);
    assert v in Tokens(Lower(v));
  }

  lemma TransposedInterior()
    ensures multiset(Interior("ignroe")) == multiset(Interior("ignore"))
  {
    assert Interior("ignroe") == ['g'] + ['n'] + ['r'] + ['o'];
    assert Interior("ignore") == ['g'] + ['n'] + ['o'] + ['r'];
  }

  /** A transposition inside the word is still caught: "ignroe" is detected. */
  lemma TranspositionDetected()
    ensures DetectInjection("ignroe")
  {
    var t := "ignroe";
    assert forall c :: c in t ==> !IsUpper(c) && IsWordChar(c);
    LowerOfLowercase(t);
    WordIsSingleToken(t);
    TransposedInterior();
    SimilarWordIff(t, "ignore");
    assert "ignore" in FuzzyVocabulary;
    assert t in Tokens(Lower(t));
  }

  /** A pattern whose second item is `\s+` is not found in a text without whitespace. */
  lemma PhraseNeedsSpace(p: Pattern, s: string)
    requires GreedySafe(p) && |p| > 1 && p[1] == Run(Space, true)
    requires forall j :: 0 <= j < |s| ==> !InClass(s[j], Space)
    ensures !Search(p, s)
  {
    SearchCorrect(p, s);
    if i :| 0 <= i <= |s| && MatchesFrom(p, 0, s, i) {
      MatchHasForcedChar(p, 0, s, i, 1, Space);
      assert false;
    }
  }

  /** A text without whitespace contains none of the dangerous phrases. */
  lemma NoPhraseWithoutSpace(text: string)
    requires forall c :: c in text ==> !IsWhitespace(c)
    ensures !PhraseMatch(text)
  {
    var s := Lower(text);
    TablesGreedySafe();
    forall j | 0 <= j < |s| ensures !InClass(s[j], Space) {
      LowerCharKeepsClasses(text[j]);
      assert text[j] in text;
    }
    forall p | p in DangerousPatterns ensures !Search(p, s) {
      assert |p| > 1 && p[1] == Run(Space, true);
      PhraseNeedsSpace(p, s);
    }
  }

  /** No vocabulary word has seven characters. */
  lemma VocabularyLengths()
    ensures forall v :: v in FuzzyVocabulary ==> |v| == 6 || |v| == 8
  {
  }

  /** "ignore5" is lower case, has no whitespace and is a single token. */
  lemma Ignore5IsOneToken()
    ensures Lower("ignore5") == "ignore5" && Tokens("ignore5") == ["ignore5"]
    ensures forall c :: c in "ignore5" ==> !IsWhitespace(c)
  {
    var t := "ignore5";
    assert forall c :: c in t ==> IsWordChar(c) && !IsUpper(c);
    LowerOfLowercase(t);
    WordIsSingleToken(t);
  }

  /** A different length defeats the fuzzy test: "ignore5" is not detected. */
  lemma LengthChangeNotDetected()
    ensures !DetectInjection("ignore5")
  {
    Ignore5IsOneToken();
    NoPhraseWithoutSpace("ignore5");
    VocabularyLengths();
    assert |"ignore5"| == 7;
  }

  // ---------------------------------------------------------------------
  // `OutputValidator`
  // ---------------------------------------------------------------------

  predicate ValidateOutput(output: string) {
    !exists p :: p in SuspiciousPatterns && Search(p, Lower(output))
  }

  /** The validator rejects exactly the texts in which a leak signature occurs, ignoring case. */
  lemma ValidateOutputIff(output: string)
    ensures ValidateOutput(output) <==>
      !Occurs(SystemPromptLeak, Lower(output)) && !Occurs(NumberedInstructions, Lower(output))
  {
    TablesGreedySafe();
    SearchCorrect(SystemPromptLeak, Lower(output));
    SearchCorrect(NumberedInstructions, Lower(output));
  }

  /** A leaked system-prompt line: the first signature the validator looks for. */
  const LeakSample := "system: " + "you are"

  lemma LeakSampleIsLowercase()
    ensures Lower(LeakSample) == LeakSample
  {
    assert forall c :: c in LeakSample ==> c in "system: " || c in "you are";
    LowerOfLowercase(LeakSample);
  }

  /** The greedy matcher accepts "you are" at position 8, after "system: ". */
  lemma LeakSampleTail()
    ensures |LeakSample| == 15 && MatchAt(SystemPromptLeak, 4, LeakSample, 8)
  {
    var t, p := LeakSample, SystemPromptLeak;
    assert t[8..11] == "you" && t[12..15] == "are";
    assert MatchAt(p, 6, t, 12);
    assert RunEnd(t, 12, Space) == 12;
    assert RunEnd(t, 11, Space) == 12;
    assert MatchAt(p, 5, t, 11);
  }

  /** The greedy matcher accepts the whole sample from position 0. */
  lemma LeakSampleMatches()
    ensures MatchAt(SystemPromptLeak, 0, LeakSample, 0)
  {
    var t, p := LeakSample, SystemPromptLeak;
    LeakSampleTail();
    assert t[0..6] == "system" && t[6..7] == ":";
    assert RunEnd(t, 8, Space) == 8;
    assert RunEnd(t, 7, Space) == 8;
    assert MatchAt(p, 3, t, 7);
    assert MatchAt(p, 2, t, 6);
    assert RunEnd(t, 6, Space) == 6;
  }

  /** The validator rejects the leaked line. */
  lemma LeakSampleRejected()
    ensures !ValidateOutput(LeakSample)
  {
    LeakSampleIsLowercase();
    LeakSampleMatches();
    assert SystemPromptLeak in SuspiciousPatterns;
    assert Search(SystemPromptLeak, Lower(LeakSample));
  }

  /** Both leak signatures need a colon, so a text without one always validates. */
  lemma ColonFreeValidates(output: string)
    requires ':' !in output
    ensures ValidateOutput(output)
  {
    var s := Lower(output);
    ValidateOutputIff(output);
    forall p | p in SuspiciousPatterns && Occurs(p, s) ensures false {
      var i :| 0 <= i <= |s| && MatchesFrom(p, 0, s, i);
      MatchHasForcedChar(p, 0, s, i, 2, Just(':'));
      var j :| 0 <= j < |s| && InClass(s[j], Just(':'));
      LowerCharKeepsClasses(output[j]);
    }
  }

  lemma RefusalHasNoColon()
    ensures ':' !in Refusal && |Refusal| <= MaxResponseLength
  {
  }

  lemma RefusalIsSafe()
    ensures ValidateOutput(Refusal) && |Refusal| <= MaxResponseLength
  {
    RefusalHasNoColon();
    ColonFreeValidates(Refusal);
  }

  /** `OutputValidator.filter_response`. */
  function FilterResponse(response: string): (r: string)
    ensures ValidateOutput(response) && |response| <= MaxResponseLength ==> r == response
    ensures !(ValidateOutput(response) && |response| <= MaxResponseLength) ==> r == Refusal
  {
    if !ValidateOutput(response) || |response| > MaxResponseLength then Refusal else response
  }

  /** Whatever goes in, what comes out passes the validator and the length ceiling. */
  lemma FilterResponseIsSafe(response: string)
    ensures ValidateOutput(FilterResponse(response)) && |FilterResponse(response)| <= MaxResponseLength
  {
    RefusalIsSafe();
  }

  /** Filtering twice is filtering once. */
  lemma FilterResponseIdempotent(response: string)
    ensures FilterResponse(FilterResponse(response)) == FilterResponse(response)
  {
    FilterResponseIsSafe(response);
  }
}
