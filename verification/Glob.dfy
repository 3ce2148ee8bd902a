/**
 Star-only glob patterns: the matcher that `fnmatchcase` implements for them, the
 "sample" probe that the verifier substitutes for a star, and the decision
 procedures the verifier's shortcuts are compared with.
 */
module Glob {

  /** No wildcard but `*`: neither `?` nor a bracket. */
  predicate StarOnly(pattern: string) {
    '?' !in pattern && '[' !in pattern
  }

  /** `fnmatchcase(word, pattern)`: a star matches any run of characters, also none. */
  predicate Matches(pattern: string, word: string)
    decreases |pattern| + |word|
  {
    if pattern == [] then word == []
    else if pattern[0] == '*' then
      Matches(pattern[1..], word) || (word != [] && Matches(pattern, word[1..]))
    else word != [] && word[0] == pattern[0] && Matches(pattern[1..], word[1..])
  }

  /** The words of one pattern are all words of the other. */
  ghost predicate Includes(outer: string, inner: string) {
    forall word | Matches(inner, word) :: Matches(outer, word)
  }

  ghost predicate Intersects(left: string, right: string) {
    exists word :: Matches(left, word) && Matches(right, word)
  }

  /** `pattern.replace("*", filler)`. */
  function Fill(pattern: string, filler: string): string {
    if pattern == [] then []
    else (if pattern[0] == '*' then filler else [pattern[0]]) + Fill(pattern[1..], filler)
  }

  /** `pattern.split("*", 1)[0]`. */
  function LiteralPrefix(pattern: string): (r: string)
    ensures r <= pattern && '*' !in r
    ensures |r| < |pattern| ==> pattern[|r|] == '*'
  {
    if pattern == [] || pattern[0] == '*' then []
    else [pattern[0]] + LiteralPrefix(pattern[1..])
  }

  // ---------- words of a pattern ----------

  lemma {:induction false} FillMatches(pattern: string, filler: string)
    ensures Matches(pattern, Fill(pattern, filler))
  {
    if pattern != [] {
      FillMatches(pattern[1..], filler);
      if pattern[0] == '*' {
        StarAbsorbs(pattern, filler, Fill(pattern[1..], filler));
      } else {
        assert Fill(pattern, filler)[1..] == Fill(pattern[1..], filler);
      }
    }
  }

  lemma {:induction false} StarAbsorbs(pattern: string, run: string, word: string)
    requires pattern != [] && pattern[0] == '*'
    requires Matches(pattern, word) || Matches(pattern[1..], word)
    ensures Matches(pattern, run + word)
  {
    if run == [] {
      assert run + word == word;
    } else {
      StarAbsorbs(pattern, run[1..], word);
      assert (run + word)[1..] == run[1..] + word;
    }
  }

  /** The pattern with a run of characters of its own for each star, in order. */
  function FillEach(pattern: string, runs: seq<string>): string {
    if pattern == [] then []
    else if pattern[0] != '*' then [pattern[0]] + FillEach(pattern[1..], runs)
    else if runs == [] then FillEach(pattern[1..], [])
    else runs[0] + FillEach(pattern[1..], runs[1..])
  }

  /** The meaning of a pattern: its words are what replacing each star by some run can give. */
  lemma MatchesMeansFilling(pattern: string, word: string)
    ensures Matches(pattern, word) <==> exists runs :: FillEach(pattern, runs) == word
  {
    if Matches(pattern, word) {
      var runs := RunsOf(pattern, word);
    }
    if runs :| FillEach(pattern, runs) == word {
      FillEachMatches(pattern, runs);
    }
  }

  lemma {:induction false} RunsOf(pattern: string, word: string) returns (runs: seq<string>)
    requires Matches(pattern, word)
    ensures FillEach(pattern, runs) == word
    decreases |pattern| + |word|
  {
    if pattern == [] {
      runs := [];
    } else if pattern[0] != '*' {
      runs := RunsOf(pattern[1..], word[1..]);
      assert word == [word[0]] + word[1..];
    } else if Matches(pattern[1..], word) {
      var rest := RunsOf(pattern[1..], word);
      runs := [""] + rest;
      assert runs[1..] == rest;
    } else {
      var rest := RunsOf(pattern, word[1..]);
      var first, others := if rest == [] then "" else rest[0], if rest == [] then [] else rest[1..];
      runs := [[word[0]] + first] + others;
      assert runs[1..] == others;
      assert FillEach(pattern, rest) == first + FillEach(pattern[1..], others);
      assert word == [word[0]] + word[1..];
    }
  }

  lemma {:induction false} FillEachMatches(pattern: string, runs: seq<string>)
    ensures Matches(pattern, FillEach(pattern, runs))
  {
    if pattern != [] {
      if pattern[0] != '*' {
        FillEachMatches(pattern[1..], runs);
        assert FillEach(pattern, runs)[1..] == FillEach(pattern[1..], runs);
      } else {
        var run, rest := if runs == [] then "" else runs[0], if runs == [] then [] else runs[1..];
        FillEachMatches(pattern[1..], rest);
        StarAbsorbs(pattern, run, FillEach(pattern[1..], rest));
        assert FillEach(pattern, runs) == run + FillEach(pattern[1..], rest);
      }
    }
  }

  /** A leading star stands for any run of characters: some rest of the word matches what follows it. */
  lemma {:induction false} StarTakesAnyRun(pattern: string, word: string)
    requires pattern != [] && pattern[0] == '*'
    ensures Matches(pattern, word) <==> exists k | 0 <= k <= |word| :: Matches(pattern[1..], word[k..])
  {
    assert word[0..] == word;
    if k :| 0 <= k <= |word| && Matches(pattern[1..], word[k..]) {
      StarAbsorbs(pattern, word[..k], word[k..]);
      assert word[..k] + word[k..] == word;
    }
    if Matches(pattern, word) && !Matches(pattern[1..], word) {
      StarTakesAnyRun(pattern, word[1..]);
      var k :| 0 <= k <= |word[1..]| && Matches(pattern[1..], word[1..][k..]);
      assert word[1..][k..] == word[k + 1..];
    }
  }

  lemma {:induction false} LiteralMatchesOnlyItself(pattern: string, word: string)
    requires '*' !in pattern
    ensures Matches(pattern, word) <==> word == pattern
  {
    if pattern != [] && word != [] {
      LiteralMatchesOnlyItself(pattern[1..], word[1..]);
      assert pattern == [pattern[0]] + pattern[1..] && word == [word[0]] + word[1..];
    }
  }

  lemma FillLiteral(pattern: string, filler: string)
    requires '*' !in pattern
    ensures Fill(pattern, filler) == pattern
  {
    FillMatches(pattern, filler);
    LiteralMatchesOnlyItself(pattern, Fill(pattern, filler));
  }

  lemma {:induction false} WordHasLiterals(pattern: string, word: string, c: char)
    requires Matches(pattern, word) && c in pattern && c != '*'
    ensures c in word
    decreases |pattern| + |word|
  {
    if pattern[0] == '*' {
      if Matches(pattern[1..], word) {
        WordHasLiterals(pattern[1..], word, c);
      } else {
        WordHasLiterals(pattern, word[1..], c);
      }
    } else if pattern[0] != c {
      WordHasLiterals(pattern[1..], word[1..], c);
    }
  }

  lemma {:induction false} WordStartsWithPrefix(pattern: string, word: string)
    requires Matches(pattern, word)
    ensures LiteralPrefix(pattern) <= word
  {
    if pattern != [] && pattern[0] != '*' {
      WordStartsWithPrefix(pattern[1..], word[1..]);
      assert word == [word[0]] + word[1..];
    }
  }

  ghost predicate Comparable(a: string, b: string) {
    a <= b || b <= a
  }

  /** Two globs that share a word have comparable literal prefixes. */
  lemma SharedWordComparablePrefixes(left: string, right: string, word: string)
    requires Matches(left, word) && Matches(right, word)
    ensures Comparable(LiteralPrefix(left), LiteralPrefix(right))
  {
    WordStartsWithPrefix(left, word);
    WordStartsWithPrefix(right, word);
    var a, b := LiteralPrefix(left), LiteralPrefix(right);
    assert a == word[..|a|] && b == word[..|b|];
  }

  /** A pattern read as a word is one of its own words. */
  lemma MatchesItself(pattern: string)
    ensures Matches(pattern, pattern)
  {
    FillMatches(pattern, "*");
    FillWithStar(pattern);
  }

  lemma {:induction false} FillWithStar(pattern: string)
    ensures Fill(pattern, "*") == pattern
  {
    if pattern != [] {
      FillWithStar(pattern[1..]);
      assert pattern == [pattern[0]] + pattern[1..];
    }
  }

  // ---------- inclusion ----------

  /** Reading the inner pattern as a word composes with its own matcher. */
  lemma {:induction false} MatchTransitive(outer: string, inner: string, word: string)
    requires Matches(outer, inner) && Matches(inner, word)
    ensures Matches(outer, word)
    decreases |outer| + |inner| + |word|
  {
    if outer == [] {
    } else if outer[0] == '*' {
      if Matches(outer[1..], inner) {
        MatchTransitive(outer[1..], inner, word);
      } else if inner[0] == '*' && !Matches(inner[1..], word) {
        MatchTransitive(outer, inner, word[1..]);
      } else if inner[0] == '*' {
        MatchTransitive(outer, inner[1..], word);
      } else {
        MatchTransitive(outer, inner[1..], word[1..]);
      }
    } else {
      MatchTransitive(outer[1..], inner[1..], word[1..]);
    }
  }

  /** No literal character of the pattern occurs in the filler. */
  predicate Fresh(pattern: string, filler: string) {
    forall c | c in pattern && c != '*' :: c !in filler
  }

  /** Fresh letters can only be absorbed by stars, so the filled run can shrink back to a star. */
  lemma {:induction false} UnfillRun(outer: string, filler: string, k: nat, inner: string)
    requires k < |filler| && Fresh(outer, filler)
    requires Matches(outer, filler[k..] + Fill(inner, filler))
    ensures Matches(outer, "*" + inner)
    decreases |outer| + |inner|, |filler| - k
  {
    var word := filler[k..] + Fill(inner, filler);
    assert word[0] == filler[k] && word[1..] == filler[k + 1..] + Fill(inner, filler);
    assert outer[0] in outer && outer[0] == '*';
    assert ("*" + inner)[1..] == inner;
    if Matches(outer[1..], word) {
      UnfillRun(outer[1..], filler, k, inner);
    } else if k + 1 < |filler| {
      UnfillRun(outer, filler, k + 1, inner);
    } else {
      assert word[1..] == Fill(inner, filler);
      Unfill(outer, filler, inner);
    }
  }

  /** A fresh probe decides the match against the pattern itself. */
  lemma {:induction false} Unfill(outer: string, filler: string, inner: string)
    requires filler != [] && Fresh(outer, filler)
    requires Matches(outer, Fill(inner, filler))
    ensures Matches(outer, inner)
    decreases |outer| + |inner|, 0
  {
    if inner != [] {
      assert inner == [inner[0]] + inner[1..];
      if inner[0] == '*' {
        assert Fill(inner, filler) == filler[0..] + Fill(inner[1..], filler);
        UnfillRun(outer, filler, 0, inner[1..]);
      } else {
        assert Fill(inner, filler)[1..] == Fill(inner[1..], filler);
        if outer[0] == '*' && Matches(outer[1..], Fill(inner, filler)) {
          Unfill(outer[1..], filler, inner);
        } else if outer[0] == '*' {
          Unfill(outer, filler, inner[1..]);
        } else {
          Unfill(outer[1..], filler, inner[1..]);
        }
      }
    }
  }

  /** Inclusion of languages is decided by matching the inner pattern as a word. */
  lemma InclusionDecided(outer: string, inner: string, letter: char)
    requires letter != '*' && letter !in outer
    ensures Includes(outer, inner) <==> Matches(outer, inner)
  {
    if Matches(outer, inner) {
      forall word | Matches(inner, word) ensures Matches(outer, word) {
        MatchTransitive(outer, inner, word);
      }
    }
    if Includes(outer, inner) {
      FillMatches(inner, [letter]);
      Unfill(outer, [letter], inner);
    }
  }

  // ---------- intersection ----------

  /** Whether two star patterns share a word. */
  predicate Meet(left: string, right: string)
    decreases |left| + |right|
  {
    if left != [] && left[0] == '*' then
      Meet(left[1..], right) || (right != [] && Meet(left, right[1..]))
    else if right != [] && right[0] == '*' then
      Meet(left, right[1..]) || (left != [] && Meet(left[1..], right))
    else if left == [] || right == [] then left == right
    else left[0] == right[0] && Meet(left[1..], right[1..])
  }

  lemma {:induction false} MeetComplete(left: string, right: string, word: string)
    requires Matches(left, word) && Matches(right, word)
    ensures Meet(left, right)
    decreases |left| + |right| + |word|
  {
    if left != [] && left[0] == '*' {
      if Matches(left[1..], word) {
        MeetComplete(left[1..], right, word);
      } else if right[0] != '*' {
        MeetComplete(left, right[1..], word[1..]);
      } else if Matches(right[1..], word) {
        MeetComplete(left, right[1..], word);
      } else {
        MeetComplete(left, right, word[1..]);
      }
    } else if right != [] && right[0] == '*' {
      if Matches(right[1..], word) {
        MeetComplete(left, right[1..], word);
      } else {
        MeetComplete(left[1..], right, word[1..]);
      }
    } else if left != [] {
      MeetComplete(left[1..], right[1..], word[1..]);
    }
  }

  lemma {:induction false} MeetSound(left: string, right: string) returns (word: string)
    requires Meet(left, right)
    ensures Matches(left, word) && Matches(right, word)
    decreases |left| + |right|
  {
    if left != [] && left[0] == '*' {
      if Meet(left[1..], right) {
        word := MeetSound(left[1..], right);
      } else {
        word := MeetSoundStar(left, right);
      }
    } else if right != [] && right[0] == '*' {
      if Meet(left, right[1..]) {
        word := MeetSound(left, right[1..]);
      } else {
        word := MeetSoundStar(right, left);
      }
    } else if left == [] {
      word := [];
    } else {
      var rest := MeetSound(left[1..], right[1..]);
      word := [left[0]] + rest;
      assert word[1..] == rest;
    }
  }

  /** The star of `starred` absorbs the first symbol of `other`. */
  lemma {:induction false} MeetSoundStar(starred: string, other: string) returns (word: string)
    requires starred != [] && starred[0] == '*' && other != []
    requires Meet(starred, other[1..]) || Meet(other[1..], starred)
    ensures Matches(starred, word) && Matches(other, word)
    decreases |starred| + |other|, 0
  {
    var rest: string;
    if Meet(starred, other[1..]) {
      rest := MeetSound(starred, other[1..]);
    } else {
      rest := MeetSound(other[1..], starred);
    }
    if other[0] == '*' {
      word := rest;
    } else {
      word := [other[0]] + rest;
      assert word[1..] == rest;
    }
  }

  /** `Meet` decides whether the languages of two patterns intersect. */
  lemma MeetDecidesIntersection(left: string, right: string)
    ensures Meet(left, right) <==> Intersects(left, right)
  {
    if Meet(left, right) {
      var word := MeetSound(left, right);
    }
    if Intersects(left, right) {
      var word :| Matches(left, word) && Matches(right, word);
      MeetComplete(left, right, word);
    }
  }

  lemma MeetSymmetric(left: string, right: string)
    ensures Meet(left, right) == Meet(right, left)
  {
    MeetDecidesIntersection(left, right);
    MeetDecidesIntersection(right, left);
  }

  lemma {:induction false} StarMeetsAnything(pattern: string)
    ensures Meet(pattern, "*")
  {
    if pattern != [] {
      StarMeetsAnything(pattern[1..]);
    }
  }

  predicate EndsOpen(pattern: string) {
    pattern != [] && pattern[|pattern| - 1] == '*'
  }

  /** A leading star absorbs everything before the other pattern's final star. */
  lemma {:induction false} LeadingStarMeetsOpen(starred: string, other: string)
    requires starred != [] && starred[0] == '*' && EndsOpen(other)
    ensures Meet(starred, other)
    decreases |other|
  {
    if |other| == 1 {
      StarMeetsAnything(starred);
      assert other == "*";
    } else {
      LeadingStarMeetsOpen(starred, other[1..]);
    }
  }

  /** Open-ended patterns with comparable literal prefixes share a word. */
  lemma {:induction false} ComparableOpenMeet(left: string, right: string)
    requires EndsOpen(left) && EndsOpen(right)
    requires Comparable(LiteralPrefix(left), LiteralPrefix(right))
    ensures Meet(left, right)
    decreases |left|
  {
    if left[0] == '*' {
      LeadingStarMeetsOpen(left, right);
    } else if right[0] == '*' {
      LeadingStarMeetsOpen(right, left);
      MeetSymmetric(left, right);
    } else {
      var a, b := LiteralPrefix(left), LiteralPrefix(right);
      assert a[1..] == LiteralPrefix(left[1..]) && b[1..] == LiteralPrefix(right[1..]);
      assert a[0] == b[0];
      ComparableOpenMeet(left[1..], right[1..]);
    }
  }
}
