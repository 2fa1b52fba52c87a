/**
 * The scoring part of the completion engine (commandFinder/completer.py):
 * character bigrams, the greedy consecutive-match bonus and the fuzzy
 * score that combines exact, prefix and bigram-similarity matches.
 * Scores are exact reals.
 */
module Fuzzy {
  import opened Strings

  /** `_generate_ngrams(text, 2)`, with `None` given as "". */
  function Ngrams(text: string): (g: set<string>)
  {
    if text == [] then {}
    else if |text| < 2 then {text}
    else set i | 0 <= i < |text| - 1 :: Bigram(text, i)
  }

  function Bigram(text: string, i: int): string
    requires 0 <= i < |text| - 1
  {
    text[i..i + 2]
  }

  /**
   * The bigrams of a text of two or more characters are exactly its
   * two-character substrings; a one-character text is its own only n-gram;
   * the empty text has none.
   */
  lemma NgramsSpec(text: string, g: string)
    ensures g in Ngrams(text) <==>
      (|text| == 1 && g == text) || (|text| >= 2 && |g| == 2 && Contains(text, g))
    ensures Ngrams(text) == {} <==> text == []
  {
    if |text| >= 2 {
      if |g| == 2 && Contains(text, g) {
        var i :| 0 <= i <= |text| - |g| && OccursAt(text, g, i);
        assert Bigram(text, i) == g;
      }
      if g in Ngrams(text) {
        var i :| 0 <= i < |text| - 1 && Bigram(text, i) == g;
        assert OccursAt(text, g, i);
      }
      assert Bigram(text, 0) in Ngrams(text);
    }
  }

  /** Every n-gram of a text has length two, or is the whole text when it is shorter. */
  lemma NgramLength(text: string, g: string)
    requires g in Ngrams(text)
    ensures |text| < 2 ==> g == text
    ensures |text| >= 2 ==> |g| == 2
  {
  }

  function Max(a: nat, b: nat): nat { if a >= b then a else b }

  /**
   * The loop of `_consecutive_match_bonus` from position `i` in the query
   * and `j` in the target, with the current and the best streak so far;
   * the result is the number of query characters matched and the best
   * streak. A streak never exceeds the matched characters, since `i`
   * advances exactly when the streak grows.
   */
  function Streak(q: string, t: string, i: nat, j: nat, cur: nat, best: nat): (r: (nat, nat))
    requires i <= |q| && j <= |t| && cur <= i && best <= i
    ensures r.1 <= r.0 <= |q|
    ensures best <= r.1 && i <= r.0
    decreases |t| - j
  {
    if i < |q| && j < |t| then
      if q[i] == t[j] then Streak(q, t, i + 1, j + 1, cur + 1, Max(best, cur + 1))
      else Streak(q, t, i, j + 1, 0, best)
    else (i, best)
  }

  /** `_consecutive_match_bonus`: the best streak as a fraction of the query length. */
  function Bonus(q: string, t: string): (b: real)
    ensures 0.0 <= b <= 1.0
  {
    if q == [] || t == [] then 0.0
    else
      var best := Streak(q, t, 0, 0, 0, 0).1;
      assert best <= |q|;
      best as real / |q| as real
  }

  /** The loop itself. */
  method ConsecutiveMatchBonus(query: string, target: string) returns (bonus: real)
    ensures bonus == Bonus(query, target)
  {
    if query == [] || target == [] {
      return 0.0;
    }
    var maxConsecutive: nat := 0;
    var currentConsecutive: nat := 0;
    var i: nat, j: nat := 0, 0;
    while i < |query| && j < |target|
      invariant i <= |query| && j <= |target|
      invariant currentConsecutive <= i && maxConsecutive <= i
      invariant Streak(query, target, i, j, currentConsecutive, maxConsecutive) == Streak(query, target, 0, 0, 0, 0)
      decreases |target| - j
    {
      if query[i] == target[j] {
        currentConsecutive := currentConsecutive + 1;
        maxConsecutive := Max(maxConsecutive, currentConsecutive);
        i := i + 1;
      } else {
        currentConsecutive := 0;
      }
      j := j + 1;
    }
    bonus := maxConsecutive as real / |query| as real;
  }

  /**
   * The best streak is a run of query characters that occurs contiguously
   * in the target: the current streak is always the last `cur` matched
   * query characters, found just before position `j`.
   */
  lemma {:induction false} StreakIsCommonRun(q: string, t: string, i: nat, j: nat, cur: nat, best: nat, a: nat, b: nat)
    requires i <= |q| && j <= |t| && cur <= i && best <= i
    requires cur <= j && q[i - cur..i] == t[j - cur..j]
    requires a + best <= |q| && b + best <= |t| && q[a..a + best] == t[b..b + best]
    ensures CommonRun(q, t, Streak(q, t, i, j, cur, best).1)
    decreases |t| - j
  {
    if i < |q| && j < |t| {
      if q[i] == t[j] {
        assert q[i - cur..i + 1] == q[i - cur..i] + [q[i]];
        assert t[j - cur..j + 1] == t[j - cur..j] + [t[j]];
        if cur + 1 > best {
          StreakIsCommonRun(q, t, i + 1, j + 1, cur + 1, cur + 1, i - cur, j - cur);
        } else {
          StreakIsCommonRun(q, t, i + 1, j + 1, cur + 1, best, a, b);
        }
      } else {
        StreakIsCommonRun(q, t, i, j + 1, 0, best, a, b);
      }
    } else {
      assert RunAt(q, t, a, b, best);
    }
  }

  /** `q[a..a + n]` and `t[b..b + n]` are the same run of characters. */
  ghost predicate RunAt(q: string, t: string, a: int, b: int, n: nat) {
    0 <= a && a + n <= |q| && 0 <= b && b + n <= |t| && q[a..a + n] == t[b..b + n]
  }

  ghost predicate CommonRun(q: string, t: string, n: nat) {
    exists a, b :: RunAt(q, t, a, b, n)
  }

  /** Some run of `best` consecutive query characters occurs in the target. */
  lemma BonusIsCommonRun(q: string, t: string)
    requires q != [] && t != []
    ensures var best := Streak(q, t, 0, 0, 0, 0).1;
      Bonus(q, t) == best as real / |q| as real
      && CommonRun(q, t, best)
  {
    StreakIsCommonRun(q, t, 0, 0, 0, 0, 0, 0);
  }

  lemma {:induction false} StreakOfPrefix(q: string, t: string, i: nat)
    requires i <= |q| <= |t| && t[..|q|] == q
    ensures Streak(q, t, i, i, i, i) == (|q|, |q|)
    decreases |q| - i
  {
    if i < |q| {
      assert q[i] == t[i];
      StreakOfPrefix(q, t, i + 1);
    }
  }

  /** A query that begins the target is matched in one streak: the bonus is 1. */
  lemma BonusOfPrefix(q: string, t: string)
    requires q != [] && StartsWith(t, q)
    ensures Bonus(q, t) == 1.0
  {
    StreakOfPrefix(q, t, 0);
  }

  function MinReal(a: real, b: real): real { if a <= b then a else b }

  /** Bigram Jaccard similarity `|A & B| / |A | B|`, 0 for two empty sets. */
  function Jaccard(a: set<string>, b: set<string>): (r: real)
    ensures 0.0 <= r <= 1.0
  {
    var union := |a + b|;
    if union > 0 then
      JaccardBound(a, b);
      |a * b| as real / union as real
    else 0.0
  }

  lemma JaccardBound(a: set<string>, b: set<string>)
    ensures |a * b| <= |a + b|
  {
    SubsetCard(a * b, a + b);
  }

  lemma {:induction false} SubsetCard<T>(a: set<T>, b: set<T>)
    requires a <= b
    ensures |a| <= |b|
  {
    if a != {} {
      var x :| x in a;
      SubsetCard(a - {x}, b - {x});
    }
  }

  /** `_fuzzy_score(query, target)`, with `None` given as "". */
  function FuzzyScore(query: string, target: string): (r: real)
    ensures 0.0 <= r <= 1.0
  {
    if query == [] || target == [] then 0.0
    else if query == target then 1.0
    else if StartsWith(target, query) then
      PrefixRatio(query, target);
      0.9 + (|query| as real / |target| as real) * 0.1
    else
      var qn := Ngrams(query);
      var tn := Ngrams(target);
      if qn == {} || tn == {} then 0.0
      else MinReal(0.89, Jaccard(qn, tn) * 0.7 + Bonus(query, target) * 0.3)
  }

  lemma PrefixRatio(query: string, target: string)
    requires query != [] && query != target && StartsWith(target, query)
    ensures 0.0 < |query| as real / |target| as real < 1.0
  {
    assert |query| < |target| by {
      assert target[..|target|] == target;
    }
    var x := |query| as real / |target| as real;
    assert x * |target| as real == |query| as real;
  }

  /**
   * The score bands: 0 when either side is empty, exactly 1 for equal
   * texts, strictly between 0.9 and 1 for a proper prefix, and at most 0.89
   * for any target the query does not begin.
   */
  lemma FuzzyScoreBands(query: string, target: string)
    ensures query == [] || target == [] ==> FuzzyScore(query, target) == 0.0
    ensures query != [] && query == target ==> FuzzyScore(query, target) == 1.0
    ensures query != [] && query != target && StartsWith(target, query) ==>
      0.9 < FuzzyScore(query, target) < 1.0
    ensures !StartsWith(target, query) ==> FuzzyScore(query, target) <= 0.89
  {
    if query != [] && query != target && StartsWith(target, query) {
      PrefixRatio(query, target);
    }
  }

  /** A score of 1 means the texts are equal and non-empty. */
  lemma FuzzyScoreOne(query: string, target: string)
    ensures FuzzyScore(query, target) == 1.0 <==> query != [] && query == target
  {
    FuzzyScoreBands(query, target);
  }

  /** Any target the query begins outranks any target it does not begin. */
  lemma PrefixOutranks(query: string, prefixed: string, other: string)
    requires query != [] && StartsWith(prefixed, query) && !StartsWith(other, query)
    ensures FuzzyScore(query, prefixed) > FuzzyScore(query, other)
  {
    FuzzyScoreBands(query, prefixed);
    FuzzyScoreBands(query, other);
  }
}
