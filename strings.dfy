/**
 * The Python `str` operations the programs use, on `seq<char>`:
 * prefix and substring tests, `lower`, `strip`, whitespace `split()`,
 * `split(sep)`, `join` and `replace`.
 */
module Strings {
  import opened Chars

  predicate StartsWith(s: string, p: string) {
    |p| <= |s| && s[..|p|] == p
  }

  predicate EndsWith(s: string, p: string) {
    |p| <= |s| && s[|s| - |p|..] == p
  }

  /** `sub in s` */
  predicate Contains(s: string, sub: string) {
    exists i :: 0 <= i <= |s| - |sub| && OccursAt(s, sub, i)
  }

  predicate OccursAt(s: string, sub: string, i: int) {
    0 <= i <= |s| - |sub| && s[i..i + |sub|] == sub
  }

  /** `s.lower()` */
  function LowerStr(s: string): (r: string)
    ensures |r| == |s|
    ensures forall i :: 0 <= i < |s| ==> r[i] == Lower(s[i])
  {
    if s == [] then [] else [Lower(s[0])] + LowerStr(s[1..])
  }

  predicate AllSpace(s: string) {
    forall i :: 0 <= i < |s| ==> IsSpace(s[i])
  }

  /** Length of the leading run of whitespace. */
  function LeadingSpace(s: string): (n: nat)
    ensures n <= |s|
    ensures n < |s| ==> !IsSpace(s[n])
  {
    if s == [] || !IsSpace(s[0]) then 0 else 1 + LeadingSpace(s[1..])
  }

  lemma {:induction false} LeadingSpaceAll(s: string)
    ensures forall k :: 0 <= k < LeadingSpace(s) ==> IsSpace(s[k])
  {
    if s != [] && IsSpace(s[0]) {
      LeadingSpaceAll(s[1..]);
    }
  }

  /** Where the trailing run of whitespace begins. */
  function TrailingSpace(s: string): (n: nat)
    ensures n <= |s|
    ensures n > 0 ==> !IsSpace(s[n - 1])
  {
    if s == [] || !IsSpace(s[|s| - 1]) then |s| else TrailingSpace(s[..|s| - 1])
  }

  lemma {:induction false} TrailingSpaceAll(s: string)
    ensures forall k :: TrailingSpace(s) <= k < |s| ==> IsSpace(s[k])
  {
    if s != [] && IsSpace(s[|s| - 1]) {
      TrailingSpaceAll(s[..|s| - 1]);
    }
  }

  /** `s.lstrip()` */
  function LStrip(s: string): (r: string)
    ensures r != [] ==> !IsSpace(r[0])
  {
    s[LeadingSpace(s)..]
  }

  /** `s.rstrip()` */
  function RStrip(s: string): (r: string)
    ensures r != [] ==> !IsSpace(r[|r| - 1])
  {
    s[..TrailingSpace(s)]
  }

  /** `s.strip()`: the slice of `s` between its leading and trailing whitespace. */
  function Strip(s: string): (r: string)
  {
    RStrip(LStrip(s))
  }

  /**
   * The stripped text is empty exactly when `s` is all whitespace; otherwise
   * it begins and ends with a non-space, and all its characters are from `s`.
   */
  lemma StripSpec(s: string)
    ensures Strip(s) == [] <==> AllSpace(s)
    ensures Strip(s) != [] ==> !IsSpace(Strip(s)[0]) && !IsSpace(Strip(s)[|Strip(s)| - 1])
    ensures forall k :: 0 <= k < |Strip(s)| ==> Strip(s)[k] in s
  {
    StripParts(s);
  }

  lemma StripParts(s: string)
    ensures RStrip(LStrip(s)) == [] <==> AllSpace(s)
    ensures forall k :: 0 <= k < |RStrip(LStrip(s))| ==> RStrip(LStrip(s))[k] in s
  {
    var a := LeadingSpace(s);
    var l := s[a..];
    var b := TrailingSpace(l);
    var r := l[..b];
    LeadingSpaceAll(s);
    TrailingSpaceAll(l);
    forall k | 0 <= k < |r| ensures r[k] == s[a + k] {
    }
    if r != [] {
      assert r[0] == s[a];
    }
  }

  /** The stripped text keeps every character of `s` that lies between two non-spaces. */
  lemma StripOfTrimmed(s: string)
    requires s == [] || (!IsSpace(s[0]) && !IsSpace(s[|s| - 1]))
    ensures Strip(s) == s
  {
  }

  /** Length of the leading run of non-whitespace characters. */
  function WordLen(s: string): (n: nat)
    ensures n <= |s|
    ensures forall k :: 0 <= k < n ==> !IsSpace(s[k])
    ensures n < |s| ==> IsSpace(s[n])
  {
    if s == [] || IsSpace(s[0]) then 0 else 1 + WordLen(s[1..])
  }

  predicate IsWord(w: string) {
    w != [] && forall k :: 0 <= k < |w| ==> !IsSpace(w[k])
  }

  /** `s.split()`: the maximal runs of non-whitespace characters. */
  function Words(s: string): (ws: seq<string>)
    ensures forall k :: 0 <= k < |ws| ==> IsWord(ws[k])
    decreases |s|
  {
    if s == [] then []
    else if IsSpace(s[0]) then Words(s[1..])
    else
      var n := WordLen(s);
      [s[..n]] + Words(s[n..])
  }

  /** A string has no words exactly when it is all whitespace. */
  lemma {:induction false} WordsEmpty(s: string)
    ensures Words(s) == [] <==> AllSpace(s)
    decreases |s|
  {
    if s != [] && IsSpace(s[0]) {
      WordsEmpty(s[1..]);
      assert AllSpace(s) <==> AllSpace(s[1..]);
    }
  }

  /** `sep.join(ws)` */
  function Join(sep: string, ws: seq<string>): (r: string)
  {
    if ws == [] then []
    else if |ws| == 1 then ws[0]
    else ws[0] + sep + Join(sep, ws[1..])
  }

  /** Concatenation of a sequence of strings, `''.join(ss)`. */
  function Concat(ss: seq<string>): (r: string)
    ensures |ss| == 1 ==> r == ss[0]
  {
    if ss == [] then [] else ss[0] + Concat(ss[1..])
  }

  lemma {:induction false} ConcatAppend(ss: seq<string>, t: string)
    ensures Concat(ss + [t]) == Concat(ss) + t
  {
    if ss != [] {
      assert (ss + [t])[1..] == ss[1..] + [t];
      ConcatAppend(ss[1..], t);
    } else {
      assert ss + [t] == [t];
    }
  }

  lemma WordLenOfWord(w: string, t: string)
    requires IsWord(w)
    requires t == [] || IsSpace(t[0])
    ensures WordLen(w + t) == |w|
  {
    var s := w + t;
    var n := WordLen(s);
    assert forall k :: 0 <= k < |w| ==> s[k] == w[k] && !IsSpace(s[k]);
    assert |s| > |w| ==> s[|w|] == t[0] && IsSpace(s[|w|]);
  }

  /** Trailing whitespace after a word is trailing whitespace of what follows the word. */
  lemma {:induction false} RStripAfterWord(w: string, rest: string)
    requires IsWord(w)
    ensures RStrip(w + rest) == w + RStrip(rest)
    decreases |rest|
  {
    if rest == [] {
      assert w + rest == w;
    } else if !IsSpace(rest[|rest| - 1]) {
    } else {
      var r' := rest[..|rest| - 1];
      assert (w + rest)[..|w + rest| - 1] == w + r';
      RStripAfterWord(w, r');
      assert RStrip(rest) == RStrip(r');
    }
  }

  /** Splitting a word followed by a separator yields the word first. */
  lemma WordsOfWordThen(w: string, t: string)
    requires IsWord(w)
    requires t == [] || IsSpace(t[0])
    ensures Words(w + t) == [w] + Words(t)
  {
    WordLenOfWord(w, t);
    assert (w + t)[..|w|] == w;
    assert (w + t)[|w|..] == t;
  }

  /** Joining words with single spaces and splitting again gives the words back. */
  lemma {:induction false} WordsOfJoin(ws: seq<string>)
    requires forall k :: 0 <= k < |ws| ==> IsWord(ws[k])
    ensures Words(Join(" ", ws)) == ws
  {
    if |ws| == 1 {
      WordsOfWordThen(ws[0], []);
      assert ws[0] + [] == ws[0];
    } else if |ws| > 1 {
      var rest := Join(" ", ws[1..]);
      assert ws[0] + " " + rest == ws[0] + (" " + rest);
      WordsOfWordThen(ws[0], " " + rest);
      assert (" " + rest)[1..] == rest;
      WordsOfJoin(ws[1..]);
    }
  }

  /** Position of the first `d` in `s`, or `|s|`. */
  function IndexOf(s: string, d: char): (k: nat)
    ensures k <= |s|
    ensures k < |s| ==> s[k] == d
    ensures forall j :: 0 <= j < k ==> s[j] != d
  {
    if s == [] then 0 else if s[0] == d then 0 else 1 + IndexOf(s[1..], d)
  }

  /** `s.rfind(d)`: the last position of `d`, or -1. */
  function LastIndexOf(s: string, d: char): (k: int)
    ensures -1 <= k < |s|
    ensures k >= 0 ==> s[k] == d
    ensures forall j :: k < j < |s| ==> s[j] != d
    decreases |s|
  {
    if s == [] then -1 else if s[|s| - 1] == d then |s| - 1 else LastIndexOf(s[..|s| - 1], d)
  }

  /** `s.split(d)` for a one-character separator. */
  function SplitOn(s: string, d: char): (r: seq<string>)
    ensures |r| >= 1
    ensures forall k :: 0 <= k < |r| ==> d !in r[k]
    decreases |s|
  {
    var k := IndexOf(s, d);
    if k == |s| then [s] else [s[..k]] + SplitOn(s[k + 1..], d)
  }

  /** Joining the pieces with the separator restores the text. */
  lemma {:induction false} SplitOnJoin(s: string, d: char)
    ensures Join([d], SplitOn(s, d)) == s
    decreases |s|
  {
    var k := IndexOf(s, d);
    if k < |s| {
      SplitOnJoin(s[k + 1..], d);
      assert s == s[..k] + [d] + s[k + 1..];
    }
  }

  /** `sub in s`, scanning from the left. */
  predicate Occurs(s: string, sub: string)
    decreases |s|
  {
    |sub| <= |s| && (s[..|sub|] == sub || Occurs(s[1..], sub))
  }

  /** The scan finds exactly the occurrences `Contains` speaks of. */
  lemma {:induction false} OccursIsContains(s: string, sub: string)
    ensures Occurs(s, sub) <==> Contains(s, sub)
    decreases |s|
  {
    if |sub| <= |s| {
      assert s[0..0 + |sub|] == s[..|sub|];
      if s[..|sub|] != sub {
        OccursIsContains(s[1..], sub);
        forall i | 0 <= i <= |s| - 1 - |sub| ensures OccursAt(s[1..], sub, i) <==> OccursAt(s, sub, i + 1) {
          assert s[1..][i..i + |sub|] == s[i + 1..i + 1 + |sub|];
        }
        if Contains(s, sub) {
          var i :| 0 <= i <= |s| - |sub| && OccursAt(s, sub, i);
          assert i != 0;
          assert OccursAt(s[1..], sub, i - 1);
        }
        if Occurs(s[1..], sub) {
          var i :| 0 <= i <= |s| - 1 - |sub| && OccursAt(s[1..], sub, i);
          assert OccursAt(s, sub, i + 1);
        }
      } else {
        assert OccursAt(s, sub, 0);
      }
    }
  }

  /** What follows the first `sep` in `s` ("" when there is none). */
  function After(s: string, sep: string): string
    decreases |s|
  {
    if |s| < |sep| then []
    else if s[..|sep|] == sep then s[|sep|..]
    else After(s[1..], sep)
  }

  /** What precedes the first `sep` in `s` (all of `s` when there is none). */
  function Before(s: string, sep: string): string
    decreases |s|
  {
    if |s| < |sep| then s
    else if s[..|sep|] == sep then []
    else [s[0]] + Before(s[1..], sep)
  }

  /**
   * `s.split(sep)` around the first separator: the text before it, the
   * separator and the text after it make up `s`, and the part before
   * holds no separator.
   */
  lemma {:induction false} SplitAround(s: string, sep: string)
    requires sep != []
    ensures Occurs(s, sep) ==> Before(s, sep) + sep + After(s, sep) == s
    ensures !Occurs(s, sep) ==> Before(s, sep) == s && After(s, sep) == []
    ensures !Occurs(Before(s, sep), sep)
    decreases |s|
  {
    if |s| >= |sep| && s[..|sep|] != sep {
      SplitAround(s[1..], sep);
      var b := Before(s[1..], sep);
      assert s == [s[0]] + s[1..];
      if |[s[0]] + b| >= |sep| {
        assert ([s[0]] + b)[..|sep|] != sep by {
          if Occurs(s[1..], sep) {
            assert s[..|sep|] == ([s[0]] + b + sep + After(s[1..], sep))[..|sep|];
          }
        }
        assert ([s[0]] + b)[1..] == b;
      }
    } else if |s| >= |sep| {
      assert s == s[..|sep|] + s[|sep|..];
    }
  }

  /** `s.replace(pat, rep)`: left-to-right, non-overlapping. */
  function ReplaceAll(s: string, pat: string, rep: string): (r: string)
    requires pat != []
    decreases |s|
  {
    if |s| < |pat| then s
    else if s[..|pat|] == pat then rep + ReplaceAll(s[|pat|..], pat, rep)
    else [s[0]] + ReplaceAll(s[1..], pat, rep)
  }

  /** Replacing a pattern that does not occur changes nothing. */
  lemma {:induction false} ReplaceAllAbsent(s: string, pat: string, rep: string)
    requires pat != [] && !Contains(s, pat)
    ensures ReplaceAll(s, pat, rep) == s
    decreases |s|
  {
    if |s| >= |pat| {
      assert s[0..0 + |pat|] == s[..|pat|];
      assert !OccursAt(s, pat, 0);
      forall i | OccursAt(s[1..], pat, i) ensures false {
        assert s[1..][i..i + |pat|] == s[i + 1..i + 1 + |pat|];
        assert OccursAt(s, pat, i + 1);
      }
      ReplaceAllAbsent(s[1..], pat, rep);
    }
  }

  /** The characters of `s` that satisfy `p`, in order (`''.join(c for c in s if p(c))`). */
  function FilterChars(s: string, p: char -> bool): (r: string)
    ensures |r| <= |s|
    ensures forall k :: 0 <= k < |r| ==> p(r[k]) && r[k] in s
  {
    if s == [] then [] else (if p(s[0]) then [s[0]] else []) + FilterChars(s[1..], p)
  }

  lemma {:induction false} FilterCharsAll(s: string, p: char -> bool)
    requires forall k :: 0 <= k < |s| ==> p(s[k])
    ensures FilterChars(s, p) == s
  {
    if s != [] {
      assert forall k :: 0 <= k < |s[1..]| ==> p(s[1..][k]) by {
        forall k | 0 <= k < |s[1..]| ensures p(s[1..][k]) { assert s[1..][k] == s[k + 1]; }
      }
      FilterCharsAll(s[1..], p);
      assert s == [s[0]] + s[1..];
    }
  }

  lemma {:induction false} LowerIdentity(s: string)
    requires forall k :: 0 <= k < |s| ==> Lower(s[k]) == s[k]
    ensures LowerStr(s) == s
  {
    if s != [] {
      LowerIdentity(s[1..]);
    }
  }
}
