/**
 * GTFOBins search, in its two copies searchCommand/gtfsearch.py (the
 * package) and gtfsearch.py (the single-file tool): input sanitising and
 * query validation, the capped completer, the internal commands, the
 * capped collection of search results (by the name index in the package,
 * by a scan of the data in the single file) and the greedy word wrapper.
 *
 * The copies differ in their lists of dangerous patterns and in the
 * wording of their messages; the patterns are a parameter here, and a
 * verdict stands for the message.
 */
module Gtf {
  import opened Wrappers
  import opened Chars
  import opened Strings

  /** `MAX_QUERY_LENGTH` of both copies. */
  const MaxQueryLength: nat := 100
  /** `MAX_RESULTS` */
  const MaxResults: nat := 100
  /** `MAX_COMPLETIONS` */
  const MaxCompletions: nat := 50

  // ------------------------------------------------------- capped lists

  /** The first `n` elements, or all when there are fewer: `s[:n]`. */
  function Take<T>(s: seq<T>, n: nat): (r: seq<T>)
    ensures |r| <= n && |r| <= |s|
    ensures r == s[..|r|]
    ensures |s| <= n ==> r == s
  {
    if |s| <= n then s else s[..n]
  }

  /** Cutting early and then again after appending is cutting once. */
  lemma TakeConcat<T>(a: seq<T>, b: seq<T>, n: nat)
    ensures Take(Take(a, n) + b, n) == Take(a + b, n)
  {
    if |a| > n {
      assert (a + b)[..n] == a[..n];
    } else {
      assert Take(a, n) == a;
    }
  }

  /** A full list stays as it is. */
  lemma TakeFull<T>(a: seq<T>, b: seq<T>, n: nat)
    requires |a| >= n
    ensures Take(a + b, n) == Take(a, n)
  {
    assert (a + b)[..n] == a[..n];
  }

  // ------------------------------------------------------- SecurityValidator.sanitize_input

  /** Characters the first step keeps: `char.isprintable() or char == '\n'`. */
  predicate KeptChar(c: char) {
    IsPrintable(c) || c == '\n'
  }

  /** `re.sub(r'\s+', ' ', s)`: each run of whitespace becomes one space. */
  function CollapseSpace(s: string): (r: string)
    ensures |r| <= |s|
    decreases |s|
  {
    if s == [] then []
    else if IsSpace(s[0]) then " " + CollapseSpace(s[LeadingSpace(s)..])
    else [s[0]] + CollapseSpace(s[1..])
  }

  /** Every whitespace character is a plain space and is followed by a non-space. */
  predicate SingleSpaced(s: string) {
    forall k :: 0 <= k < |s| && IsSpace(s[k]) ==> s[k] == ' ' && (k + 1 < |s| ==> !IsSpace(s[k + 1]))
  }

  /**
   * `sanitize_input`, with `None` for an argument that is not a `str`:
   * keep the printable characters and newlines, cut to the maximum
   * length, collapse whitespace runs and strip.
   */
  function SanitizeInput(input: Option<string>): string {
    match input
    case None => ""
    case Some(s) => Strip(CollapseSpace(Take(FilterChars(s, KeptChar), MaxQueryLength)))
  }

  /** The collapsed text is single-spaced, begins with a space exactly when `s` does, and its other characters come from `s`. */
  lemma {:induction false} CollapseSpec(s: string)
    ensures SingleSpaced(CollapseSpace(s))
    ensures CollapseSpace(s) != [] <==> s != []
    ensures s != [] ==> (IsSpace(CollapseSpace(s)[0]) <==> IsSpace(s[0]))
    ensures forall k :: 0 <= k < |CollapseSpace(s)| && !IsSpace(CollapseSpace(s)[k]) ==> CollapseSpace(s)[k] in s
    decreases |s|
  {
    if s != [] {
      var r := CollapseSpace(s);
      if IsSpace(s[0]) {
        var n := LeadingSpace(s);
        var rest := s[n..];
        CollapseSpec(rest);
        forall k | 0 <= k < |r| && !IsSpace(r[k]) ensures r[k] in s {
          assert r[k] == CollapseSpace(rest)[k - 1];
          assert r[k] in rest;
        }
        assert SingleSpaced(r) by {
          forall k | 0 <= k < |r| && IsSpace(r[k]) ensures r[k] == ' ' && (k + 1 < |r| ==> !IsSpace(r[k + 1])) {
            if k == 0 {
              assert k + 1 < |r| ==> !IsSpace(rest[0]) && r[1] == CollapseSpace(rest)[0];
            } else {
              assert r[k] == CollapseSpace(rest)[k - 1];
            }
          }
        }
      } else {
        CollapseSpec(s[1..]);
        var rest := CollapseSpace(s[1..]);
        assert r == [s[0]] + rest;
        forall k | 0 <= k < |r| && !IsSpace(r[k]) ensures r[k] in s {
          if k > 0 {
            assert r[k] == rest[k - 1];
            assert r[k] in s[1..];
          }
        }
        assert SingleSpaced(r) by {
          forall k | 0 <= k < |r| && IsSpace(r[k]) ensures r[k] == ' ' && (k + 1 < |r| ==> !IsSpace(r[k + 1])) {
            assert k > 0;
            assert r[k] == rest[k - 1];
            assert k + 1 < |r| ==> r[k + 1] == rest[k];
          }
        }
      }
    }
  }

  /** Stripping takes a slice, which keeps single spacing. */
  lemma StripSingleSpaced(s: string)
    requires SingleSpaced(s)
    ensures SingleSpaced(Strip(s))
  {
    var a := LeadingSpace(s);
    var l := s[a..];
    assert SingleSpaced(l) by {
      forall k | 0 <= k < |l| && IsSpace(l[k]) ensures l[k] == ' ' && (k + 1 < |l| ==> !IsSpace(l[k + 1])) {
        assert l[k] == s[a + k];
        assert k + 1 < |l| ==> l[k + 1] == s[a + k + 1];
      }
    }
    var b := TrailingSpace(l);
    assert Strip(s) == l[..b];
  }

  /**
   * What `sanitize_input` returns: nothing for a value that is not a
   * string; otherwise at most the maximum length, no whitespace at either
   * end, every whitespace a single plain space, and every character
   * printable.
   */
  lemma SanitizeSpec(input: Option<string>)
    ensures input.None? ==> SanitizeInput(input) == []
    ensures var r := SanitizeInput(input);
      && |r| <= MaxQueryLength
      && (r != [] ==> !IsSpace(r[0]) && !IsSpace(r[|r| - 1]))
      && SingleSpaced(r)
      && forall k :: 0 <= k < |r| ==> IsPrintable(r[k])
  {
    if input.Some? {
      var t := Take(FilterChars(input.value, KeptChar), MaxQueryLength);
      var c := CollapseSpace(t);
      var r := Strip(c);
      CollapseSpec(t);
      StripSpec(c);
      StripSingleSpaced(c);
      KeptAfterFilter(input.value);
      PrintableAfterCollapse(t);
      forall k | 0 <= k < |r| ensures IsPrintable(r[k]) {
        assert r[k] in c;
      }
    }
  }

  /** Every character the filter lets through, and so every one the cut keeps, is kept. */
  lemma KeptAfterFilter(s: string)
    ensures forall x :: x in Take(FilterChars(s, KeptChar), MaxQueryLength) ==> KeptChar(x)
  {
    var f := FilterChars(s, KeptChar);
    forall x | x in Take(f, MaxQueryLength) ensures KeptChar(x) {
      assert x in f;
    }
  }

  /** Collapsing whitespace in kept characters leaves only printable ones: a newline becomes a plain space. */
  lemma PrintableAfterCollapse(t: string)
    requires forall x :: x in t ==> KeptChar(x)
    ensures forall x :: x in CollapseSpace(t) ==> IsPrintable(x)
  {
    var c := CollapseSpace(t);
    CollapseSpec(t);
    forall x | x in c ensures IsPrintable(x) {
      var j :| 0 <= j < |c| && c[j] == x;
      if !IsSpace(c[j]) {
        assert c[j] in t;
      }
    }
  }

  /** A single-spaced text collapses to itself. */
  lemma {:induction false} CollapseFixed(s: string)
    requires SingleSpaced(s)
    ensures CollapseSpace(s) == s
    decreases |s|
  {
    if s != [] {
      assert SingleSpaced(s[1..]) by {
        forall k | 0 <= k < |s[1..]| && IsSpace(s[1..][k]) ensures s[1..][k] == ' ' && (k + 1 < |s[1..]| ==> !IsSpace(s[1..][k + 1])) {
          assert s[1..][k] == s[k + 1];
        }
      }
      CollapseFixed(s[1..]);
      if IsSpace(s[0]) {
        assert LeadingSpace(s) == 1;
      }
    }
  }

  /** Sanitising a sanitised text changes nothing. */
  lemma SanitizeIdempotent(input: Option<string>)
    ensures SanitizeInput(Some(SanitizeInput(input))) == SanitizeInput(input)
  {
    var r := SanitizeInput(input);
    SanitizeSpec(input);
    assert forall k :: 0 <= k < |r| ==> KeptChar(r[k]);
    FilterCharsAll(r, KeptChar);
    CollapseFixed(r);
    StripOfTrimmed(r);
  }

  // ------------------------------------------------------- SecurityValidator.validate_query

  /** A dangerous pattern: its source text and whether `re.search(pattern, q, re.IGNORECASE)` finds it. */
  datatype Pattern = Pattern(source: string, found: string -> bool)

  /** The check that failed first, with the pattern's text for a dangerous one. */
  datatype Verdict = Valid | EmptyQuery | TooLong | Disallowed(pattern: string) | InvalidChars

  /** The source of the first pattern found in `q`. */
  function FirstFound(patterns: seq<Pattern>, q: string): Option<string> {
    if patterns == [] then None
    else if patterns[0].found(q) then Some(patterns[0].source)
    else FirstFound(patterns[1..], q)
  }

  /** `[a-zA-Z0-9\s\-_]` */
  predicate QueryChar(c: char) {
    IsAsciiAlnum(c) || IsRegexSpace(c) || c == '-' || c == '_'
  }

  /** `validate_query` with the copy's dangerous patterns. */
  function ValidateQuery(q: string, patterns: seq<Pattern>): Verdict {
    if q == [] then EmptyQuery
    else if |q| > MaxQueryLength then TooLong
    else match FirstFound(patterns, q)
      case Some(p) => Disallowed(p)
      case None => if forall k :: 0 <= k < |q| ==> QueryChar(q[k]) then Valid else InvalidChars
  }

  lemma {:induction false} FirstFoundSpec(patterns: seq<Pattern>, q: string)
    ensures FirstFound(patterns, q).None? <==> forall i :: 0 <= i < |patterns| ==> !patterns[i].found(q)
    ensures FirstFound(patterns, q).Some? ==> exists i :: (
      && 0 <= i < |patterns|
      && patterns[i].source == FirstFound(patterns, q).value && patterns[i].found(q)
      && forall j :: 0 <= j < i ==> !patterns[j].found(q))
  {
    if patterns != [] && !patterns[0].found(q) {
      FirstFoundSpec(patterns[1..], q);
      if FirstFound(patterns, q).Some? {
        var i :| 0 <= i < |patterns[1..]| && patterns[1..][i].source == FirstFound(patterns, q).value && patterns[1..][i].found(q)
          && forall j :: 0 <= j < i ==> !patterns[1..][j].found(q);
        assert patterns[i + 1] == patterns[1..][i];
        assert forall j :: 1 <= j < i + 1 ==> patterns[j] == patterns[1..][j - 1];
      }
    }
  }

  /**
   * A query is valid exactly when it is not empty, not too long, free of
   * every dangerous pattern and made of letters, digits, whitespace, `-`
   * and `_`; otherwise the checks fail in that order, the first
   * dangerous pattern found naming the verdict.
   */
  lemma ValidateQuerySpec(q: string, patterns: seq<Pattern>)
    ensures ValidateQuery(q, patterns) == Valid <==>
      && q != [] && |q| <= MaxQueryLength
      && (forall i :: 0 <= i < |patterns| ==> !patterns[i].found(q))
      && (forall k :: 0 <= k < |q| ==> QueryChar(q[k]))
    ensures ValidateQuery(q, patterns) == EmptyQuery <==> q == []
    ensures ValidateQuery(q, patterns) == TooLong <==> q != [] && |q| > MaxQueryLength
    ensures ValidateQuery(q, patterns).Disallowed? ==> exists i :: (
      && 0 <= i < |patterns|
      && patterns[i].source == ValidateQuery(q, patterns).pattern && patterns[i].found(q)
      && forall j :: 0 <= j < i ==> !patterns[j].found(q))
    ensures ValidateQuery(q, patterns) == InvalidChars ==>
      (forall i :: 0 <= i < |patterns| ==> !patterns[i].found(q)) && exists k :: 0 <= k < |q| && !QueryChar(q[k])
  {
    FirstFoundSpec(patterns, q);
  }

  /** A sanitised input is never rejected as too long. */
  lemma SanitizedNotTooLong(input: Option<string>, patterns: seq<Pattern>)
    ensures ValidateQuery(SanitizeInput(input), patterns) != TooLong
  {
    SanitizeSpec(input);
  }

  // ------------------------------------------------------- _handle_internal_command

  /**
   * `_handle_internal_command`: `Some(true)` for help and the binary
   * listing, `Some(false)` for exit, `None` for a query to search.
   */
  function InternalCommand(query: string): Option<bool> {
    Dispatch(Strip(LowerStr(query)))
  }

  /** The decision on the stripped, lower-case query. */
  function Dispatch(q: string): Option<bool> {
    if |q| > 100 then None
    else if q in ["help", "h"] then Some(true)
    else if q in ["list binaries", "lt", "lb"] then Some(true)
    else if q in ["exit", "q"] then Some(false)
    else None
  }

  /**
   * The outcome depends only on which command word the stripped, lower
   * case query is; the length guard never changes it, since every
   * command word is short.
   */
  lemma DispatchSpec(q: string)
    ensures Dispatch(q) == Some(true) <==> q == "help" || q == "h" || q == "list binaries" || q == "lt" || q == "lb"
    ensures Dispatch(q) == Some(false) <==> q == "exit" || q == "q"
    ensures |q| > 100 ==> Dispatch(q).None?
  {
  }

  // ------------------------------------------------------- SecureCustomCompleter

  /** `f"[{alias}] {cmd}"` */
  function PairDisplay(alias: string, cmd: string): string {
    "[" + alias + "] " + cmd
  }

  /** `text in alias.lower() or text in cmd.lower() or text in display_text.lower()` */
  predicate PairMatches(t: string, alias: string, cmd: string) {
    Contains(LowerStr(alias), t) || Contains(LowerStr(cmd), t) || Contains(LowerStr(PairDisplay(alias, cmd)), t)
  }

  /** The displays of the pairs that match, in order. */
  function PairHits(pairs: seq<(string, string)>, t: string): seq<string> {
    if pairs == [] then []
    else (if PairMatches(t, pairs[0].0, pairs[0].1) then [PairDisplay(pairs[0].0, pairs[0].1)] else []) + PairHits(pairs[1..], t)
  }

  /** The binaries whose lower-case name holds `t`, in order. */
  function BinaryHits(bins: seq<string>, t: string): (r: seq<string>)
    ensures forall b :: b in r ==> b in bins && Contains(LowerStr(b), t)
  {
    if bins == [] then []
    else (if Contains(LowerStr(bins[0]), t) then [bins[0]] else []) + BinaryHits(bins[1..], t)
  }

  /** `[binary for binary in binaries if binary]` */
  function NonEmptyNames(bins: seq<string>): (r: seq<string>)
    ensures forall b :: b in r ==> b != [] && b in bins
    ensures forall b :: b in bins && b != [] ==> b in r
  {
    if bins == [] then [] else (if bins[0] != [] then [bins[0]] else []) + NonEmptyNames(bins[1..])
  }

  /** The completions for the lower-cased text before the cursor: matching pairs, then matching binaries, at most 50. */
  function SecureCompletions(pairs: seq<(string, string)>, bins: seq<string>, t: string): seq<string> {
    Take(PairHits(pairs, t) + BinaryHits(bins, t), MaxCompletions)
  }

  /**
   * At most 50 completions; the matching pairs come first, in order, and
   * then the matching binaries, in order; every binary offered holds the
   * text; and when fewer than 50 match, all of them are offered.
   */
  lemma SecureCompletionsSpec(pairs: seq<(string, string)>, bins: seq<string>, t: string)
    ensures var r, p, b := SecureCompletions(pairs, bins, t), PairHits(pairs, t), BinaryHits(bins, t);
      && |r| <= MaxCompletions
      && (forall k :: 0 <= k < |r| && k < |p| ==> r[k] == p[k])
      && (forall k :: |p| <= k < |r| ==> r[k] == b[k - |p|] && r[k] in bins && Contains(LowerStr(r[k]), t))
      && (|p| + |b| <= MaxCompletions ==> r == p + b)
  {
    var p, b := PairHits(pairs, t), BinaryHits(bins, t);
    assert SecureCompletions(pairs, bins, t) == Take(p + b, MaxCompletions);
    TakeOfHits(p, b, MaxCompletions, bins, t);
  }

  /** `TakeOfAppend` for a second part drawn from `bins` and holding `t`. */
  lemma TakeOfHits(p: seq<string>, b: seq<string>, n: nat, bins: seq<string>, t: string)
    requires forall x :: x in b ==> x in bins && Contains(LowerStr(x), t)
    ensures var r := Take(p + b, n);
      && |r| <= n
      && (forall k :: 0 <= k < |r| && k < |p| ==> r[k] == p[k])
      && (forall k :: |p| <= k < |r| ==> r[k] == b[k - |p|] && r[k] in bins && Contains(LowerStr(r[k]), t))
      && (|p| + |b| <= n ==> r == p + b)
  {
    var r := Take(p + b, n);
    TakeOfAppend(p, b, n);
    forall k | |p| <= k < |r| ensures r[k] == b[k - |p|] && r[k] in bins && Contains(LowerStr(r[k]), t) {
      var x := b[k - |p|];
      assert r[k] == x;
      assert x in b;
    }
  }

  /** The first `n` of `p + b`: a prefix of `p`, then a prefix of `b`. */
  lemma TakeOfAppend<T>(p: seq<T>, b: seq<T>, n: nat)
    ensures var r := Take(p + b, n);
      && |r| <= n
      && (forall k :: 0 <= k < |r| && k < |p| ==> r[k] == p[k])
      && (forall k :: |p| <= k < |r| ==> r[k] == b[k - |p|])
      && (|p| + |b| <= n ==> r == p + b)
  {
  }

  lemma PairHitsStep(pairs: seq<(string, string)>, i: nat, t: string)
    requires i < |pairs|
    ensures PairHits(pairs[i..], t) == (if PairMatches(t, pairs[i].0, pairs[i].1) then [PairDisplay(pairs[i].0, pairs[i].1)] else []) + PairHits(pairs[i + 1..], t)
  {
    assert pairs[i..][1..] == pairs[i + 1..];
  }

  lemma BinaryHitsStep(bins: seq<string>, j: nat, t: string)
    requires j < |bins|
    ensures BinaryHits(bins[j..], t) == (if Contains(LowerStr(bins[j]), t) then [bins[j]] else []) + BinaryHits(bins[j + 1..], t)
  {
    assert bins[j..][1..] == bins[j + 1..];
  }

  /** `SecureCustomCompleter`: the command pairs and the non-empty binary names. */
  class SecureCompleter {
    const commandPairs: seq<(string, string)>
    const binaries: seq<string>

    constructor(commandPairs: seq<(string, string)>, binaries: seq<string>)
      ensures this.commandPairs == commandPairs && this.binaries == NonEmptyNames(binaries)
    {
      this.commandPairs := commandPairs;
      this.binaries := NonEmptyNames(binaries);
    }

    /** `get_completions` for the text before the cursor. */
    method GetCompletions(text: string) returns (r: seq<string>)
      ensures r == SecureCompletions(commandPairs, binaries, LowerStr(text))
    {
      var t := LowerStr(text);
      r := CollectPairs(commandPairs, t);
      r := CollectBinaries(r, binaries, t);
      TakeConcat(PairHits(commandPairs, t), BinaryHits(binaries, t), MaxCompletions);
    }
  }

  /** The loop over the command pairs, which stops at the cap. */
  method CollectPairs(pairs: seq<(string, string)>, t: string) returns (r: seq<string>)
    ensures r == Take(PairHits(pairs, t), MaxCompletions)
  {
    var completionCount := 0;
    r := [];
    var i := 0;
    while i < |pairs|
      invariant i <= |pairs| && completionCount == |r| <= MaxCompletions
      invariant r + PairHits(pairs[i..], t) == PairHits(pairs, t)
    {
      if completionCount >= MaxCompletions {
        TakeFull(r, PairHits(pairs[i..], t), MaxCompletions);
        return;
      }
      var alias, cmd := pairs[i].0, pairs[i].1;
      var displayText := PairDisplay(alias, cmd);
      PairHitsStep(pairs, i, t);
      if PairMatches(t, alias, cmd) {
        ghost var rest := PairHits(pairs[i + 1..], t);
        assert r + ([displayText] + rest) == (r + [displayText]) + rest;
        r := r + [displayText];
        completionCount := completionCount + 1;
      } else {
        assert PairHits(pairs[i..], t) == PairHits(pairs[i + 1..], t);
      }
      i := i + 1;
    }
  }

  /** The loop over the binaries, continuing from the completions `r0` gathered so far. */
  method CollectBinaries(r0: seq<string>, bins: seq<string>, t: string) returns (r: seq<string>)
    requires |r0| <= MaxCompletions
    ensures r == Take(r0 + BinaryHits(bins, t), MaxCompletions)
  {
    r := r0;
    var completionCount := |r0|;
    var j := 0;
    while j < |bins|
      invariant j <= |bins| && completionCount == |r| <= MaxCompletions
      invariant r + BinaryHits(bins[j..], t) == r0 + BinaryHits(bins, t)
    {
      if completionCount >= MaxCompletions {
        TakeFull(r, BinaryHits(bins[j..], t), MaxCompletions);
        return;
      }
      BinaryHitsStep(bins, j, t);
      if Contains(LowerStr(bins[j]), t) {
        ghost var rest := BinaryHits(bins[j + 1..], t);
        assert r + ([bins[j]] + rest) == (r + [bins[j]]) + rest;
        r := r + [bins[j]];
        completionCount := completionCount + 1;
      } else {
        assert BinaryHits(bins[j..], t) == BinaryHits(bins[j + 1..], t);
      }
      j := j + 1;
    }
  }

  // ------------------------------------------------------- search results

  /** An element of a function's `examples`: its string fields. */
  type Example = map<string, string>

  /** `example.get(key, "")` */
  function Field(ex: Example, key: string): string {
    if key in ex then ex[key] else ""
  }

  /** A validated GTFOBins function: `function`, `description` and `examples`, absent ones empty. */
  datatype GtfFunction = GtfFunction(name: string, description: string, examples: seq<Example>)

  /** A validated GTFOBins entry: `name` and `functions`. */
  datatype Binary = Binary(name: string, functions: seq<GtfFunction>)

  /** A result of the package's search; a function without examples gives the empty example. */
  datatype Hit = Hit(binary: string, func: string, functionDesc: string, example: Example)

  /** A result of the single-file search, which copies the example's code and description. */
  datatype ScanHit = ScanHit(binary: string, func: string, functionDesc: string, code: string, exampleDesc: string)

  /**
   * One step of a capped collection: `r` has room, `x` is appended and cut
   * at `n`, and `rest` would follow. Either the list is still short and
   * continues as a prefix of `all`, or it is full and is `all` cut at `n`.
   */
  lemma CapStep<T>(r: seq<T>, x: seq<T>, rest: seq<T>, all: seq<T>, n: nat)
    requires |r| < n && r + (x + rest) == all
    ensures |Take(r + x, n)| < n ==> Take(r + x, n) + rest == all
    ensures |Take(r + x, n)| == n ==> Take(r + x, n) == Take(all, n)
  {
    assert all == (r + x) + rest;
    if |r + x| >= n {
      TakeFull(r + x, rest, n);
    }
  }

  /** A map from each key to the last element with that key. */
  function IndexBy<T>(xs: seq<T>, key: T -> string): map<string, T> {
    if xs == [] then map[]
    else IndexBy(xs[..|xs| - 1], key)[key(xs[|xs| - 1]) := xs[|xs| - 1]]
  }

  lemma IndexBySpec<T>(xs: seq<T>, key: T -> string, k: string)
    ensures k in IndexBy(xs, key) <==> exists i :: 0 <= i < |xs| && key(xs[i]) == k
    ensures k in IndexBy(xs, key) ==> exists i :: (
      && 0 <= i < |xs| && key(xs[i]) == k && IndexBy(xs, key)[k] == xs[i]
      && forall j :: i < j < |xs| ==> key(xs[j]) != k)
  {
    IndexByKeys(xs, key, k);
    if k in IndexBy(xs, key) {
      IndexByLast(xs, key, k);
    }
  }

  lemma {:induction false} IndexByKeys<T>(xs: seq<T>, key: T -> string, k: string)
    ensures k in IndexBy(xs, key) <==> exists i :: 0 <= i < |xs| && key(xs[i]) == k
  {
    if xs != [] {
      var n := |xs| - 1;
      var front := xs[..n];
      IndexByKeys(front, key, k);
      if k in IndexBy(xs, key) && key(xs[n]) != k {
        var i :| 0 <= i < |front| && key(front[i]) == k;
        assert xs[i] == front[i];
      }
      if exists i :: 0 <= i < |xs| && key(xs[i]) == k {
        var i :| 0 <= i < |xs| && key(xs[i]) == k;
        if i < n {
          assert front[i] == xs[i];
        }
      }
    }
  }

  lemma {:induction false} IndexByLast<T>(xs: seq<T>, key: T -> string, k: string)
    requires k in IndexBy(xs, key)
    ensures exists i :: (
      && 0 <= i < |xs| && key(xs[i]) == k && IndexBy(xs, key)[k] == xs[i]
      && forall j :: i < j < |xs| ==> key(xs[j]) != k)
  {
    var n := |xs| - 1;
    if key(xs[n]) == k {
      assert IndexBy(xs, key)[k] == xs[n];
    } else {
      var front := xs[..n];
      assert k in IndexBy(front, key);
      IndexByLast(front, key, k);
      var i :| 0 <= i < |front| && key(front[i]) == k && IndexBy(front, key)[k] == front[i]
        && forall j :: i < j < |front| ==> key(front[j]) != k;
      assert xs[i] == front[i];
      assert forall j :: i < j < |xs| ==> key(xs[j]) != k by {
        forall j | i < j < |xs| ensures key(xs[j]) != k {
          if j < n { assert xs[j] == front[j]; }
        }
      }
    }
  }

  /** `tool['name'].lower()` */
  function NameKey(b: Binary): string {
    LowerStr(b.name)
  }

  /** `{tool['name'].lower(): tool for tool in data}` */
  function IndexByName(data: seq<Binary>): map<string, Binary> {
    IndexBy(data, NameKey)
  }

  /** Every lower-case name is a key, and it maps to the last entry with that name. */
  lemma IndexByNameSpec(data: seq<Binary>, k: string)
    ensures k in IndexByName(data) <==> exists i :: 0 <= i < |data| && NameKey(data[i]) == k
    ensures k in IndexByName(data) ==> exists i :: (
      && 0 <= i < |data| && NameKey(data[i]) == k && IndexByName(data)[k] == data[i]
      && forall j :: i < j < |data| ==> NameKey(data[j]) != k)
  {
    IndexBySpec(data, NameKey, k);
  }

  /** `function_filter.lower() if function_filter else None` */
  function FilterOf(functionFilter: Option<string>): Option<string> {
    match functionFilter
    case Some(f) => if f != [] then Some(LowerStr(f)) else None
    case None => None
  }

  /** `f.get('function', '').strip().lower() == function_filter` */
  predicate FunctionMatches(f: GtfFunction, filter: string) {
    LowerStr(Strip(f.name)) == filter
  }

  /** The functions searched: all of them, or those the filter names. */
  function FilteredFunctions(fs: seq<GtfFunction>, filter: Option<string>): (r: seq<GtfFunction>)
    ensures forall f :: f in r ==> f in fs && (filter.Some? ==> FunctionMatches(f, filter.value))
    ensures forall f :: f in fs && (filter.Some? ==> FunctionMatches(f, filter.value)) ==> f in r
  {
    if fs == [] then []
    else (if filter.None? || FunctionMatches(fs[0], filter.value) then [fs[0]] else []) + FilteredFunctions(fs[1..], filter)
  }

  /** One result per example of `f`. */
  function ExampleHits(binary: string, f: GtfFunction, exs: seq<Example>): (r: seq<Hit>)
    ensures |r| == |exs|
    ensures forall k :: 0 <= k < |r| ==> r[k] == Hit(binary, f.name, f.description, exs[k])
  {
    if exs == [] then [] else [Hit(binary, f.name, f.description, exs[0])] + ExampleHits(binary, f, exs[1..])
  }

  /** The results one function gives: its examples, or one bare result when it has none but a non-blank description. */
  function FunctionHits(binary: string, f: GtfFunction): seq<Hit> {
    if f.examples != [] then ExampleHits(binary, f, f.examples)
    else if Strip(f.description) != [] then [Hit(binary, f.name, f.description, map[])]
    else []
  }

  function FunctionsHits(binary: string, fs: seq<GtfFunction>): seq<Hit> {
    if fs == [] then [] else FunctionHits(binary, fs[0]) + FunctionsHits(binary, fs[1..])
  }

  /** `_search_gtfobins_secure` of the package, on the name index and the lower-cased filter. */
  function SearchResults(index: map<string, Binary>, filter: Option<string>, query: string): seq<Hit> {
    var q := Strip(LowerStr(query));
    if |q| < 2 || q !in index then []
    else Take(FunctionsHits(index[q].name, FilteredFunctions(index[q].functions, filter)), MaxResults)
  }

  /** `h` is what function `f` of binary `b` contributes: one of its examples, or the bare result. */
  predicate HitFrom(h: Hit, b: string, f: GtfFunction) {
    && h.binary == b && h.func == f.name && h.functionDesc == f.description
    && (h.example in f.examples || (f.examples == [] && h.example == map[] && Strip(f.description) != []))
  }

  /** Every result comes from one of the functions, and every example of every function is a result. */
  lemma {:induction false} FunctionsHitsSpec(b: string, fs: seq<GtfFunction>)
    ensures forall h :: h in FunctionsHits(b, fs) ==> exists f :: f in fs && HitFrom(h, b, f)
    ensures forall f, ex :: f in fs && ex in f.examples ==> Hit(b, f.name, f.description, ex) in FunctionsHits(b, fs)
    ensures forall f :: f in fs && f.examples == [] && Strip(f.description) != [] ==> Hit(b, f.name, f.description, map[]) in FunctionsHits(b, fs)
  {
    if fs != [] {
      FunctionsHitsSpec(b, fs[1..]);
      var f0 := fs[0];
      var mine := FunctionHits(b, f0);
      assert FunctionsHits(b, fs) == mine + FunctionsHits(b, fs[1..]);
      forall h | h in mine ensures HitFrom(h, b, f0) {
        if f0.examples != [] {
          var k :| 0 <= k < |mine| && mine[k] == h;
          assert h.example == f0.examples[k];
        }
      }
      forall ex | ex in f0.examples ensures Hit(b, f0.name, f0.description, ex) in mine {
        var k :| 0 <= k < |f0.examples| && f0.examples[k] == ex;
        assert mine[k] == Hit(b, f0.name, f0.description, ex);
      }
    }
  }

  /**
   * The package's search: nothing for a query shorter than two characters
   * or not a binary's name; otherwise at most 100 results, each naming the
   * entry found, from a function that the filter (when set) names; and
   * below the cap every example of every such function is a result.
   */
  lemma SearchResultsSpec(index: map<string, Binary>, filter: Option<string>, query: string)
    ensures var q, r := Strip(LowerStr(query)), SearchResults(index, filter, query);
      && (|q| < 2 || q !in index ==> r == [])
      && |r| <= MaxResults
      && forall h :: h in r ==> exists f :: (
        && f in index[q].functions && (filter.Some? ==> FunctionMatches(f, filter.value))
        && HitFrom(h, index[q].name, f))
    ensures var q := Strip(LowerStr(query));
      |q| >= 2 && q in index && |FunctionsHits(index[q].name, FilteredFunctions(index[q].functions, filter))| <= MaxResults ==>
        forall f, ex :: f in index[q].functions && (filter.Some? ==> FunctionMatches(f, filter.value)) && ex in f.examples ==>
          Hit(index[q].name, f.name, f.description, ex) in SearchResults(index, filter, query)
  {
    var q := Strip(LowerStr(query));
    if |q| >= 2 && q in index {
      var fs := FilteredFunctions(index[q].functions, filter);
      FunctionsHitsSpec(index[q].name, fs);
      var all := FunctionsHits(index[q].name, fs);
      assert forall h :: h in Take(all, MaxResults) ==> h in all;
    }
  }

  /** `GTFSearch` of the package: the lower-cased function filter, the data and its name index. */
  class GtfSearch {
    const functionFilter: Option<string>
    const data: seq<Binary>
    const index: map<string, Binary>

    constructor(functionFilter: Option<string>, data: seq<Binary>)
      ensures this.functionFilter == FilterOf(functionFilter)
      ensures this.data == data && index == IndexByName(data)
    {
      this.functionFilter := FilterOf(functionFilter);
      this.data := data;
      index := IndexByName(data);
    }

    /** `_search_gtfobins_secure` */
    method SearchSecure(query: string) returns (results: seq<Hit>)
      ensures results == SearchResults(index, functionFilter, query)
    {
      var q := Strip(LowerStr(query));
      if |q| < 2 || q !in index {
        return [];
      }
      var entry := index[q];
      var functions := FilteredFunctions(entry.functions, functionFilter);
      results := CollectFunctionHits(entry.name, functions);
    }
  }

  /** The loop over the functions of the entry found, with its result counter. */
  lemma FunctionsHitsStep(binary: string, fs: seq<GtfFunction>, i: nat)
    requires i < |fs|
    ensures FunctionsHits(binary, fs[i..]) == FunctionHits(binary, fs[i]) + FunctionsHits(binary, fs[i + 1..])
  {
    assert fs[i..][0] == fs[i] && fs[i..][1..] == fs[i + 1..];
  }

  method CollectFunctionHits(binary: string, functions: seq<GtfFunction>) returns (results: seq<Hit>)
    ensures results == Take(FunctionsHits(binary, functions), MaxResults)
  {
    ghost var all := FunctionsHits(binary, functions);
    results := [];
    var resultCount := 0;
    var i := 0;
    while i < |functions|
      invariant i <= |functions| && resultCount == |results| <= MaxResults
      invariant |results| < MaxResults ==> results + FunctionsHits(binary, functions[i..]) == all
      invariant |results| == MaxResults ==> results == Take(all, MaxResults)
    {
      if resultCount >= MaxResults {
        return;
      }
      var func := functions[i];
      FunctionsHitsStep(binary, functions, i);
      ghost var before := results;
      results := AppendFunctionHits(results, binary, func);
      CapStep(before, FunctionHits(binary, func), FunctionsHits(binary, functions[i + 1..]), all, MaxResults);
      resultCount := |results|;
      i := i + 1;
    }
    assert |results| < MaxResults ==> results == all;
  }

  /** The body of that loop: the function's examples, or the bare result. */
  method AppendFunctionHits(r0: seq<Hit>, binary: string, func: GtfFunction) returns (results: seq<Hit>)
    requires |r0| < MaxResults
    ensures results == Take(r0 + FunctionHits(binary, func), MaxResults)
  {
    if func.examples != [] {
      results := AppendExampleHits(r0, binary, func);
    } else if Strip(func.description) != [] {
      results := r0 + [Hit(binary, func.name, func.description, map[])];
    } else {
      results := r0;
    }
  }

  /** The inner loop over one function's examples. */
  lemma ExampleStep(binary: string, f: GtfFunction, exs: seq<Example>, j: nat)
    requires j < |exs|
    ensures ExampleHits(binary, f, exs[j..]) == [Hit(binary, f.name, f.description, exs[j])] + ExampleHits(binary, f, exs[j + 1..])
  {
    assert exs[j..][0] == exs[j] && exs[j..][1..] == exs[j + 1..];
  }

  method AppendExampleHits(r0: seq<Hit>, binary: string, func: GtfFunction) returns (results: seq<Hit>)
    requires |r0| <= MaxResults
    ensures results == Take(r0 + ExampleHits(binary, func, func.examples), MaxResults)
  {
    var examples := func.examples;
    results := r0;
    var resultCount := |r0|;
    var j := 0;
    while j < |examples|
      invariant j <= |examples| && resultCount == |results| <= MaxResults
      invariant results + ExampleHits(binary, func, examples[j..]) == r0 + ExampleHits(binary, func, examples)
    {
      if resultCount >= MaxResults {
        TakeFull(results, ExampleHits(binary, func, examples[j..]), MaxResults);
        return;
      }
      var hit := Hit(binary, func.name, func.description, examples[j]);
      ExampleStep(binary, func, examples, j);
      assert results + ([hit] + ExampleHits(binary, func, examples[j + 1..])) == (results + [hit]) + ExampleHits(binary, func, examples[j + 1..]);
      results := results + [hit];
      resultCount := resultCount + 1;
      j := j + 1;
    }
  }

  // ------------------------------------------------------- the single file's linear scan

  /** One result per example, with the example's code and description. */
  function ScanExampleHits(binary: string, f: GtfFunction, exs: seq<Example>): (r: seq<ScanHit>)
    ensures |r| == |exs|
    ensures forall k :: 0 <= k < |r| ==> r[k] == ScanHit(binary, f.name, f.description, Field(exs[k], "code"), Field(exs[k], "description"))
  {
    if exs == [] then []
    else [ScanHit(binary, f.name, f.description, Field(exs[0], "code"), Field(exs[0], "description"))] + ScanExampleHits(binary, f, exs[1..])
  }

  function ScanFunctionsHits(binary: string, fs: seq<GtfFunction>): seq<ScanHit> {
    if fs == [] then [] else ScanExampleHits(binary, fs[0], fs[0].examples) + ScanFunctionsHits(binary, fs[1..])
  }

  /** `binary = entry.get("name", "").lower()`, skipped when empty, searched when equal to the query. */
  predicate ScanSelects(b: Binary, q: string) {
    LowerStr(b.name) != [] && LowerStr(b.name) == q
  }

  function ScanHits(data: seq<Binary>, q: string): seq<ScanHit> {
    if data == [] then []
    else (if ScanSelects(data[0], q) then ScanFunctionsHits(data[0].name, data[0].functions) else []) + ScanHits(data[1..], q)
  }

  lemma ScanHitsStep(data: seq<Binary>, i: nat, q: string)
    requires i < |data|
    ensures ScanHits(data[i..], q)
      == (if ScanSelects(data[i], q) then ScanFunctionsHits(data[i].name, data[i].functions) else []) + ScanHits(data[i + 1..], q)
  {
    assert data[i..][0] == data[i] && data[i..][1..] == data[i + 1..];
  }

  /** `_search_gtfobins_secure` of the single file on its data. */
  function ScanResults(data: seq<Binary>, query: string): seq<ScanHit> {
    var q := Strip(LowerStr(query));
    if |q| < 2 then [] else Take(ScanHits(data, q), MaxResults)
  }

  /** `h` is what example `ex` of function `f` of entry `b` contributes. */
  predicate ScanHitFrom(h: ScanHit, b: Binary, f: GtfFunction, ex: Example) {
    h == ScanHit(b.name, f.name, f.description, Field(ex, "code"), Field(ex, "description"))
  }

  lemma {:induction false} ScanFunctionsHitsSpec(b: Binary, fs: seq<GtfFunction>)
    ensures forall h :: h in ScanFunctionsHits(b.name, fs) ==> exists f, ex :: f in fs && ex in f.examples && ScanHitFrom(h, b, f, ex)
  {
    if fs != [] {
      ScanFunctionsHitsSpec(b, fs[1..]);
      var mine := ScanExampleHits(b.name, fs[0], fs[0].examples);
      forall h | h in mine ensures exists ex :: ex in fs[0].examples && ScanHitFrom(h, b, fs[0], ex) {
        var k :| 0 <= k < |mine| && mine[k] == h;
        assert ScanHitFrom(h, b, fs[0], fs[0].examples[k]);
      }
    }
  }

  lemma {:induction false} ScanHitsSpec(data: seq<Binary>, q: string)
    ensures forall h :: h in ScanHits(data, q) ==> exists i, f, ex :: (
      && 0 <= i < |data| && LowerStr(data[i].name) == q
      && f in data[i].functions && ex in f.examples && ScanHitFrom(h, data[i], f, ex))
  {
    if data != [] {
      ScanHitsSpec(data[1..], q);
      ScanFunctionsHitsSpec(data[0], data[0].functions);
      forall h | h in ScanHits(data, q) ensures exists i, f, ex :: (
        && 0 <= i < |data| && LowerStr(data[i].name) == q
        && f in data[i].functions && ex in f.examples && ScanHitFrom(h, data[i], f, ex))
      {
        var mine := if ScanSelects(data[0], q) then ScanFunctionsHits(data[0].name, data[0].functions) else [];
        if h in mine {
          var f, ex :| f in data[0].functions && ex in f.examples && ScanHitFrom(h, data[0], f, ex);
          assert LowerStr(data[0].name) == q;
        } else {
          assert h in ScanHits(data[1..], q);
          var i, f, ex :| 0 <= i < |data[1..]| && LowerStr(data[1..][i].name) == q
            && f in data[1..][i].functions && ex in f.examples && ScanHitFrom(h, data[1..][i], f, ex);
          assert data[i + 1] == data[1..][i];
        }
      }
    }
  }

  /** Every example of every function listed contributes its result. */
  lemma {:induction false} ScanFunctionsHitsComplete(b: Binary, fs: seq<GtfFunction>)
    ensures forall f, ex :: f in fs && ex in f.examples ==>
      ScanHit(b.name, f.name, f.description, Field(ex, "code"), Field(ex, "description")) in ScanFunctionsHits(b.name, fs)
  {
    if fs != [] {
      ScanFunctionsHitsComplete(b, fs[1..]);
      var mine := ScanExampleHits(b.name, fs[0], fs[0].examples);
      forall f, ex | f in fs && ex in f.examples
        ensures ScanHit(b.name, f.name, f.description, Field(ex, "code"), Field(ex, "description")) in ScanFunctionsHits(b.name, fs)
      {
        if f == fs[0] {
          var k :| 0 <= k < |f.examples| && f.examples[k] == ex;
          assert mine[k] == ScanHit(b.name, f.name, f.description, Field(ex, "code"), Field(ex, "description"));
        } else {
          assert f in fs[1..];
        }
      }
    }
  }

  /** Every example of every function of an entry whose non-empty lower-case name is the query contributes its result. */
  lemma {:induction false} ScanHitsComplete(data: seq<Binary>, q: string)
    requires q != []
    ensures forall i, f, ex :: 0 <= i < |data| && LowerStr(data[i].name) == q && f in data[i].functions && ex in f.examples ==>
      ScanHit(data[i].name, f.name, f.description, Field(ex, "code"), Field(ex, "description")) in ScanHits(data, q)
  {
    if data != [] {
      ScanHitsComplete(data[1..], q);
      ScanFunctionsHitsComplete(data[0], data[0].functions);
      forall i, f, ex | 0 <= i < |data| && LowerStr(data[i].name) == q && f in data[i].functions && ex in f.examples
        ensures ScanHit(data[i].name, f.name, f.description, Field(ex, "code"), Field(ex, "description")) in ScanHits(data, q)
      {
        if i > 0 {
          assert data[1..][i - 1] == data[i];
        }
      }
    }
  }

  /**
   * The single file's search: nothing for a query shorter than two
   * characters; otherwise at most 100 results, each from an example of a
   * function of an entry whose lower-case name is the query; the cap is
   * reached when there are more, and below it every such example is
   * among the results.
   */
  lemma ScanResultsSpec(data: seq<Binary>, query: string)
    ensures var q, r := Strip(LowerStr(query)), ScanResults(data, query);
      && (|q| < 2 ==> r == [])
      && |r| <= MaxResults
      && forall h :: h in r ==> exists i, f, ex :: (
        && 0 <= i < |data| && LowerStr(data[i].name) == q
        && f in data[i].functions && ex in f.examples && ScanHitFrom(h, data[i], f, ex))
    ensures var q, r := Strip(LowerStr(query)), ScanResults(data, query);
      |q| >= 2 && |ScanHits(data, q)| >= MaxResults ==> |r| == MaxResults
    ensures var q := Strip(LowerStr(query));
      |q| >= 2 && |ScanHits(data, q)| <= MaxResults ==>
        forall i, f, ex :: 0 <= i < |data| && LowerStr(data[i].name) == q && f in data[i].functions && ex in f.examples ==>
          ScanHit(data[i].name, f.name, f.description, Field(ex, "code"), Field(ex, "description")) in ScanResults(data, query)
  {
    var q := Strip(LowerStr(query));
    ScanHitsSpec(data, q);
    assert forall h :: h in Take(ScanHits(data, q), MaxResults) ==> h in ScanHits(data, q);
    if |q| >= 2 {
      ScanHitsComplete(data, q);
    }
  }

  /** `_search_gtfobins_secure` of the single file: the loop over the entries. */
  method ScanSearch(data: seq<Binary>, query: string) returns (results: seq<ScanHit>)
    ensures results == ScanResults(data, query)
  {
    var q := Strip(LowerStr(query));
    if |q| < 2 {
      return [];
    }
    ghost var all := ScanHits(data, q);
    results := [];
    var resultCount := 0;
    var i := 0;
    while i < |data|
      invariant i <= |data| && resultCount == |results| <= MaxResults
      invariant |results| < MaxResults ==> results + ScanHits(data[i..], q) == all
      invariant |results| == MaxResults ==> results == Take(all, MaxResults)
    {
      if resultCount >= MaxResults {
        break;
      }
      var entry := data[i];
      ScanHitsStep(data, i, q);
      ghost var before := results;
      var binary := LowerStr(entry.name);
      if binary != [] && binary == q {
        results := ScanFunctions(results, entry.name, entry.functions);
      }
      ghost var mine := if ScanSelects(entry, q) then ScanFunctionsHits(entry.name, entry.functions) else [];
      CapStep(before, mine, ScanHits(data[i + 1..], q), all, MaxResults);
      resultCount := |results|;
      i := i + 1;
    }
    assert |results| < MaxResults ==> results == all;
  }

  /** The loop over the functions of a matching entry. */
  lemma ScanFunctionsHitsStep(binary: string, fs: seq<GtfFunction>, i: nat)
    requires i < |fs|
    ensures ScanFunctionsHits(binary, fs[i..]) == ScanExampleHits(binary, fs[i], fs[i].examples) + ScanFunctionsHits(binary, fs[i + 1..])
  {
    assert fs[i..][0] == fs[i] && fs[i..][1..] == fs[i + 1..];
  }

  method ScanFunctions(r0: seq<ScanHit>, binary: string, functions: seq<GtfFunction>) returns (results: seq<ScanHit>)
    requires |r0| <= MaxResults
    ensures results == Take(r0 + ScanFunctionsHits(binary, functions), MaxResults)
  {
    ghost var all := r0 + ScanFunctionsHits(binary, functions);
    results := r0;
    var resultCount := |r0|;
    var i := 0;
    while i < |functions|
      invariant i <= |functions| && resultCount == |results| <= MaxResults
      invariant |results| < MaxResults ==> results + ScanFunctionsHits(binary, functions[i..]) == all
      invariant |results| == MaxResults ==> results == Take(all, MaxResults)
    {
      if resultCount >= MaxResults {
        return;
      }
      var func := functions[i];
      ScanFunctionsHitsStep(binary, functions, i);
      ghost var before := results;
      results := ScanExamples(results, binary, func);
      CapStep(before, ScanExampleHits(binary, func, func.examples), ScanFunctionsHits(binary, functions[i + 1..]), all, MaxResults);
      resultCount := |results|;
      i := i + 1;
    }
    assert |results| < MaxResults ==> results == all;
  }

  lemma ScanExampleStep(binary: string, f: GtfFunction, exs: seq<Example>, j: nat)
    requires j < |exs|
    ensures ScanExampleHits(binary, f, exs[j..])
      == [ScanHit(binary, f.name, f.description, Field(exs[j], "code"), Field(exs[j], "description"))] + ScanExampleHits(binary, f, exs[j + 1..])
  {
    assert exs[j..][0] == exs[j] && exs[j..][1..] == exs[j + 1..];
  }

  /** The loop over one function's examples. */
  method ScanExamples(r0: seq<ScanHit>, binary: string, func: GtfFunction) returns (results: seq<ScanHit>)
    requires |r0| <= MaxResults
    ensures results == Take(r0 + ScanExampleHits(binary, func, func.examples), MaxResults)
  {
    var examples := func.examples;
    results := r0;
    var resultCount := |r0|;
    var j := 0;
    while j < |examples|
      invariant j <= |examples| && resultCount == |results| <= MaxResults
      invariant results + ScanExampleHits(binary, func, examples[j..]) == r0 + ScanExampleHits(binary, func, examples)
    {
      if resultCount >= MaxResults {
        TakeFull(results, ScanExampleHits(binary, func, examples[j..]), MaxResults);
        return;
      }
      var example := examples[j];
      var hit := ScanHit(binary, func.name, func.description, Field(example, "code"), Field(example, "description"));
      ScanExampleStep(binary, func, examples, j);
      assert results + ([hit] + ScanExampleHits(binary, func, examples[j + 1..])) == (results + [hit]) + ScanExampleHits(binary, func, examples[j + 1..]);
      results := results + [hit];
      resultCount := resultCount + 1;
      j := j + 1;
    }
  }

  // ------------------------------------------------------- _format_text_with_wrap

  /** Concatenation of a sequence of sequences. */
  function Flatten<T>(gs: seq<seq<T>>): seq<T> {
    if gs == [] then [] else gs[0] + Flatten(gs[1..])
  }

  /** Appending a word to a non-empty line adds the separator and the word. */
  lemma {:induction false} JoinSnoc(sep: string, ws: seq<string>, w: string)
    requires ws != []
    ensures Join(sep, ws + [w]) == Join(sep, ws) + sep + w
  {
    if |ws| == 1 {
      assert (ws + [w])[1..] == [w];
    } else {
      assert (ws + [w])[1..] == ws[1..] + [w];
      JoinSnoc(sep, ws[1..], w);
    }
  }

  /**
   * The word loop: `current` words with the counted length
   * `currentLength`; a word is added while the count plus the word plus
   * one stays within `maxLen`, otherwise the line is emitted and the word
   * starts the next one.
   */
  function Greedy(words: seq<string>, current: seq<string>, currentLength: int, maxLen: int): seq<seq<string>>
    decreases |words|
  {
    if words == [] then (if current != [] then [current] else [])
    else if currentLength + |words[0]| + 1 <= maxLen then
      Greedy(words[1..], current + [words[0]], currentLength + |words[0]| + 1, maxLen)
    else (if current != [] then [current] else []) + Greedy(words[1..], [words[0]], |words[0]|, maxLen)
  }

  /** `' '.join(current_line)` for each emitted line. */
  function JoinLines(gs: seq<seq<string>>): (r: seq<string>)
    ensures |r| == |gs|
    ensures forall k :: 0 <= k < |gs| ==> r[k] == Join(" ", gs[k])
  {
    if gs == [] then [] else [Join(" ", gs[0])] + JoinLines(gs[1..])
  }

  /** The output lines for one input line. */
  function FormatLine(line: string, maxLen: int): seq<string> {
    var l := Strip(line);
    if l == [] then [""]
    else if |l| <= maxLen then [l]
    else JoinLines(Greedy(Words(l), [], 0, maxLen))
  }

  function FormatLines(lines: seq<string>, maxLen: int): seq<string> {
    if lines == [] then []
    else FormatLines(lines[..|lines| - 1], maxLen) + FormatLine(lines[|lines| - 1], maxLen)
  }

  /** `_format_text_with_wrap` */
  function FormatText(text: string, maxLen: int): string {
    if text == [] then "" else Join("\n", FormatLines(SplitOn(text, '\n'), maxLen))
  }

  /** The emitted lines hold the current words and then the remaining ones, in order. */
  lemma {:induction false} GreedyFlatten(words: seq<string>, current: seq<string>, currentLength: int, maxLen: int)
    ensures Flatten(Greedy(words, current, currentLength, maxLen)) == current + words
    decreases |words|
  {
    if words == [] {
      if current != [] {
        assert Flatten([current]) == current + Flatten([]);
      }
    } else {
      var w := words[0];
      assert words == [w] + words[1..];
      if currentLength + |w| + 1 <= maxLen {
        GreedyFlatten(words[1..], current + [w], currentLength + |w| + 1, maxLen);
        assert current + words == (current + [w]) + words[1..];
      } else {
        var rest := Greedy(words[1..], [w], |w|, maxLen);
        GreedyFlatten(words[1..], [w], |w|, maxLen);
        if current != [] {
          assert Greedy(words, current, currentLength, maxLen) == [current] + rest;
          assert ([current] + rest)[1..] == rest;
          assert Flatten([current] + rest) == current + Flatten(rest);
        } else {
          assert Greedy(words, current, currentLength, maxLen) == rest;
        }
      }
    }
  }

  /** A line the loop may still emit: made of words, joined within its count, and counted within the limit once it has two words. */
  ghost predicate Pending(current: seq<string>, currentLength: int, maxLen: int) {
    && (forall k :: 0 <= k < |current| ==> IsWord(current[k]))
    && |Join(" ", current)| <= currentLength
    && (|current| >= 2 ==> currentLength <= maxLen)
  }

  /** A line as emitted: not empty, made of words, and within the limit when it has two or more. */
  ghost predicate Emitted(g: seq<string>, maxLen: int) {
    && g != []
    && (forall k :: 0 <= k < |g| ==> IsWord(g[k]))
    && (|g| >= 2 ==> |Join(" ", g)| <= maxLen)
  }

  /**
   * The counted length bounds the joined line and a line of two or more
   * words has a count within the limit; so every emitted line is
   * non-empty, made of words, and within the limit when it has two or
   * more of them.
   */
  lemma {:induction false} GreedyLines(words: seq<string>, current: seq<string>, currentLength: int, maxLen: int)
    requires forall k :: 0 <= k < |words| ==> IsWord(words[k])
    requires Pending(current, currentLength, maxLen)
    ensures forall k :: 0 <= k < |Greedy(words, current, currentLength, maxLen)| ==> Emitted(Greedy(words, current, currentLength, maxLen)[k], maxLen)
    decreases |words|
  {
    if words != [] {
      var w := words[0];
      assert IsWord(w);
      assert forall k :: 0 <= k < |words[1..]| ==> IsWord(words[1..][k]) by {
        forall k | 0 <= k < |words[1..]| ensures IsWord(words[1..][k]) { assert words[1..][k] == words[k + 1]; }
      }
      if currentLength + |w| + 1 <= maxLen {
        var next := current + [w];
        if current != [] {
          JoinSnoc(" ", current, w);
        }
        assert Pending(next, currentLength + |w| + 1, maxLen);
        GreedyLines(words[1..], next, currentLength + |w| + 1, maxLen);
      } else {
        assert Join(" ", [w]) == w;
        GreedyLines(words[1..], [w], |w|, maxLen);
        var rest := Greedy(words[1..], [w], |w|, maxLen);
        if current != [] {
          var gs := [current] + rest;
          assert Emitted(current, maxLen);
          forall k | 0 <= k < |gs| ensures Emitted(gs[k], maxLen) {
            if k > 0 { assert gs[k] == rest[k - 1]; }
          }
        }
      }
    }
  }

  /** The words of each line, one after the other. */
  function LinesWords(lines: seq<string>): seq<string> {
    if lines == [] then [] else Words(lines[0]) + LinesWords(lines[1..])
  }

  lemma {:induction false} LinesWordsOfJoined(gs: seq<seq<string>>)
    requires forall i, k :: 0 <= i < |gs| && 0 <= k < |gs[i]| ==> IsWord(gs[i][k])
    ensures LinesWords(JoinLines(gs)) == Flatten(gs)
  {
    if gs != [] {
      WordsOfJoin(gs[0]);
      LinesWordsOfJoined(gs[1..]);
      assert JoinLines(gs)[1..] == JoinLines(gs[1..]);
    }
  }

  /**
   * One input line: a blank line gives one empty line, a short one is
   * kept stripped, and a long one is wrapped so that the words of the
   * output lines are the words of the line in order and every output line
   * of two or more words fits the limit.
   */
  lemma FormatLineSpec(line: string, maxLen: int)
    ensures var l, out := Strip(line), FormatLine(line, maxLen);
      && (l == [] ==> out == [""])
      && (l != [] && |l| <= maxLen ==> out == [l])
      && LinesWords(out) == Words(l)
      && forall k :: 0 <= k < |out| && |Words(out[k])| >= 2 ==> |out[k]| <= maxLen
  {
    var l, out := Strip(line), FormatLine(line, maxLen);
    if l == [] {
      assert LinesWords(out) == Words("") + LinesWords([]);
    } else if |l| <= maxLen {
      assert LinesWords(out) == Words(l) + LinesWords([]);
    } else {
      var gs := Greedy(Words(l), [], 0, maxLen);
      GreedyFlatten(Words(l), [], 0, maxLen);
      GreedyLines(Words(l), [], 0, maxLen);
      LinesWordsOfJoined(gs);
      forall k | 0 <= k < |out| && |Words(out[k])| >= 2 ensures |out[k]| <= maxLen {
        assert Emitted(gs[k], maxLen);
        WordsOfJoin(gs[k]);
      }
    }
  }

  /** The lines for `word` followed by `more`: the word joins the current line, or the current line is emitted first. */
  lemma {:induction false} GreedyStep(word: string, more: seq<string>, current: seq<string>, currentLength: int, maxLen: int)
    ensures JoinLines(Greedy([word] + more, current, currentLength, maxLen))
      == if currentLength + |word| + 1 <= maxLen then JoinLines(Greedy(more, current + [word], currentLength + |word| + 1, maxLen))
         else (if current != [] then [Join(" ", current)] else []) + JoinLines(Greedy(more, [word], |word|, maxLen))
  {
    assert ([word] + more)[0] == word && ([word] + more)[1..] == more;
    if currentLength + |word| + 1 > maxLen {
      var rest := Greedy(more, [word], |word|, maxLen);
      assert Greedy([word] + more, current, currentLength, maxLen) == (if current != [] then [current] else []) + rest;
      if current != [] {
        assert ([current] + rest)[1..] == rest;
        assert JoinLines([current] + rest) == [Join(" ", current)] + JoinLines(rest);
      } else {
        assert [] + rest == rest;
      }
    }
  }

  /**
   * One word of the loop: it joins the current line when the count allows,
   * otherwise the current line (if any) is emitted and the word starts the
   * next one.
   */
  method WrapNext(lines: seq<string>, currentLine: seq<string>, currentLength: int, word: string, ghost more: seq<string>, maxLineLength: int)
    returns (lines': seq<string>, currentLine': seq<string>, currentLength': int)
    ensures lines' + JoinLines(Greedy(more, currentLine', currentLength', maxLineLength))
      == lines + JoinLines(Greedy([word] + more, currentLine, currentLength, maxLineLength))
  {
    GreedyStep(word, more, currentLine, currentLength, maxLineLength);
    if currentLength + |word| + 1 <= maxLineLength {
      lines', currentLine', currentLength' := lines, currentLine + [word], currentLength + |word| + 1;
    } else {
      ghost var rest := JoinLines(Greedy(more, [word], |word|, maxLineLength));
      if currentLine != [] {
        assert (lines + [Join(" ", currentLine)]) + rest == lines + ([Join(" ", currentLine)] + rest);
        lines' := lines + [Join(" ", currentLine)];
      } else {
        lines' := lines;
      }
      currentLine', currentLength' := [word], |word|;
    }
  }

  /** The loop over the words of a long line. */
  method WrapWords(words: seq<string>, maxLineLength: int) returns (lines: seq<string>)
    ensures lines == JoinLines(Greedy(words, [], 0, maxLineLength))
  {
    lines := [];
    var currentLine: seq<string> := [];
    var currentLength := 0;
    var i := 0;
    while i < |words|
      invariant i <= |words|
      invariant JoinLines(Greedy(words, [], 0, maxLineLength)) == lines + JoinLines(Greedy(words[i..], currentLine, currentLength, maxLineLength))
    {
      assert words[i..] == [words[i]] + words[i + 1..];
      lines, currentLine, currentLength := WrapNext(lines, currentLine, currentLength, words[i], words[i + 1..], maxLineLength);
      i := i + 1;
    }
    assert words[i..] == [];
    if currentLine != [] {
      lines := lines + [Join(" ", currentLine)];
    }
  }

  /** `_format_text_with_wrap`: the loop over the lines of the text. */
  method FormatTextWithWrap(text: string, maxLineLength: int) returns (r: string)
    ensures r == FormatText(text, maxLineLength)
  {
    if text == [] {
      return "";
    }
    var lines := SplitOn(text, '\n');
    var formattedLines: seq<string> := [];
    for i := 0 to |lines|
      invariant formattedLines == FormatLines(lines[..i], maxLineLength)
    {
      FormatLinesSnoc(lines, i, maxLineLength);
      var out := FormatOneLine(lines[i], maxLineLength);
      formattedLines := formattedLines + out;
    }
    assert lines[..|lines|] == lines;
    r := Join("\n", formattedLines);
  }

  lemma FormatLinesSnoc(lines: seq<string>, i: nat, maxLen: int)
    requires i < |lines|
    ensures FormatLines(lines[..i + 1], maxLen) == FormatLines(lines[..i], maxLen) + FormatLine(lines[i], maxLen)
  {
    assert lines[..i + 1][..i] == lines[..i];
  }

  /** The body of the loop: one line, blank, short or wrapped. */
  method FormatOneLine(rawLine: string, maxLineLength: int) returns (out: seq<string>)
    ensures out == FormatLine(rawLine, maxLineLength)
  {
    var line := Strip(rawLine);
    if line == [] {
      out := [""];
    } else if |line| <= maxLineLength {
      out := [line];
    } else {
      out := WrapWords(Words(line), maxLineLength);
    }
  }

}
