/**
 * The fuzzy completion engine `EnhancedCompleter`
 * (commandFinder/completer.py): bigram indices over tool and category
 * names, per-source matchers with a 0.3 score floor and a usage bonus,
 * scoping by the first token, a bounded cache with a periodic clear, and
 * the final priority sort, de-duplication and usage counting.
 *
 * The completer holds the text normaliser and the scorer it uses as
 * constants; `Standard()` says they are `normalize_text` and
 * `_fuzzy_score`, which the constructor installs. Its methods are proved
 * from the laws in `ScoreLaws`, which `_fuzzy_score` satisfies.
 */
module Completer {
  import opened Wrappers
  import opened Strings
  import opened Sorting
  import opened TextUtils
  import opened Fuzzy
  import opened Session

  /** Scores must exceed this to be offered. */
  const ScoreFloor: real := 0.3
  const MaxCacheEntries: nat := 100
  /** Seconds after which the whole cache is dropped. */
  const CacheLifetime: real := 300.0
  const ToolLimit: nat := 15
  const CategoryLimit: nat := 10
  const RecentLimit: nat := 10

  datatype Kind = CommandItem | CategoryItem | ToolItem | RecentItem | ConfigItem

  /** A completion offered to the prompt: its text and where it comes from. */
  datatype Completion = Completion(text: string, kind: Kind)

  /** A completion with the priority it is sorted by (lower first). */
  datatype Entry = Entry(priority: real, completion: Completion)

  datatype ToolMatch = ToolMatch(score: real, tool: string, category: string)

  datatype Scored = Scored(score: real, item: string)

  /** The internal commands with the alias shown beside each. */
  const InternalCommands: seq<(string, string)> := [
    ("help", "h"), ("clear", "c"), ("list tools", "lt"), ("list categories", "lc"),
    ("setip", "si"), ("seturl", "su"), ("refresh", "r"), ("gtfsearch", "gtf"),
    ("add categories", "ac"), ("add tools", "at"), ("edit", "e"),
    ("delete category", "dc"), ("delete tool", "dt"), ("exit", "q")]

  /** Which command's argument is being typed, decided by the first of at least two tokens. */
  datatype Context = Context(setip: bool, seturl: bool, refresh: bool, edit: bool, gtfsearch: bool)

  predicate IsCommandArg(c: Context) {
    c.setip || c.seturl || c.refresh || c.edit || c.gtfsearch
  }

  /** What `_fuzzy_score` guarantees: a score in [0, 1], zero when either side is empty. */
  ghost predicate ScoreLaws(score: (string, string) -> real) {
    (forall q, t :: 0.0 <= score(q, t) <= 1.0)
    && (forall t :: score([], t) == 0.0)
    && (forall q :: score(q, []) == 0.0)
  }

  lemma FuzzyScoreLaws()
    ensures ScoreLaws(FuzzyScore)
  {
    forall t ensures FuzzyScore([], t) == 0.0 {
      FuzzyScoreBands([], t);
    }
    forall q ensures FuzzyScore(q, []) == 0.0 {
      FuzzyScoreBands(q, []);
    }
  }

  function Bucket(index: map<string, seq<string>>, g: string): seq<string> {
    if g in index then index[g] else []
  }

  /** `index[g].append(item)` for every `g` in `grams`. */
  method AppendToBuckets(index: map<string, seq<string>>, item: string, grams: set<string>)
    returns (r: map<string, seq<string>>)
    ensures forall g :: g in r <==> g in index || g in grams
    ensures forall g :: g in r ==> r[g] == Bucket(index, g) + (if g in grams then [item] else [])
  {
    r := index;
    var rest := grams;
    while rest != {}
      invariant rest <= grams
      invariant forall g :: g in r <==> g in index || g in grams - rest
      invariant forall g :: g in r ==> r[g] == Bucket(index, g) + (if g in grams - rest then [item] else [])
      decreases rest
    {
      var g :| g in rest;
      r := r[g := Bucket(r, g) + [item]];
      rest := rest - {g};
    }
  }

  /** `index[g]` holds exactly the items (with repetition) having `g` among their n-grams `grams(x)`. */
  ghost predicate IndexExact(index: map<string, seq<string>>, items: seq<string>, grams: string -> set<string>) {
    (forall g, x :: g in index && x in index[g] ==> x in items && g in grams(x))
    && (forall x, g :: x in items && g in grams(x) ==> g in index && x in index[g])
  }

  /** The bucket-filling loop of `_build_search_indices`, for one list of names. */
  method BuildIndex(items: seq<string>, grams: string -> set<string>) returns (index: map<string, seq<string>>)
    ensures IndexExact(index, items, grams)
  {
    index := map[];
    for k := 0 to |items|
      invariant IndexExact(index, items[..k], grams)
    {
      var previous := index;
      index := AppendToBuckets(index, items[k], grams(items[k]));
      IndexStep(previous, index, items, k, grams);
    }
    assert items[..|items|] == items;
  }

  /** Appending item `k` to the buckets of its n-grams extends an exact index of the first `k` items by one. */
  lemma IndexStep(previous: map<string, seq<string>>, index: map<string, seq<string>>, items: seq<string>, k: nat,
                  grams: string -> set<string>)
    requires k < |items| && IndexExact(previous, items[..k], grams)
    requires forall g :: g in index <==> g in previous || g in grams(items[k])
    requires forall g :: g in index ==> index[g] == Bucket(previous, g) + (if g in grams(items[k]) then [items[k]] else [])
    ensures IndexExact(index, items[..k + 1], grams)
  {
    assert items[..k + 1] == items[..k] + [items[k]];
    IndexStepSound(previous, index, items, k, grams);
    IndexStepComplete(previous, index, items, k, grams);
  }

  lemma IndexStepSound(previous: map<string, seq<string>>, index: map<string, seq<string>>, items: seq<string>, k: nat,
                       grams: string -> set<string>)
    requires k < |items| && IndexExact(previous, items[..k], grams)
    requires forall g :: g in index ==> index[g] == Bucket(previous, g) + (if g in grams(items[k]) then [items[k]] else [])
    ensures forall g, x :: g in index && x in index[g] ==> x in items[..k] + [items[k]] && g in grams(x)
  {
    forall g, x | g in index && x in index[g] ensures x in items[..k] + [items[k]] && g in grams(x) {
      if x !in Bucket(previous, g) {
        assert x == items[k];
      }
    }
  }

  lemma IndexStepComplete(previous: map<string, seq<string>>, index: map<string, seq<string>>, items: seq<string>, k: nat,
                          grams: string -> set<string>)
    requires k < |items| && IndexExact(previous, items[..k], grams)
    requires forall g :: g in index <==> g in previous || g in grams(items[k])
    requires forall g :: g in index ==> index[g] == Bucket(previous, g) + (if g in grams(items[k]) then [items[k]] else [])
    ensures forall x, g :: x in items[..k] + [items[k]] && g in grams(x) ==> g in index && x in index[g]
  {
    forall x, g | x in items[..k] + [items[k]] && g in grams(x) ensures g in index && x in index[g] {
      if x != items[k] {
        assert x in items[..k];
        assert x in Bucket(previous, g);
      }
    }
  }

  /** `t` lies in the bucket of one of the n-grams `grams`. */
  ghost predicate InBucketOf(index: map<string, seq<string>>, grams: set<string>, t: string) {
    exists g :: g in grams && g in index && t in index[g]
  }

  /** The `candidates.update(...)` loop of `_smart_match_tools`. */
  method Candidates(index: map<string, seq<string>>, grams: set<string>) returns (c: set<string>)
    ensures forall t :: t in c <==> InBucketOf(index, grams, t)
  {
    c := {};
    var rest := grams;
    while rest != {}
      invariant rest <= grams
      invariant forall t :: t in c <==> InBucketOf(index, grams - rest, t)
      decreases rest
    {
      var g :| g in rest;
      c := c + set t | t in Bucket(index, g);
      rest := rest - {g};
    }
    assert grams - {} == grams;
  }

  /** `usage_stats[t]`, zero for a name never counted. */
  function UsageOf(usage: map<string, nat>, t: string): nat {
    if t in usage then usage[t] else 0
  }

  function UsageBonus(usage: map<string, nat>, t: string): (b: real)
    ensures 0.0 <= b <= 0.1
  {
    MinReal(0.1, UsageOf(usage, t) as real * 0.01)
  }

  /** `tool_to_category.get(t, "")` */
  function CategoryOf(toolToCategory: map<string, string>, t: string): string {
    if t in toolToCategory then toolToCategory[t] else []
  }

  predicate ScoresDescending(s: seq<Scored>) {
    forall i, j :: 0 <= i < j < |s| ==> s[i].score >= s[j].score
  }

  /** `sorted(hits, key=score, reverse=True)` keeps exactly the hits, best first. */
  lemma SortDescScored(hits: seq<Scored>)
    ensures forall s :: s in SortDesc(hits, (s: Scored) => s.score) <==> s in hits
    ensures ScoresDescending(SortDesc(hits, (s: Scored) => s.score))
  {
    var r := SortDesc(hits, (s: Scored) => s.score);
    SortDescSpec(hits, (s: Scored) => s.score);
    forall s | s in hits ensures s in r {
      assert s in multiset(hits);
    }
    forall s | s in r ensures s in hits {
      assert s in multiset(r);
    }
  }

  /** The entries for the first `limit` scored matches, each with priority one minus its score. */
  function ScoredEntries(matches: seq<Scored>, limit: nat, kind: Kind): (r: seq<Entry>)
    ensures |r| == if |matches| < limit then |matches| else limit
    ensures forall i :: 0 <= i < |r| ==> r[i] == Entry(1.0 - matches[i].score, Completion(matches[i].item, kind))
  {
    if matches == [] || limit == 0 then []
    else [Entry(1.0 - matches[0].score, Completion(matches[0].item, kind))] + ScoredEntries(matches[1..], limit - 1, kind)
  }

  /** The entries for the first `limit` tool matches, each with priority one minus its score. */
  function ToolEntries(matches: seq<ToolMatch>, limit: nat): (r: seq<Entry>)
    ensures |r| == if |matches| < limit then |matches| else limit
    ensures forall i :: 0 <= i < |r| ==> r[i] == Entry(1.0 - matches[i].score, Completion(matches[i].tool, ToolItem))
  {
    if matches == [] || limit == 0 then []
    else [Entry(1.0 - matches[0].score, Completion(matches[0].tool, ToolItem))] + ToolEntries(matches[1..], limit - 1)
  }

  /** The first `limit` of matches listed best first are all matches, each with priority one minus its score. */
  lemma TopScoredSound(m: seq<Scored>, limit: nat, kind: Kind)
    ensures forall e :: e in ScoredEntries(m, limit, kind) ==>
      exists s :: s in m && e == Entry(1.0 - s.score, Completion(s.item, kind))
  {
    var es := ScoredEntries(m, limit, kind);
    forall e | e in es ensures exists s :: s in m && e == Entry(1.0 - s.score, Completion(s.item, kind)) {
      var i :| 0 <= i < |es| && es[i] == e;
      assert m[i] in m;
    }
  }

  /** Matches listed best first give entries in ascending priority. */
  lemma TopScoredAscending(m: seq<Scored>, limit: nat, kind: Kind)
    requires ScoresDescending(m)
    ensures var es := ScoredEntries(m, limit, kind);
      forall i, j :: 0 <= i < j < |es| ==> es[i].priority <= es[j].priority
  {
  }

  /**
   * Every match listed best first is among the first `limit` entries, or
   * all `limit` places go to matches scoring at least as well.
   */
  lemma TopScoredComplete(m: seq<Scored>, limit: nat, kind: Kind)
    requires ScoresDescending(m)
    ensures var es := ScoredEntries(m, limit, kind);
      forall s :: s in m ==>
        Entry(1.0 - s.score, Completion(s.item, kind)) in es
        || (|es| == limit && forall e :: e in es ==> e.priority <= 1.0 - s.score)
  {
    var es := ScoredEntries(m, limit, kind);
    forall s | s in m
      ensures Entry(1.0 - s.score, Completion(s.item, kind)) in es
        || (|es| == limit && forall e :: e in es ==> e.priority <= 1.0 - s.score)
    {
      var j :| 0 <= j < |m| && m[j] == s;
      if j < |es| {
        assert es[j] == Entry(1.0 - s.score, Completion(s.item, kind));
      } else {
        forall e | e in es ensures e.priority <= 1.0 - s.score {
          var i :| 0 <= i < |es| && es[i] == e;
          assert m[i].score >= m[j].score;
        }
      }
    }
  }

  /** The first `limit` tool matches are all matches, each with priority one minus its score. */
  lemma TopToolsSound(m: seq<ToolMatch>, limit: nat)
    ensures forall e :: e in ToolEntries(m, limit) ==>
      exists t :: t in m && e == Entry(1.0 - t.score, Completion(t.tool, ToolItem))
  {
    var es := ToolEntries(m, limit);
    forall e | e in es ensures exists t :: t in m && e == Entry(1.0 - t.score, Completion(t.tool, ToolItem)) {
      var i :| 0 <= i < |es| && es[i] == e;
      assert m[i] in m;
    }
  }

  /** Tool matches listed best first, each tool once, give entries in ascending priority with distinct texts. */
  lemma TopToolsOrdered(m: seq<ToolMatch>, limit: nat)
    requires forall i, j :: 0 <= i < j < |m| ==> m[i].score >= m[j].score
    requires forall i, j :: 0 <= i < j < |m| ==> m[i].tool != m[j].tool
    ensures var es := ToolEntries(m, limit);
      forall i, j :: 0 <= i < j < |es| ==> es[i].priority <= es[j].priority
    ensures var es := ToolEntries(m, limit);
      forall i, j :: 0 <= i < j < |es| ==> es[i].completion.text != es[j].completion.text
  {
  }

  /**
   * Every tool match listed best first is among the first `limit`
   * entries, or all `limit` places go to tools scoring at least as well.
   */
  lemma TopToolsComplete(m: seq<ToolMatch>, limit: nat)
    requires forall i, j :: 0 <= i < j < |m| ==> m[i].score >= m[j].score
    ensures var es := ToolEntries(m, limit);
      forall t :: t in m ==>
        Entry(1.0 - t.score, Completion(t.tool, ToolItem)) in es
        || (|es| == limit && forall e :: e in es ==> e.priority <= 1.0 - t.score)
  {
    var es := ToolEntries(m, limit);
    forall t | t in m
      ensures Entry(1.0 - t.score, Completion(t.tool, ToolItem)) in es
        || (|es| == limit && forall e :: e in es ==> e.priority <= 1.0 - t.score)
    {
      var j :| 0 <= j < |m| && m[j] == t;
      if j < |es| {
        assert es[j] == Entry(1.0 - t.score, Completion(t.tool, ToolItem));
      } else {
        forall e | e in es ensures e.priority <= 1.0 - t.score {
          var i :| 0 <= i < |es| && es[i] == e;
          assert m[i].score >= m[j].score;
        }
      }
    }
  }

  /** The loop of the `_add_smart_*_completions` methods: the first `limit` matches, priority one minus the score. */
  method AppendScored(matches: seq<Scored>, limit: nat, kind: Kind) returns (r: seq<Entry>)
    ensures |r| == if |matches| < limit then |matches| else limit
    ensures forall i :: 0 <= i < |r| ==> r[i] == Entry(1.0 - matches[i].score, Completion(matches[i].item, kind))
    ensures r == ScoredEntries(matches, limit, kind)
  {
    r := [];
    var taken := if |matches| < limit then matches else matches[..limit];
    for i := 0 to |taken|
      invariant |r| == i
      invariant forall k :: 0 <= k < i ==> r[k] == Entry(1.0 - taken[k].score, Completion(taken[k].item, kind))
    {
      r := r + [Entry(1.0 - taken[i].score, Completion(taken[i].item, kind))];
    }
  }

  /** The loop of `_add_smart_tool_completions`: the first `limit` matches, priority one minus the score. */
  method AppendTools(matches: seq<ToolMatch>, limit: nat) returns (r: seq<Entry>)
    ensures |r| == if |matches| < limit then |matches| else limit
    ensures forall i :: 0 <= i < |r| ==> r[i] == Entry(1.0 - matches[i].score, Completion(matches[i].tool, ToolItem))
    ensures r == ToolEntries(matches, limit)
  {
    r := [];
    var taken := if |matches| < limit then matches else matches[..limit];
    for i := 0 to |taken|
      invariant |r| == i
      invariant forall k :: 0 <= k < i ==> r[k] == Entry(1.0 - taken[k].score, Completion(taken[k].tool, ToolItem))
    {
      r := r + [Entry(1.0 - taken[i].score, Completion(taken[i].tool, ToolItem))];
    }
  }

  /**
   * The `seen` loop of `get_completions` on values: the first completion
   * of each text, in order, with one more use counted for each kept text.
   */
  method DedupCounting(sorted: seq<Entry>, usage0: map<string, nat>) returns (r: seq<Completion>, usage: map<string, nat>)
    ensures r == Dedup(sorted, {})
    ensures forall t :: UsageOf(usage, t) == UsageOf(usage0, t) + if t in Texts(r) then 1 else 0
  {
    var seen: set<string> := {};
    r := [];
    usage := usage0;
    assert sorted[0..] == sorted;
    for i := 0 to |sorted|
      invariant r + Dedup(sorted[i..], seen) == Dedup(sorted, {})
      invariant seen == Texts(r)
      invariant forall t :: UsageOf(usage, t) == UsageOf(usage0, t) + if t in seen then 1 else 0
    {
      var completion := sorted[i].completion;
      if completion.text !in seen {
        DedupKeep(sorted, i, seen, r);
        TextsSnoc(r, completion);
        seen := seen + {completion.text};
        r := r + [completion];
        usage := usage[completion.text := UsageOf(usage, completion.text) + 1];
      } else {
        DedupSkip(sorted, i, seen, r);
      }
    }
    assert sorted[|sorted|..] == [];
  }

  /** A step of the `seen` loop over an already seen text keeps the loop's account of what is still to come. */
  lemma DedupSkip(sorted: seq<Entry>, i: nat, seen: set<string>, r: seq<Completion>)
    requires i < |sorted| && r + Dedup(sorted[i..], seen) == Dedup(sorted, {})
    requires sorted[i].completion.text in seen
    ensures r + Dedup(sorted[i + 1..], seen) == Dedup(sorted, {})
  {
    DedupCons(sorted[i..], seen);
    assert sorted[i..][1..] == sorted[i + 1..];
  }

  /** A step of the `seen` loop over a new text keeps the loop's account of what is still to come. */
  lemma DedupKeep(sorted: seq<Entry>, i: nat, seen: set<string>, r: seq<Completion>)
    requires i < |sorted| && r + Dedup(sorted[i..], seen) == Dedup(sorted, {})
    requires sorted[i].completion.text !in seen
    ensures (r + [sorted[i].completion]) + Dedup(sorted[i + 1..], seen + {sorted[i].completion.text}) == Dedup(sorted, {})
  {
    var c := sorted[i].completion;
    DedupCons(sorted[i..], seen);
    assert sorted[i..][1..] == sorted[i + 1..];
    assert (r + [c]) + Dedup(sorted[i + 1..], seen + {c.text}) == r + ([c] + Dedup(sorted[i + 1..], seen + {c.text}));
  }

  /** The texts of `cs`. */
  function Texts(cs: seq<Completion>): set<string> {
    set c | c in cs :: c.text
  }

  predicate DistinctTexts(cs: seq<Completion>) {
    forall i, j :: 0 <= i < j < |cs| ==> cs[i].text != cs[j].text
  }

  /** The first completion of each text not in `seen`, in order. */
  function Dedup(s: seq<Entry>, seen: set<string>): seq<Completion> {
    if s == [] then []
    else if s[0].completion.text in seen then Dedup(s[1..], seen)
    else [s[0].completion] + Dedup(s[1..], seen + {s[0].completion.text})
  }

  /** `Dedup` offers only texts not yet seen, of completions that were entered. */
  lemma {:induction false} DedupFrom(s: seq<Entry>, seen: set<string>)
    ensures forall c :: c in Dedup(s, seen) ==> c.text !in seen && exists e :: e in s && e.completion == c
  {
    if s != [] {
      var head := s[0].completion;
      var seen' := if head.text in seen then seen else seen + {head.text};
      var tail := Dedup(s[1..], seen');
      DedupFrom(s[1..], seen');
      forall c | c in Dedup(s, seen) ensures c.text !in seen && exists e :: e in s && e.completion == c {
        if c in tail {
          var e :| e in s[1..] && e.completion == c;
          assert e in s;
        } else {
          assert s[0] in s;
        }
      }
    }
  }

  /** `Dedup` repeats no text. */
  lemma {:induction false} DedupDistinct(s: seq<Entry>, seen: set<string>)
    ensures DistinctTexts(Dedup(s, seen))
  {
    if s != [] {
      var head := s[0].completion;
      if head.text in seen {
        DedupDistinct(s[1..], seen);
      } else {
        var tail := Dedup(s[1..], seen + {head.text});
        DedupDistinct(s[1..], seen + {head.text});
        DedupFrom(s[1..], seen + {head.text});
        var r := [head] + tail;
        forall i, j | 0 <= i < j < |r| ensures r[i].text != r[j].text {
          assert r[j] == tail[j - 1];
          if i == 0 {
            assert r[j] in tail;
          } else {
            assert r[i] == tail[i - 1];
          }
        }
      }
    }
  }

  /** `Dedup` misses no text that was entered and not yet seen. */
  lemma {:induction false} DedupCovers(s: seq<Entry>, seen: set<string>)
    ensures forall e :: e in s && e.completion.text !in seen ==> e.completion.text in Texts(Dedup(s, seen))
  {
    if s != [] {
      var head := s[0].completion;
      var seen' := if head.text in seen then seen else seen + {head.text};
      var tail := Dedup(s[1..], seen');
      DedupCovers(s[1..], seen');
      forall e | e in s && e.completion.text !in seen ensures e.completion.text in Texts(Dedup(s, seen)) {
        if e.completion.text == head.text {
          assert head in Dedup(s, seen);
        } else {
          assert e in s[1..];
          var c :| c in tail && c.text == e.completion.text;
          assert c in Dedup(s, seen);
        }
      }
    }
  }

  /** No completion of another kind comes before an internal command. */
  predicate CommandsFirst(cs: seq<Completion>) {
    forall i, j :: 0 <= i < j < |cs| && cs[j].kind == CommandItem ==> cs[i].kind == CommandItem
  }

  predicate EntriesCommandsFirst(s: seq<Entry>) {
    forall i, j :: 0 <= i < j < |s| && s[j].completion.kind == CommandItem ==> s[i].completion.kind == CommandItem
  }

  /** Commands are sorted by a priority below every other kind's. */
  predicate PriorityByKind(s: seq<Entry>) {
    forall e :: e in s ==> (e.completion.kind == CommandItem <==> e.priority < -ScoreFloor)
  }

  lemma {:induction false} DedupCommandsFirst(s: seq<Entry>, seen: set<string>)
    requires EntriesCommandsFirst(s)
    ensures CommandsFirst(Dedup(s, seen))
  {
    if s != [] {
      var seen' := if s[0].completion.text in seen then seen else seen + {s[0].completion.text};
      assert EntriesCommandsFirst(s[1..]) by {
        forall i, j | 0 <= i < j < |s[1..]| && s[1..][j].completion.kind == CommandItem
          ensures s[1..][i].completion.kind == CommandItem
        {
          assert s[1..][i] == s[i + 1] && s[1..][j] == s[j + 1];
        }
      }
      DedupCommandsFirst(s[1..], seen');
      if s[0].completion.kind != CommandItem {
        DedupFrom(s[1..], seen');
        forall c | c in Dedup(s[1..], seen') ensures c.kind != CommandItem {
          var e :| e in s[1..] && e.completion == c;
          var j :| 0 <= j < |s[1..]| && s[1..][j] == e;
          assert s[j + 1] == e;
        }
      }
    }
  }

  lemma DedupCons(s: seq<Entry>, seen: set<string>)
    requires s != []
    ensures Dedup(s, seen) == if s[0].completion.text in seen then Dedup(s[1..], seen)
      else [s[0].completion] + Dedup(s[1..], seen + {s[0].completion.text})
  {
  }

  lemma TextsSnoc(cs: seq<Completion>, c: Completion)
    ensures Texts(cs + [c]) == Texts(cs) + {c.text}
  {
    forall t | t in Texts(cs + [c]) ensures t in Texts(cs) + {c.text} {
      var d :| d in cs + [c] && d.text == t;
    }
    forall t | t in Texts(cs) ensures t in Texts(cs + [c]) {
      var d :| d in cs && d.text == t;
      assert d in cs + [c];
    }
  }

  /** The completions `get_completions` yields for the entries it collected: sorted by priority, first of each text. */
  function FinalCompletions(entries: seq<Entry>): seq<Completion> {
    Dedup(SortAsc(entries, (e: Entry) => e.priority), {})
  }

  /** Every completion in `cs` was entered as one of `entries`. */
  predicate FromEntries(cs: seq<Completion>, entries: seq<Entry>) {
    forall c :: c in cs ==> exists e :: e in entries && e.completion == c
  }

  /**
   * Sorting by priority and keeping the first of each text repeats no
   * text, offers only completions entered, and offers every text entered.
   */
  lemma FinalCompletionsSound(entries: seq<Entry>)
    ensures DistinctTexts(FinalCompletions(entries))
    ensures FromEntries(FinalCompletions(entries), entries)
    ensures forall e :: e in entries ==> e.completion.text in Texts(FinalCompletions(entries))
  {
    var sorted := SortAsc(entries, (e: Entry) => e.priority);
    DedupDistinct(sorted, {});
    DedupFrom(sorted, {});
    DedupCovers(sorted, {});
    forall c | c in Dedup(sorted, {}) ensures exists e :: e in entries && e.completion == c {
      var e :| e in sorted && e.completion == c;
      assert e in multiset(sorted);
    }
    forall e | e in entries ensures e.completion.text in Texts(Dedup(sorted, {})) {
      assert e in multiset(entries);
    }
  }

  /** With commands prioritised below every other kind, they are also listed first. */
  lemma FinalCompletionsSpec(entries: seq<Entry>)
    requires PriorityByKind(entries)
    ensures CommandsFirst(FinalCompletions(entries))
  {
    var sorted := SortAsc(entries, (e: Entry) => e.priority);
    SortedCommandsFirst(entries);
    DedupCommandsFirst(sorted, {});
  }

  predicate FirstTier(e: Entry) {
    e.priority == 0.0
  }

  predicate SecondTier(e: Entry) {
    e.priority == 1.0
  }

  /**
   * With priorities 0 and 1 only, the stable sort lists the priority-0
   * entries in input order, then the priority-1 ones in input order.
   */
  lemma FinalCompletionsTwoTiers(entries: seq<Entry>)
    requires forall e :: e in entries ==> FirstTier(e) || SecondTier(e)
    ensures FinalCompletions(entries) == Dedup(Keep(entries, FirstTier) + Keep(entries, SecondTier), {})
  {
    forall k | 0 <= k < |entries| ensures entries[k].priority == 0.0 || entries[k].priority == 1.0 {
      assert entries[k] in entries;
    }
    var key := (e: Entry) => e.priority;
    var sorted := SortAsc(entries, key);
    assert FinalCompletions(entries) == Dedup(sorted, {});
    SortAscTwoLevels(entries, key, 0.0, 1.0, FirstTier, SecondTier);
    assert sorted == Keep(entries, FirstTier) + Keep(entries, SecondTier);
  }

  /** Sorting ascending by priority puts every command before every other kind. */
  lemma SortedCommandsFirst(s: seq<Entry>)
    requires PriorityByKind(s)
    ensures forall e :: e in SortAsc(s, (e: Entry) => e.priority) <==> e in s
    ensures EntriesCommandsFirst(SortAsc(s, (e: Entry) => e.priority))
  {
    var r := SortAsc(s, (e: Entry) => e.priority);
    SortAscSpec(s, (e: Entry) => e.priority);
    forall e | e in r ensures e in s {
      assert e in multiset(r);
    }
    forall e | e in s ensures e in r {
      assert e in multiset(s);
    }
    forall i, j | 0 <= i < j < |r| && r[j].completion.kind == CommandItem ensures r[i].completion.kind == CommandItem {
      assert r[i] in r && r[j] in r;
    }
  }

  class EnhancedCompleter {
    /** The session whose recent IP and URL lists the completer reads (the same list objects). */
    const owner: SearchCommand
    /** `normalize_text` */
    const normalize: string -> Option<string>
    /** `_fuzzy_score` */
    const score: (string, string) -> real
    /** `_normalize_url`, computed by `urllib.parse`. */
    const urlCanon: string -> string
    const originalCategories: seq<string>
    const originalTools: seq<string>
    const toolToCategory: map<string, string>
    const toolToFile: map<string, string>
    /** `internal_commands` paired with `command_to_alias` */
    const internalCommands: seq<(string, string)>
    var toolIndex: map<string, seq<string>>
    var categoryIndex: map<string, seq<string>>
    var cache: map<string, seq<Completion>>
    var lastClear: real
    var usage: map<string, nat>

    /** The normaliser and the scorer are the program's own. */
    ghost predicate Standard() {
      (forall x :: normalize(x) == NormalizeText(x)) && (forall q, t :: score(q, t) == FuzzyScore(q, t))
    }

    /** The scorer keeps its laws, both indices are exact and the cache is bounded. */
    ghost predicate Valid()
      reads this`toolIndex, this`categoryIndex, this`cache
    {
      ScoreLaws(score) && IndicesExact() && CacheOk()
    }

    ghost predicate IndicesExact()
      reads this`toolIndex, this`categoryIndex
    {
      IndexExact(toolIndex, originalTools, GramsOf) && IndexExact(categoryIndex, originalCategories, GramsOf)
    }

    /** At most 100 keys, each list free of repeated texts. */
    ghost predicate CacheOk()
      reads this`cache
    {
      |cache| <= MaxCacheEntries && forall key :: key in cache ==> DistinctTexts(cache[key])
    }

    /** `normalize_text(x)`, with "" for `None`. */
    function NormOf(x: string): string {
      match normalize(x)
      case None => []
      case Some(n) => n
    }

    /** The n-grams `_generate_ngrams` gives for the normalised form of `x`. */
    function GramsOf(x: string): set<string> {
      Ngrams(NormOf(x))
    }

    lemma IndexedItem(index: map<string, seq<string>>, items: seq<string>, g: string, x: string)
      requires IndexExact(index, items, GramsOf)
      requires g in index && x in index[g]
      ensures x in items && g in GramsOf(x)
    {
    }

    /** `__init__`: only tools that have a file are indexed. */
    constructor(owner: SearchCommand, categories: seq<string>, tools: seq<string>,
                toolToCategory: map<string, string>, toolToFile: map<string, string>,
                now: real, urlCanon: string -> string)
      ensures Valid() && Standard()
      ensures this.owner == owner && originalCategories == categories
      ensures originalTools == FilterSeq(tools, t => t in toolToFile)
      ensures this.toolToCategory == toolToCategory && this.toolToFile == toolToFile
      ensures internalCommands == InternalCommands
      ensures cache == map[] && lastClear == now && usage == map[]
    {
      this.owner := owner;
      normalize := NormalizeText;
      score := FuzzyScore;
      this.urlCanon := urlCanon;
      originalCategories := categories;
      originalTools := FilterSeq(tools, t => t in toolToFile);
      this.toolToCategory := toolToCategory;
      this.toolToFile := toolToFile;
      internalCommands := InternalCommands;
      cache := map[];
      lastClear := now;
      usage := map[];
      new;
      FuzzyScoreLaws();
      BuildSearchIndices();
    }

    /** `_build_search_indices` */
    method BuildSearchIndices()
      modifies this`toolIndex, this`categoryIndex
      ensures IndexExact(toolIndex, originalTools, GramsOf) && IndexExact(categoryIndex, originalCategories, GramsOf)
    {
      toolIndex := BuildIndex(originalTools, GramsOf);
      categoryIndex := BuildIndex(originalCategories, GramsOf);
    }

    /** `_parse_command_context` */
    function ParseCommandContext(text: string): (c: Context)
      ensures |Words(Strip(text))| < 2 ==> !IsCommandArg(c)
      ensures c.setip <==> |Words(Strip(text))| >= 2 && normalize(Words(Strip(text))[0]) in {Some("setip"), Some("si")}
      ensures c.seturl <==> |Words(Strip(text))| >= 2 && normalize(Words(Strip(text))[0]) in {Some("seturl"), Some("su")}
      ensures c.refresh <==> |Words(Strip(text))| >= 2 && normalize(Words(Strip(text))[0]) in {Some("refresh"), Some("r")}
      ensures c.edit <==> |Words(Strip(text))| >= 2 && normalize(Words(Strip(text))[0]) in {Some("edit"), Some("e")}
      ensures c.gtfsearch <==> |Words(Strip(text))| >= 2 && normalize(Words(Strip(text))[0]) in {Some("gtfsearch"), Some("gtf")}
      ensures (c.setip ==> !c.seturl && !c.refresh && !c.edit && !c.gtfsearch)
        && (c.seturl ==> !c.refresh && !c.edit && !c.gtfsearch)
        && (c.refresh ==> !c.edit && !c.gtfsearch)
        && (c.edit ==> !c.gtfsearch)
    {
      var parts := Words(Strip(text));
      if |parts| < 2 then Context(false, false, false, false, false)
      else
        var first := normalize(parts[0]);
        Context(first in {Some("setip"), Some("si")}, first in {Some("seturl"), Some("su")},
                first in {Some("refresh"), Some("r")}, first in {Some("edit"), Some("e")},
                first in {Some("gtfsearch"), Some("gtf")})
    }

    /** `_clear_cache_if_needed` */
    method ClearCacheIfNeeded(now: real)
      requires CacheOk()
      modifies this`cache, this`lastClear
      ensures CacheOk()
      ensures now - old(lastClear) > CacheLifetime ==> cache == map[] && lastClear == now
      ensures now - old(lastClear) <= CacheLifetime ==> cache == old(cache) && lastClear == old(lastClear)
    {
      if now - lastClear > CacheLifetime {
        cache := map[];
        lastClear := now;
      }
    }

    /** `_get_cached_completions`: what was stored, unless the lifetime has run out. */
    method GetCachedCompletions(key: string, now: real) returns (r: Option<seq<Completion>>)
      requires CacheOk()
      modifies this`cache, this`lastClear
      ensures CacheOk()
      ensures now - old(lastClear) > CacheLifetime ==> r == None && cache == map[] && lastClear == now
      ensures now - old(lastClear) <= CacheLifetime ==>
        cache == old(cache) && lastClear == old(lastClear)
        && r == (if key in old(cache) then Some(old(cache)[key]) else None)
      ensures r.Some? ==> DistinctTexts(r.value)
    {
      ClearCacheIfNeeded(now);
      r := if key in cache then Some(cache[key]) else None;
    }

    /** `_cache_completions`: nothing is stored, not even over an old key, once 100 keys exist. */
    method CacheCompletions(key: string, completions: seq<Completion>)
      requires CacheOk() && DistinctTexts(completions)
      modifies this`cache
      ensures CacheOk()
      ensures |old(cache)| < MaxCacheEntries ==> cache == old(cache)[key := completions]
      ensures |old(cache)| >= MaxCacheEntries ==> cache == old(cache)
    {
      if |cache| < MaxCacheEntries {
        cache := cache[key := completions];
      }
    }

    /** The score of an item for a normalised query, against its normalised (for URLs: canonical) form. */
    function ScoreOf(qn: string, x: string, isUrl: bool): real {
      score(qn, NormOf(if isUrl then urlCanon(x) else x))
    }

    /** A tool offered for `qn`: reached through a bigram of `qn`, scoring above the floor. */
    ghost predicate ToolOffered(qn: string, t: string)
      reads this`toolIndex
    {
      InBucketOf(toolIndex, Ngrams(qn), t) && ScoreOf(qn, t, false) > ScoreFloor
    }

    /**
     * The scoring loop of `_smart_match_tools` over the candidate set: each
     * candidate once, kept when its raw score exceeds the floor, scored raw
     * plus the usage bonus.
     */
    method ScoreTools(qn: string, candidates: set<string>) returns (results: seq<ToolMatch>)
      ensures forall m :: m in results ==>
        m.tool in candidates && ScoreOf(qn, m.tool, false) > ScoreFloor
        && m.score == ScoreOf(qn, m.tool, false) + UsageBonus(usage, m.tool)
        && m.category == CategoryOf(toolToCategory, m.tool)
      ensures forall t :: t in candidates && ScoreOf(qn, t, false) > ScoreFloor ==> exists m :: m in results && m.tool == t
      ensures forall i, j :: 0 <= i < j < |results| ==> results[i].tool != results[j].tool
    {
      results := [];
      var pending := candidates;
      while pending != {}
        invariant pending <= candidates
        invariant forall m :: m in results ==>
          m.tool in candidates - pending && ScoreOf(qn, m.tool, false) > ScoreFloor
          && m.score == ScoreOf(qn, m.tool, false) + UsageBonus(usage, m.tool)
          && m.category == CategoryOf(toolToCategory, m.tool)
        invariant forall t :: t in candidates - pending && ScoreOf(qn, t, false) > ScoreFloor ==>
          exists m :: m in results && m.tool == t
        invariant forall i, j :: 0 <= i < j < |results| ==> results[i].tool != results[j].tool
        decreases pending
      {
        var tool :| tool in pending;
        ghost var before := results;
        var toolNorm := NormOf(tool);
        var raw := score(qn, toolNorm);
        if raw > ScoreFloor {
          var usageBonus := MinReal(0.1, UsageOf(usage, tool) as real * 0.01);
          var m := ToolMatch(raw + usageBonus, tool, CategoryOf(toolToCategory, tool));
          forall i | 0 <= i < |results| ensures results[i].tool != tool {
            assert results[i] in results;
          }
          results := results + [m];
          assert m in results;
        }
        forall u | u in candidates - (pending - {tool}) && ScoreOf(qn, u, false) > ScoreFloor
          ensures exists m :: m in results && m.tool == u
        {
          if u != tool {
            var m :| m in before && m.tool == u;
            assert m in results;
          }
        }
        pending := pending - {tool};
      }
    }

    /**
     * `_smart_match_tools`: every tool sharing a bigram with the
     * normalised query whose raw score exceeds 0.3, scored raw plus the
     * usage bonus, by descending score.
     */
    method SmartMatchTools(query: string) returns (r: seq<ToolMatch>)
      requires ScoreLaws(score) && IndicesExact()
      ensures forall m :: m in r ==>
        ToolOffered(NormOf(query), m.tool) && m.tool in originalTools
        && m.score == ScoreOf(NormOf(query), m.tool, false) + UsageBonus(usage, m.tool)
        && m.category == CategoryOf(toolToCategory, m.tool)
      ensures forall t :: ToolOffered(NormOf(query), t) ==> exists m :: m in r && m.tool == t
      ensures forall i, j :: 0 <= i < j < |r| ==> r[i].score >= r[j].score
      ensures forall i, j :: 0 <= i < j < |r| ==> r[i].tool != r[j].tool
    {
      var qn := NormOf(query);
      var candidates := Candidates(toolIndex, Ngrams(qn));
      var results := ScoreTools(qn, candidates);
      r := SortDesc(results, (m: ToolMatch) => m.score);
      SortDescSpec(results, (m: ToolMatch) => m.score);
      forall m | m in results ensures m in r {
        assert m in multiset(results);
      }
      forall m | m in r ensures m in results {
        assert m in multiset(r);
      }
      forall m | m in results ensures m.tool in originalTools {
        var g :| g in Ngrams(qn) && g in toolIndex && m.tool in toolIndex[g];
        IndexedItem(toolIndex, originalTools, g, m.tool);
      }
      DistinctPerm(results, r);
      forall i, j | 0 <= i < j < |r| ensures r[i].tool != r[j].tool {
        assert r[i] in results && r[j] in results;
      }
    }

    /** Every tool offered shares a bigram with the query; a one-character query reaches only its own name. */
    lemma ToolMatchesShareBigram(query: string, t: string)
      requires IndicesExact()
      requires InBucketOf(toolIndex, Ngrams(NormOf(query)), t)
      ensures t in originalTools
      ensures exists g :: g in Ngrams(NormOf(query)) && g in Ngrams(NormOf(t))
      ensures |NormOf(query)| == 1 ==> NormOf(t) == NormOf(query)
    {
      var qn := NormOf(query);
      var g :| g in Ngrams(qn) && g in toolIndex && t in toolIndex[g];
      assert g in GramsOf(t);
      if |qn| == 1 {
        NgramLength(qn, g);
        NgramLength(NormOf(t), g);
      }
    }

    /** The items scoring above the floor, in their own order. */
    function Hits(qn: string, items: seq<string>, isUrl: bool): (r: seq<Scored>)
      ensures forall s :: s in r ==> s.item in items && s.score == ScoreOf(qn, s.item, isUrl) > ScoreFloor
      ensures forall x :: x in items && ScoreOf(qn, x, isUrl) > ScoreFloor ==> Scored(ScoreOf(qn, x, isUrl), x) in r
    {
      if items == [] then []
      else
        var x := items[|items| - 1];
        assert items == items[..|items| - 1] + [x];
        Hits(qn, items[..|items| - 1], isUrl)
          + (if ScoreOf(qn, x, isUrl) > ScoreFloor then [Scored(ScoreOf(qn, x, isUrl), x)] else [])
    }

    lemma HitsSnoc(qn: string, items: seq<string>, k: nat, isUrl: bool)
      requires k < |items|
      ensures Hits(qn, items[..k + 1], isUrl) == Hits(qn, items[..k], isUrl)
        + (if ScoreOf(qn, items[k], isUrl) > ScoreFloor then [Scored(ScoreOf(qn, items[k], isUrl), items[k])] else [])
    {
      assert items[..k + 1][..k] == items[..k];
    }

    /**
     * The sorted hits are exactly the items scoring above the floor, each
     * with its score, best first.
     */
    lemma SortedHitsSpec(qn: string, items: seq<string>, isUrl: bool)
      ensures forall s :: s in SortDesc(Hits(qn, items, isUrl), (s: Scored) => s.score) ==>
        s.item in items && s.score == ScoreOf(qn, s.item, isUrl) > ScoreFloor
      ensures forall x :: x in items && ScoreOf(qn, x, isUrl) > ScoreFloor ==>
        Scored(ScoreOf(qn, x, isUrl), x) in SortDesc(Hits(qn, items, isUrl), (s: Scored) => s.score)
      ensures ScoresDescending(SortDesc(Hits(qn, items, isUrl), (s: Scored) => s.score))
    {
      SortDescScored(Hits(qn, items, isUrl));
    }

    /** An empty query scores nothing. */
    lemma {:induction false} EmptyQueryHitsNothing(items: seq<string>, isUrl: bool)
      requires ScoreLaws(score)
      ensures Hits([], items, isUrl) == []
    {
      if items != [] {
        EmptyQueryHitsNothing(items[..|items| - 1], isUrl);
      }
    }

    /** `_smart_match_categories`: the categories above the floor, by descending score, ties in category order. */
    method SmartMatchCategories(query: string) returns (r: seq<Scored>)
      requires ScoreLaws(score)
      ensures r == SortDesc(Hits(NormOf(query), originalCategories, false), (s: Scored) => s.score)
      ensures NormOf(query) == [] ==> r == []
    {
      var queryNorm := NormOf(query);
      if queryNorm == [] {
        EmptyQueryHitsNothing(originalCategories, false);
        return [];
      }
      var results: seq<Scored> := [];
      for k := 0 to |originalCategories|
        invariant results == Hits(queryNorm, originalCategories[..k], false)
      {
        var category := originalCategories[k];
        HitsSnoc(queryNorm, originalCategories, k, false);
        var catNorm := NormOf(category);
        if catNorm == [] {
          continue;
        }
        var s := score(queryNorm, catNorm);
        if s > ScoreFloor {
          results := results + [Scored(s, category)];
        }
      }
      assert originalCategories[..|originalCategories|] == originalCategories;
      r := SortDesc(results, (s: Scored) => s.score);
    }

    /** The priority an internal command is sorted by: minus the better of its name's and its alias's score. */
    function CommandPriority(wn: string, cmd: (string, string)): real {
      var cmdScore := score(wn, NormOf(cmd.0));
      var aliasScore := score(wn, NormOf(cmd.1));
      -(if cmdScore >= aliasScore then cmdScore else aliasScore)
    }

    /** An internal command is offered when its name or its alias scores above the floor. */
    predicate CommandOffered(wn: string, cmd: (string, string)) {
      score(wn, NormOf(cmd.0)) > ScoreFloor || score(wn, NormOf(cmd.1)) > ScoreFloor
    }

    /** The entries `_add_internal_command_completions` appends, in table order. */
    function CommandEntries(wn: string, cmds: seq<(string, string)>): (r: seq<Entry>)
      ensures forall e :: e in r ==> exists c :: c in cmds && CommandOffered(wn, c) && e == Entry(CommandPriority(wn, c), Completion(c.0, CommandItem))
      ensures forall c :: c in cmds && CommandOffered(wn, c) ==> Entry(CommandPriority(wn, c), Completion(c.0, CommandItem)) in r
    {
      if cmds == [] then []
      else
        var c := cmds[|cmds| - 1];
        assert cmds == cmds[..|cmds| - 1] + [c];
        CommandEntries(wn, cmds[..|cmds| - 1])
          + (if CommandOffered(wn, c) then [Entry(CommandPriority(wn, c), Completion(c.0, CommandItem))] else [])
    }

    /** `_add_internal_command_completions` */
    method AddInternalCommandCompletions(wn: string) returns (r: seq<Entry>)
      requires ScoreLaws(score)
      ensures r == CommandEntries(wn, internalCommands)
      ensures forall e :: e in r ==> e.completion.kind == CommandItem && -1.0 <= e.priority < -ScoreFloor
    {
      r := [];
      for k := 0 to |internalCommands|
        invariant r == CommandEntries(wn, internalCommands[..k])
      {
        var (cmd, alias) := internalCommands[k];
        assert (cmd, alias) == internalCommands[k];
        var cmdScore := score(wn, NormOf(cmd));
        var aliasScore := score(wn, NormOf(alias));
        CommandEntriesSnoc(wn, internalCommands, k);
        if cmdScore > ScoreFloor || aliasScore > ScoreFloor {
          var s := if cmdScore >= aliasScore then cmdScore else aliasScore;
          assert -s == CommandPriority(wn, (cmd, alias));
          r := r + [Entry(-s, Completion(cmd, CommandItem))];
        } else {
          assert !CommandOffered(wn, internalCommands[k]);
          assert CommandEntries(wn, internalCommands[..k + 1]) == CommandEntries(wn, internalCommands[..k]) + [];
        }
      }
      assert internalCommands[..|internalCommands|] == internalCommands;
      forall e | e in r ensures e.completion.kind == CommandItem && -1.0 <= e.priority < -ScoreFloor {
        var c :| c in internalCommands && CommandOffered(wn, c) && e == Entry(CommandPriority(wn, c), Completion(c.0, CommandItem));
      }
    }

    lemma CommandEntriesSnoc(wn: string, cmds: seq<(string, string)>, k: nat)
      requires k < |cmds|
      ensures CommandEntries(wn, cmds[..k + 1]) == CommandEntries(wn, cmds[..k])
        + (if CommandOffered(wn, cmds[k]) then [Entry(CommandPriority(wn, cmds[k]), Completion(cmds[k].0, CommandItem))] else [])
    {
      assert cmds[..k + 1][..k] == cmds[..k];
    }

    /** A tool's match score for `qn`: its raw score plus its usage bonus. */
    function ToolScore(qn: string, t: string): real
      reads this`usage
    {
      ScoreOf(qn, t, false) + UsageBonus(usage, t)
    }

    /**
     * What `_smart_match_tools` may return for `qn`: every tool offered,
     * once, with its score and category, best first. The order among equal
     * scores follows the iteration order of a Python set, which the model
     * leaves open.
     */
    ghost predicate ToolRanking(qn: string, ms: seq<ToolMatch>)
      reads this`toolIndex, this`usage
    {
      (forall m :: m in ms ==>
        ToolOffered(qn, m.tool) && m.tool in originalTools
        && m.score == ToolScore(qn, m.tool) && m.category == CategoryOf(toolToCategory, m.tool))
      && (forall t :: ToolOffered(qn, t) ==> exists m :: m in ms && m.tool == t)
      && (forall i, j :: 0 <= i < j < |ms| ==> ms[i].tool != ms[j].tool)
      && (forall i, j :: 0 <= i < j < |ms| ==> ms[i].score >= ms[j].score)
    }

    /** The entries `_add_smart_tool_completions` appends: the first 15 of a ranking of the tools. */
    ghost predicate ToolEntriesFor(qn: string, es: seq<Entry>)
      reads this`toolIndex, this`usage
    {
      exists ms: seq<ToolMatch> :: ToolRanking(qn, ms) && es == ToolEntries(ms, ToolLimit)
    }

    /**
     * The tool entries: at most 15 offered tools, none twice, each with
     * priority one minus its score, in ascending priority; and every tool
     * offered is among them, or all 15 places go to tools scoring at least
     * as well.
     */
    lemma ToolEntriesSpec(qn: string, es: seq<Entry>)
      requires ToolEntriesFor(qn, es)
      ensures |es| <= ToolLimit
      ensures forall e :: e in es ==>
        e.completion.kind == ToolItem && e.completion.text in originalTools && ToolOffered(qn, e.completion.text)
        && e.priority == 1.0 - ToolScore(qn, e.completion.text)
      ensures forall i, j :: 0 <= i < j < |es| ==> es[i].completion.text != es[j].completion.text
      ensures forall i, j :: 0 <= i < j < |es| ==> es[i].priority <= es[j].priority
      ensures forall t :: ToolOffered(qn, t) ==>
        Entry(1.0 - ToolScore(qn, t), Completion(t, ToolItem)) in es
        || (|es| == ToolLimit && forall e :: e in es ==> e.priority <= 1.0 - ToolScore(qn, t))
    {
      var ms: seq<ToolMatch> :| ToolRanking(qn, ms) && es == ToolEntries(ms, ToolLimit);
      TopToolsOrdered(ms, ToolLimit);
      RankedToolsSound(qn, ms);
      RankedToolsComplete(qn, ms);
    }

    /** Every ranked tool entry is an offered tool at one minus its score. */
    lemma RankedToolsSound(qn: string, ms: seq<ToolMatch>)
      requires ToolRanking(qn, ms)
      ensures forall e :: e in ToolEntries(ms, ToolLimit) ==>
        e.completion.kind == ToolItem && e.completion.text in originalTools && ToolOffered(qn, e.completion.text)
        && e.priority == 1.0 - ToolScore(qn, e.completion.text)
    {
      TopToolsSound(ms, ToolLimit);
      forall e | e in ToolEntries(ms, ToolLimit)
        ensures e.completion.kind == ToolItem && e.completion.text in originalTools && ToolOffered(qn, e.completion.text)
          && e.priority == 1.0 - ToolScore(qn, e.completion.text)
      {
        var t :| t in ms && e == Entry(1.0 - t.score, Completion(t.tool, ToolItem));
      }
    }

    /** Every offered tool is among the ranked entries, unless all 15 places go to tools ranked at least as high. */
    lemma RankedToolsComplete(qn: string, ms: seq<ToolMatch>)
      requires ToolRanking(qn, ms)
      ensures var es := ToolEntries(ms, ToolLimit);
        forall t :: ToolOffered(qn, t) ==>
          Entry(1.0 - ToolScore(qn, t), Completion(t, ToolItem)) in es
          || (|es| == ToolLimit && forall e :: e in es ==> e.priority <= 1.0 - ToolScore(qn, t))
    {
      var es := ToolEntries(ms, ToolLimit);
      TopToolsComplete(ms, ToolLimit);
      forall t | ToolOffered(qn, t)
        ensures Entry(1.0 - ToolScore(qn, t), Completion(t, ToolItem)) in es
          || (|es| == ToolLimit && forall e :: e in es ==> e.priority <= 1.0 - ToolScore(qn, t))
      {
        var m :| m in ms && m.tool == t;
        assert m.score == ToolScore(qn, t);
        assert Entry(1.0 - m.score, Completion(m.tool, ToolItem)) == Entry(1.0 - ToolScore(qn, t), Completion(t, ToolItem));
      }
    }

    /** `_add_smart_tool_completions`: the best 15 tools, priority one minus the score. */
    method AddSmartToolCompletions(wn: string) returns (r: seq<Entry>)
      requires ScoreLaws(score) && IndicesExact()
      ensures ToolEntriesFor(NormOf(wn), r)
      ensures |r| <= ToolLimit
      ensures forall e :: e in r ==>
        e.completion.kind == ToolItem && e.completion.text in originalTools
        && ToolOffered(NormOf(wn), e.completion.text)
        && -0.1 <= e.priority < 1.0 - ScoreFloor
    {
      var matches := SmartMatchTools(wn);
      r := AppendTools(matches, ToolLimit);
      assert ToolRanking(NormOf(wn), matches);
      forall e | e in r
        ensures e.completion.kind == ToolItem && e.completion.text in originalTools
          && ToolOffered(NormOf(wn), e.completion.text) && -0.1 <= e.priority < 1.0 - ScoreFloor
      {
        var k :| 0 <= k < |r| && r[k] == e;
        assert matches[k] in matches;
      }
    }

    /** The entries `_add_smart_category_completions` appends: the first 10 categories by descending score. */
    function CategoryEntries(wn: string): seq<Entry> {
      ScoredEntries(SortDesc(Hits(NormOf(wn), originalCategories, false), (s: Scored) => s.score), CategoryLimit, CategoryItem)
    }

    /** The entries `_add_smart_recent_completions` appends: the first 10 recent items by descending score. */
    function RecentEntries(wn: string, items: seq<string>, isUrl: bool): seq<Entry> {
      ScoredEntries(SortDesc(Hits(wn, items, isUrl), (s: Scored) => s.score), RecentLimit, RecentItem)
    }

    /**
     * The first `limit` items by descending score: as many as score above
     * the floor, up to `limit`; each with priority one minus its score, in
     * ascending priority; and every item above the floor is among them, or
     * all `limit` places go to items scoring at least as well.
     */
    lemma ScoredEntriesSpec(qn: string, items: seq<string>, isUrl: bool, limit: nat, kind: Kind)
      ensures var h := Hits(qn, items, isUrl);
        |ScoredEntries(SortDesc(h, (s: Scored) => s.score), limit, kind)| == if |h| < limit then |h| else limit
      ensures var es := ScoredEntries(SortDesc(Hits(qn, items, isUrl), (s: Scored) => s.score), limit, kind);
        forall e :: e in es ==>
          e.completion.kind == kind && e.completion.text in items && ScoreOf(qn, e.completion.text, isUrl) > ScoreFloor
          && e.priority == 1.0 - ScoreOf(qn, e.completion.text, isUrl)
      ensures var es := ScoredEntries(SortDesc(Hits(qn, items, isUrl), (s: Scored) => s.score), limit, kind);
        forall i, j :: 0 <= i < j < |es| ==> es[i].priority <= es[j].priority
      ensures var es := ScoredEntries(SortDesc(Hits(qn, items, isUrl), (s: Scored) => s.score), limit, kind);
        forall x :: x in items && ScoreOf(qn, x, isUrl) > ScoreFloor ==>
          Entry(1.0 - ScoreOf(qn, x, isUrl), Completion(x, kind)) in es
          || (|es| == limit && forall e :: e in es ==> e.priority <= 1.0 - ScoreOf(qn, x, isUrl))
    {
      var m := SortDesc(Hits(qn, items, isUrl), (s: Scored) => s.score);
      SortedHitsSpec(qn, items, isUrl);
      TopScoredAscending(m, limit, kind);
      ScoredEntriesSound(qn, items, isUrl, limit, kind);
      ScoredEntriesComplete(qn, items, isUrl, limit, kind);
    }

    /** Every entry of the first `limit` is an item above the floor, at one minus its score. */
    lemma ScoredEntriesSound(qn: string, items: seq<string>, isUrl: bool, limit: nat, kind: Kind)
      ensures var es := ScoredEntries(SortDesc(Hits(qn, items, isUrl), (s: Scored) => s.score), limit, kind);
        forall e :: e in es ==>
          e.completion.kind == kind && e.completion.text in items && ScoreOf(qn, e.completion.text, isUrl) > ScoreFloor
          && e.priority == 1.0 - ScoreOf(qn, e.completion.text, isUrl)
    {
      var m := SortDesc(Hits(qn, items, isUrl), (s: Scored) => s.score);
      SortedHitsSpec(qn, items, isUrl);
      TopScoredSound(m, limit, kind);
      forall e | e in ScoredEntries(m, limit, kind)
        ensures e.completion.kind == kind && e.completion.text in items && ScoreOf(qn, e.completion.text, isUrl) > ScoreFloor
          && e.priority == 1.0 - ScoreOf(qn, e.completion.text, isUrl)
      {
        var s :| s in m && e == Entry(1.0 - s.score, Completion(s.item, kind));
      }
    }

    /** Every item above the floor is among the first `limit` entries, or all places go to items scoring at least as well. */
    lemma ScoredEntriesComplete(qn: string, items: seq<string>, isUrl: bool, limit: nat, kind: Kind)
      ensures var es := ScoredEntries(SortDesc(Hits(qn, items, isUrl), (s: Scored) => s.score), limit, kind);
        forall x :: x in items && ScoreOf(qn, x, isUrl) > ScoreFloor ==>
          Entry(1.0 - ScoreOf(qn, x, isUrl), Completion(x, kind)) in es
          || (|es| == limit && forall e :: e in es ==> e.priority <= 1.0 - ScoreOf(qn, x, isUrl))
    {
      var m := SortDesc(Hits(qn, items, isUrl), (s: Scored) => s.score);
      SortedHitsSpec(qn, items, isUrl);
      TopScoredComplete(m, limit, kind);
      forall x | x in items && ScoreOf(qn, x, isUrl) > ScoreFloor
        ensures Entry(1.0 - ScoreOf(qn, x, isUrl), Completion(x, kind)) in ScoredEntries(m, limit, kind)
          || (|ScoredEntries(m, limit, kind)| == limit
              && forall e :: e in ScoredEntries(m, limit, kind) ==> e.priority <= 1.0 - ScoreOf(qn, x, isUrl))
      {
        assert Scored(ScoreOf(qn, x, isUrl), x) in m;
      }
    }

    /** `_add_smart_category_completions`: the best 10 categories, priority one minus the score. */
    method AddSmartCategoryCompletions(wn: string) returns (r: seq<Entry>)
      requires ScoreLaws(score)
      ensures r == CategoryEntries(wn)
      ensures |r| <= CategoryLimit
      ensures forall e :: e in r ==>
        e.completion.kind == CategoryItem && e.completion.text in originalCategories
        && 0.0 <= e.priority < 1.0 - ScoreFloor
    {
      var matches := SmartMatchCategories(wn);
      SortedHitsSpec(NormOf(wn), originalCategories, false);
      r := AppendScored(matches, CategoryLimit, CategoryItem);
      forall e | e in r
        ensures e.completion.kind == CategoryItem && e.completion.text in originalCategories
          && 0.0 <= e.priority < 1.0 - ScoreFloor
      {
        var k :| 0 <= k < |r| && r[k] == e;
        assert matches[k] in matches;
      }
    }

    /**
     * `_add_smart_recent_completions`: the recent items whose normalised
     * form (after URL canonicalisation for URLs) scores above the floor,
     * the best 10, priority one minus the score.
     */
    method AddSmartRecentCompletions(wn: string, items: seq<string>, isUrl: bool) returns (r: seq<Entry>)
      requires ScoreLaws(score)
      ensures r == RecentEntries(wn, items, isUrl)
      ensures |r| <= RecentLimit
      ensures forall e :: e in r ==>
        e.completion.kind == RecentItem && e.completion.text in items
        && ScoreOf(wn, e.completion.text, isUrl) > ScoreFloor
        && 0.0 <= e.priority < 1.0 - ScoreFloor
    {
      var scored: seq<Scored> := [];
      for k := 0 to |items|
        invariant scored == Hits(wn, items[..k], isUrl)
      {
        var item := items[k];
        HitsSnoc(wn, items, k, isUrl);
        var itemNorm := NormOf(if isUrl then urlCanon(item) else item);
        if itemNorm != [] {
          var s := score(wn, itemNorm);
          if s > ScoreFloor {
            scored := scored + [Scored(s, item)];
          }
        }
      }
      assert items[..|items|] == items;
      SortedHitsSpec(wn, items, isUrl);
      var matches := SortDesc(scored, (s: Scored) => s.score);
      r := AppendScored(matches, RecentLimit, RecentItem);
      forall e | e in r
        ensures e.completion.kind == RecentItem && e.completion.text in items
          && ScoreOf(wn, e.completion.text, isUrl) > ScoreFloor && 0.0 <= e.priority < 1.0 - ScoreFloor
      {
        var k :| 0 <= k < |r| && r[k] == e;
        assert matches[k] in matches;
      }
    }

    /** What `get_completions` may offer after `text`, by the context of its first token. */
    ghost predicate InScope(text: string, c: Completion)
      reads owner
    {
      var ctx := ParseCommandContext(text);
      if !IsCommandArg(ctx) then
        (c.kind == CommandItem && exists cmd :: cmd in internalCommands && cmd.0 == c.text)
        || (c.kind == CategoryItem && c.text in originalCategories)
        || (c.kind == ToolItem && c.text in originalTools)
      else if ctx.refresh then c == Completion("config", ConfigItem)
      else if ctx.edit then c.kind == ToolItem && c.text in originalTools
      else if ctx.setip then c.kind == RecentItem && c.text in owner.recentIps
      else if ctx.seturl then c.kind == RecentItem && c.text in owner.recentUrls
      else false
    }

    /**
     * The `completions` list `get_completions` collects for the word
     * normalising to `wn`, by context: outside a command argument the
     * command, category and tool entries in that order; `config` for a
     * `refresh` argument it is part of; the tool entries for `edit`; the
     * recent IPs for `setip` and the recent URLs for `seturl`; nothing for
     * `gtfsearch` or `refresh` with any other word.
     */
    ghost predicate EntriesFor(text: string, wn: string, entries: seq<Entry>)
      reads this`toolIndex, this`usage, owner
    {
      var ctx := ParseCommandContext(text);
      if !IsCommandArg(ctx) then
        var pre := CommandEntries(wn, internalCommands) + CategoryEntries(wn);
        |pre| <= |entries| && entries[..|pre|] == pre && ToolEntriesFor(NormOf(wn), entries[|pre|..])
      else if ctx.refresh then
        entries == if Contains(NormOf("config"), wn) then [Entry(0.0, Completion("config", ConfigItem))] else []
      else if ctx.edit then ToolEntriesFor(NormOf(wn), entries)
      else if ctx.setip then entries == RecentEntries(wn, owner.recentIps, false)
      else if ctx.seturl then entries == RecentEntries(wn, owner.recentUrls, true)
      else entries == []
    }

    /** Command entries are sorted below every other kind, and every entry belongs to its context. */
    /** The no-argument entries (commands, then categories, then tools) keep the kind order and the scope. */
    lemma PlainEntriesScope(text: string, wn: string, tools: seq<Entry>)
      requires ScoreLaws(score) && IndicesExact() && !IsCommandArg(ParseCommandContext(text))
      requires ToolEntriesFor(NormOf(wn), tools)
      ensures var entries := CommandEntries(wn, internalCommands) + CategoryEntries(wn) + tools;
        && PriorityByKind(entries)
        && forall e :: e in entries ==> InScope(text, e.completion)
    {
      var qn := NormOf(wn);
      var commands := CommandEntries(wn, internalCommands);
      var categories := CategoryEntries(wn);
      ToolEntriesSpec(qn, tools);
      ScoredEntriesSpec(qn, originalCategories, false, CategoryLimit, CategoryItem);
      forall e | e in commands + categories + tools
        ensures (e.completion.kind == CommandItem <==> e.priority < -ScoreFloor) && InScope(text, e.completion)
      {
        if e in commands {
          var c :| c in internalCommands && CommandOffered(wn, c) && e == Entry(CommandPriority(wn, c), Completion(c.0, CommandItem));
        } else if e in categories {
        } else {
          assert e in tools;
        }
      }
    }

    lemma EntriesForScope(text: string, wn: string, entries: seq<Entry>)
      requires ScoreLaws(score) && IndicesExact() && EntriesFor(text, wn, entries)
      ensures PriorityByKind(entries)
      ensures forall e :: e in entries ==> InScope(text, e.completion)
    {
      var ctx := ParseCommandContext(text);
      var qn := NormOf(wn);
      if !IsCommandArg(ctx) {
        var pre := CommandEntries(wn, internalCommands) + CategoryEntries(wn);
        var tools := entries[|pre|..];
        assert entries == pre + tools;
        PlainEntriesScope(text, wn, tools);
      } else if ctx.edit {
        ToolEntriesSpec(qn, entries);
      } else if ctx.setip {
        ScoredEntriesSpec(wn, owner.recentIps, false, RecentLimit, RecentItem);
      } else if ctx.seturl {
        ScoredEntriesSpec(wn, owner.recentUrls, true, RecentLimit, RecentItem);
      }
    }

    /** The `completions` list `get_completions` builds before sorting, for a word normalising to `wn`. */
    method ComputeEntries(text: string, wn: string) returns (entries: seq<Entry>)
      requires ScoreLaws(score) && IndicesExact()
      ensures EntriesFor(text, wn, entries)
      ensures PriorityByKind(entries)
      ensures forall e :: e in entries ==> InScope(text, e.completion)
    {
      var context := ParseCommandContext(text);
      if !IsCommandArg(context) {
        var commands := AddInternalCommandCompletions(wn);
        var categories := AddSmartCategoryCompletions(wn);
        var tools := AddSmartToolCompletions(wn);
        entries := commands + categories + tools;
        assert entries[..|commands + categories|] == commands + categories;
        assert entries[|commands + categories|..] == tools;
      } else if context.refresh && Contains(NormOf("config"), wn) {
        entries := [Entry(0.0, Completion("config", ConfigItem))];
      } else if context.edit {
        entries := AddSmartToolCompletions(wn);
      } else if context.setip {
        entries := AddSmartRecentCompletions(wn, owner.recentIps, false);
      } else if context.seturl {
        entries := AddSmartRecentCompletions(wn, owner.recentUrls, true);
      } else {
        entries := [];
      }
      EntriesForScope(text, wn, entries);
    }

    /**
     * The completions for the entries of a context: no text twice,
     * commands first, each in the context's scope, and every text entered
     * offered.
     */
    lemma FreshCompletionsSpec(text: string, wn: string, entries: seq<Entry>)
      requires ScoreLaws(score) && IndicesExact() && EntriesFor(text, wn, entries)
      ensures var r := FinalCompletions(entries);
        && DistinctTexts(r) && CommandsFirst(r)
        && (forall c :: c in r ==> InScope(text, c))
        && (forall e :: e in entries ==> e.completion.text in Texts(r))
    {
      EntriesForScope(text, wn, entries);
      FinalCompletionsSound(entries);
      FinalCompletionsSpec(entries);
      var r := FinalCompletions(entries);
      forall c | c in r ensures InScope(text, c) {
        var e :| e in entries && e.completion == c;
      }
    }

    /**
     * The uncached part of `get_completions`: the entries for the context,
     * sorted by priority, the first of each text kept, one use counted for
     * each kept text.
     */
    method FreshCompletions(text: string, wn: string) returns (r: seq<Completion>, ghost entries: seq<Entry>)
      requires ScoreLaws(score) && IndicesExact()
      modifies this`usage
      ensures old(EntriesFor(text, wn, entries)) && r == FinalCompletions(entries)
      ensures DistinctTexts(r) && CommandsFirst(r)
      ensures forall c :: c in r ==> InScope(text, c)
      ensures forall t :: UsageOf(usage, t) == UsageOf(old(usage), t) + if t in Texts(r) then 1 else 0
    {
      var collected := ComputeEntries(text, wn);
      entries := collected;
      FreshCompletionsSpec(text, wn, collected);
      r, usage := DedupCounting(SortAsc(collected, (e: Entry) => e.priority), usage);
    }

    /** The fresh path of `get_completions`: compute, count usage, and cache under `key` while fewer than 100 keys are held. */
    method FreshAndCache(text: string, key: string, wn: string) returns (r: seq<Completion>, ghost entries: seq<Entry>)
      requires Valid()
      modifies this`cache, this`usage
      ensures Valid()
      ensures old(EntriesFor(text, wn, entries)) && r == FinalCompletions(entries)
      ensures cache == if |old(cache)| < MaxCacheEntries then old(cache)[key := r] else old(cache)
      ensures DistinctTexts(r) && CommandsFirst(r) && forall c :: c in r ==> InScope(text, c)
      ensures forall t :: UsageOf(usage, t) == UsageOf(old(usage), t) + if t in Texts(r) then 1 else 0
    {
      r, entries := FreshCompletions(text, wn);
      assert IndicesExact();
      CacheCompletions(key, r);
      assert IndicesExact();
    }

    /**
     * `get_completions` for the text before the cursor and the word being
     * typed, at time `now`. After 300 seconds the cache is dropped and the
     * clock reset; a non-empty list still cached for `text:word` is
     * replayed; otherwise the completions are computed afresh, each kept
     * text's usage counted, and the list cached while fewer than 100 keys
     * are held.
     */
    method GetCompletions(text: string, word: string, now: real) returns (r: seq<Completion>, ghost fromCache: bool, ghost entries: seq<Entry>)
      requires Valid()
      modifies this`cache, this`lastClear, this`usage
      ensures Valid()
      ensures DistinctTexts(r)
      ensures NormOf(word) == [] ==>
        r == [] && !fromCache && cache == old(cache) && lastClear == old(lastClear) && usage == old(usage)
      ensures NormOf(word) != [] ==>
        var key := text + ":" + word;
        var expired := now - old(lastClear) > CacheLifetime;
        var live := if expired then map[] else old(cache);
        && lastClear == (if expired then now else old(lastClear))
        && (fromCache <==> key in live && live[key] != [])
        && (fromCache ==> r == live[key] && cache == live && usage == old(usage))
        && (!fromCache ==>
              old(EntriesFor(text, NormOf(word), entries)) && r == FinalCompletions(entries)
              && cache == if |live| < MaxCacheEntries then live[key := r] else live)
      ensures !fromCache ==> CommandsFirst(r) && forall c :: c in r ==> InScope(text, c)
      ensures !fromCache ==> forall t :: UsageOf(usage, t) == UsageOf(old(usage), t) + if t in Texts(r) then 1 else 0
    {
      var wordNormalized := normalize(word);
      if wordNormalized.None? || |wordNormalized.value| == 0 {
        return [], false, [];
      }
      var key := text + ":" + word;
      assert wordNormalized.value == NormOf(word);
      var cached := GetCachedCompletions(key, now);
      if cached.Some? && cached.value != [] {
        return cached.value, true, [];
      }
      assert forall es :: EntriesFor(text, NormOf(word), es) == old(EntriesFor(text, NormOf(word), es));
      fromCache := false;
      r, entries := FreshAndCache(text, key, wordNormalized.value);
    }
  }

  /** The list comprehension `[x for x in s if p(x)]`. */
  function FilterSeq(s: seq<string>, p: string -> bool): (r: seq<string>)
    ensures forall x :: x in r <==> x in s && p(x)
  {
    if s == [] then [] else (if p(s[0]) then [s[0]] else []) + FilterSeq(s[1..], p)
  }
}
