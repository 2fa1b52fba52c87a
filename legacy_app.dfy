/**
 * The interactive side of searchCommand.py: its `EnhancedCompleter`, the
 * `SearchCommand` state with the category search and the `setip` and
 * `seturl` commands, and the two-column listing.
 */
module LegacyApp {
  import opened Wrappers
  import opened Strings
  import opened Sorting
  import opened TextUtils
  import opened Legacy
  import Session
  import Completer

  // ------------------------------------------------------- EnhancedCompleter.get_completions

  /** The internal commands the completer offers, in its order. */
  const LegacyCommands: seq<string> := ["help", "clear", "list tools", "list categories", "setip", "seturl", "exit"]

  /** `list(d.keys())` */
  function Names(d: Sections): (r: seq<string>)
    ensures |r| == |d| && forall k :: 0 <= k < |d| ==> r[k] == d[k].0
  {
    seq(|d|, k requires 0 <= k < |d| => d[k].0)
  }

  /**
   * The entry for one name when its normal form (under `norm`) holds the
   * word's: priority 0 for an exact normal form, or always for the
   * commands; 1 otherwise.
   */
  function OfferOne(name: string, norm: string -> string, wn: string, kind: Completer.Kind, always: bool): seq<Completer.Entry> {
    var n := norm(name);
    if Contains(n, wn) then [Completer.Entry(if always || n == wn then 0.0 else 1.0, Completer.Completion(name, kind))] else []
  }

  /** The entries one of `get_completions`' loops collects from `names`. */
  function Offered(names: seq<string>, norm: string -> string, wn: string, kind: Completer.Kind, always: bool): seq<Completer.Entry> {
    if names == [] then []
    else Offered(names[..|names| - 1], norm, wn, kind, always) + OfferOne(names[|names| - 1], norm, wn, kind, always)
  }

  /** The line has at least two words and the first one normalises to one of `heads`. */
  predicate InArgScope(text: string, heads: seq<string>) {
    var parts := Words(Strip(text));
    |parts| >= 2 && NormalizeLegacy(parts[0]) in heads
  }

  const SetIpHeads: seq<string> := ["setip", "si"]
  const SetUrlHeads: seq<string> := ["seturl", "su"]

  /** The two argument scopes exclude each other. */
  lemma ScopesExclusive(text: string)
    ensures !(InArgScope(text, SetIpHeads) && InArgScope(text, SetUrlHeads))
  {
  }

  /**
   * The entries collected with each name's normal form taken by `norm`,
   * the word's being `wn`, inside a `setip` argument or a `seturl` one or
   * neither.
   */
  function EntriesOf(commands: seq<string>, cats: seq<string>, tools: seq<string>, ips: seq<string>, urls: seq<string>,
                     setip: bool, seturl: bool, norm: string -> string, wn: string): seq<Completer.Entry>
  {
    (if setip || seturl then []
     else
       Offered(commands, norm, wn, Completer.CommandItem, true)
       + Offered(cats, norm, wn, Completer.CategoryItem, false)
       + Offered(tools, norm, wn, Completer.ToolItem, false))
    + (if setip then Offered(ips, norm, wn, Completer.RecentItem, false) else [])
    + (if seturl then Offered(urls, norm, wn, Completer.RecentItem, false) else [])
  }

  /**
   * Every entry `get_completions` collects for the text before the cursor
   * and the word being typed: the commands, the categories and the tools
   * outside a `setip`/`seturl` argument; the recent IPs or URLs inside one.
   */
  function LegacyEntries(commands: seq<string>, cats: seq<string>, tools: seq<string>, ips: seq<string>, urls: seq<string>, text: string, word: string): seq<Completer.Entry> {
    EntriesOf(commands, cats, tools, ips, urls, InArgScope(text, SetIpHeads), InArgScope(text, SetUrlHeads), NormalizeLegacy, NormalizeLegacy(word))
  }

  /** An entry for each name holding the word is collected, with its priority, and nothing else is. */
  lemma {:induction false} OfferedSpec(names: seq<string>, norm: string -> string, wn: string, kind: Completer.Kind, always: bool)
    ensures forall e :: e in Offered(names, norm, wn, kind, always) ==>
      && e.completion.kind == kind && e.completion.text in names
      && Contains(norm(e.completion.text), wn)
      && e.priority == (if always || norm(e.completion.text) == wn then 0.0 else 1.0)
    ensures forall k :: 0 <= k < |names| && Contains(norm(names[k]), wn) ==>
      Completer.Entry(if always || norm(names[k]) == wn then 0.0 else 1.0, Completer.Completion(names[k], kind))
        in Offered(names, norm, wn, kind, always)
  {
    if names != [] {
      var init := names[..|names| - 1];
      OfferedSpec(init, norm, wn, kind, always);
      forall k | 0 <= k < |names| - 1 ensures names[k] == init[k] {
      }
    }
  }

  /** The texts of the entries. */
  function EntryTexts(es: seq<Completer.Entry>): set<string> {
    set e | e in es :: e.completion.text
  }

  /** Each collected entry comes from the names in scope, holds the word and has priority 0 or 1. */
  lemma EntriesOfSound(commands: seq<string>, cats: seq<string>, tools: seq<string>, ips: seq<string>, urls: seq<string>,
                       setip: bool, seturl: bool, norm: string -> string, wn: string)
    requires !(setip && seturl)
    ensures forall e :: e in EntriesOf(commands, cats, tools, ips, urls, setip, seturl, norm, wn) ==>
      && Contains(norm(e.completion.text), wn)
      && (e.priority == 0.0 || e.priority == 1.0)
      && (setip ==> e.completion.text in ips && e.completion.kind == Completer.RecentItem)
      && (seturl ==> e.completion.text in urls && e.completion.kind == Completer.RecentItem)
      && (!setip && !seturl ==>
            && e.completion.kind != Completer.RecentItem
            && (e.completion.text in commands || e.completion.text in cats || e.completion.text in tools))
  {
    OfferedSpec(commands, norm, wn, Completer.CommandItem, true);
    OfferedSpec(cats, norm, wn, Completer.CategoryItem, false);
    OfferedSpec(tools, norm, wn, Completer.ToolItem, false);
    OfferedSpec(ips, norm, wn, Completer.RecentItem, false);
    OfferedSpec(urls, norm, wn, Completer.RecentItem, false);
  }

  /** Each name in scope that holds the word is collected. */
  lemma EntriesOfCover(commands: seq<string>, cats: seq<string>, tools: seq<string>, ips: seq<string>, urls: seq<string>,
                       setip: bool, seturl: bool, norm: string -> string, wn: string)
    ensures var es := EntryTexts(EntriesOf(commands, cats, tools, ips, urls, setip, seturl, norm, wn));
      && (!setip && !seturl ==>
            (forall k :: 0 <= k < |commands| && Contains(norm(commands[k]), wn) ==> commands[k] in es)
            && (forall k :: 0 <= k < |cats| && Contains(norm(cats[k]), wn) ==> cats[k] in es)
            && (forall k :: 0 <= k < |tools| && Contains(norm(tools[k]), wn) ==> tools[k] in es))
      && (setip ==> forall k :: 0 <= k < |ips| && Contains(norm(ips[k]), wn) ==> ips[k] in es)
      && (seturl ==> forall k :: 0 <= k < |urls| && Contains(norm(urls[k]), wn) ==> urls[k] in es)
  {
    var all := EntriesOf(commands, cats, tools, ips, urls, setip, seturl, norm, wn);
    OfferedSpec(commands, norm, wn, Completer.CommandItem, true);
    OfferedSpec(cats, norm, wn, Completer.CategoryItem, false);
    OfferedSpec(tools, norm, wn, Completer.ToolItem, false);
    OfferedSpec(ips, norm, wn, Completer.RecentItem, false);
    OfferedSpec(urls, norm, wn, Completer.RecentItem, false);
    forall e | e in all ensures e.completion.text in EntryTexts(all) {
    }
  }

  /**
   * What `get_completions` yields: no text twice; every text's normal
   * form holds the word's; inside a `setip` (`seturl`) argument only
   * recent IPs (URLs), outside one only commands, categories and tools;
   * and every text collected is yielded.
   */
  lemma LegacyCompletionsSpec(commands: seq<string>, cats: seq<string>, tools: seq<string>, ips: seq<string>, urls: seq<string>, text: string, word: string)
    ensures var r := Completer.FinalCompletions(LegacyEntries(commands, cats, tools, ips, urls, text, word));
      && Completer.DistinctTexts(r)
      && (forall c :: c in r ==> Contains(NormalizeLegacy(c.text), NormalizeLegacy(word)))
      && (InArgScope(text, SetIpHeads) ==> forall c :: c in r ==> c.text in ips && c.kind == Completer.RecentItem)
      && (InArgScope(text, SetUrlHeads) ==> forall c :: c in r ==> c.text in urls && c.kind == Completer.RecentItem)
      && (!InArgScope(text, SetIpHeads) && !InArgScope(text, SetUrlHeads) ==>
            forall c :: c in r ==> c.kind != Completer.RecentItem && (c.text in commands || c.text in cats || c.text in tools))
      && EntryTexts(LegacyEntries(commands, cats, tools, ips, urls, text, word)) <= Completer.Texts(r)
  {
    var entries := LegacyEntries(commands, cats, tools, ips, urls, text, word);
    Completer.FinalCompletionsSound(entries);
    ScopesExclusive(text);
    EntriesOfSound(commands, cats, tools, ips, urls, InArgScope(text, SetIpHeads), InArgScope(text, SetUrlHeads), NormalizeLegacy, NormalizeLegacy(word));
  }

  /**
   * Every name in scope whose normal form holds the word's is collected:
   * commands, categories and tools outside an argument, the recent IPs in
   * a `setip` argument, the recent URLs in a `seturl` one.
   */
  lemma LegacyEntriesCover(commands: seq<string>, cats: seq<string>, tools: seq<string>, ips: seq<string>, urls: seq<string>, text: string, word: string)
    ensures var wn, es := NormalizeLegacy(word), EntryTexts(LegacyEntries(commands, cats, tools, ips, urls, text, word));
      && (!InArgScope(text, SetIpHeads) && !InArgScope(text, SetUrlHeads) ==>
            (forall k :: 0 <= k < |commands| && Contains(NormalizeLegacy(commands[k]), wn) ==> commands[k] in es)
            && (forall k :: 0 <= k < |cats| && Contains(NormalizeLegacy(cats[k]), wn) ==> cats[k] in es)
            && (forall k :: 0 <= k < |tools| && Contains(NormalizeLegacy(tools[k]), wn) ==> tools[k] in es))
      && (InArgScope(text, SetIpHeads) ==> forall k :: 0 <= k < |ips| && Contains(NormalizeLegacy(ips[k]), wn) ==> ips[k] in es)
      && (InArgScope(text, SetUrlHeads) ==> forall k :: 0 <= k < |urls| && Contains(NormalizeLegacy(urls[k]), wn) ==> urls[k] in es)
  {
    EntriesOfCover(commands, cats, tools, ips, urls, InArgScope(text, SetIpHeads), InArgScope(text, SetUrlHeads), NormalizeLegacy, NormalizeLegacy(word));
  }

  /**
   * The stable sort on priority lists every priority-0 entry (commands,
   * exact matches) in collection order, then every priority-1 entry in
   * collection order, and the first of each text is kept.
   */
  lemma LegacyCompletionsOrder(commands: seq<string>, cats: seq<string>, tools: seq<string>, ips: seq<string>, urls: seq<string>, text: string, word: string)
    ensures var es := LegacyEntries(commands, cats, tools, ips, urls, text, word);
      Completer.FinalCompletions(es) ==
        Completer.Dedup(Keep(es, Completer.FirstTier) + Keep(es, Completer.SecondTier), {})
  {
    ScopesExclusive(text);
    EntriesOfSound(commands, cats, tools, ips, urls, InArgScope(text, SetIpHeads), InArgScope(text, SetUrlHeads), NormalizeLegacy, NormalizeLegacy(word));
    Completer.FinalCompletionsTwoTiers(LegacyEntries(commands, cats, tools, ips, urls, text, word));
  }

  /**
   * With empty recent lists nothing is offered inside a `setip` or
   * `seturl` argument. The completer the program builds holds such lists
   * for good: see `SearchCommand`'s constructor.
   */
  lemma RecentNeverOffered(commands: seq<string>, cats: seq<string>, tools: seq<string>, text: string, word: string)
    requires InArgScope(text, SetIpHeads) || InArgScope(text, SetUrlHeads)
    ensures Completer.FinalCompletions(LegacyEntries(commands, cats, tools, [], [], text, word)) == []
  {
    assert LegacyEntries(commands, cats, tools, [], [], text, word) == [];
  }

  /** One loop of `get_completions`: append the entries for `names`. */
  method AppendOffered(entries: seq<Completer.Entry>, names: seq<string>, norm: string -> string, wn: string, kind: Completer.Kind, always: bool)
    returns (r: seq<Completer.Entry>)
    ensures r == entries + Offered(names, norm, wn, kind, always)
  {
    r := entries;
    for i := 0 to |names|
      invariant r == entries + Offered(names[..i], norm, wn, kind, always)
    {
      assert names[..i + 1][..i] == names[..i];
      var n := norm(names[i]);
      if Contains(n, wn) {
        var priority := if always || n == wn then 0.0 else 1.0;
        r := r + [Completer.Entry(priority, Completer.Completion(names[i], kind))];
      }
    }
    assert names[..|names|] == names;
  }

  /** The final loop: the first completion of each text, in order, with a `seen` set. */
  method DedupLoop(sorted: seq<Completer.Entry>) returns (r: seq<Completer.Completion>)
    ensures r == Completer.Dedup(sorted, {})
  {
    r := [];
    var seen: set<string> := {};
    for i := 0 to |sorted|
      invariant r + Completer.Dedup(sorted[i..], seen) == Completer.Dedup(sorted, {})
    {
      var completion := sorted[i].completion;
      Completer.DedupCons(sorted[i..], seen);
      assert sorted[i..][1..] == sorted[i + 1..];
      if completion.text !in seen {
        seen := seen + {completion.text};
        r := r + [completion];
      }
    }
  }

  /** The loops of `get_completions` that collect the entries, normalising with `norm`. */
  method CollectEntries(commands: seq<string>, cats: seq<string>, tools: seq<string>, ips: seq<string>, urls: seq<string>,
                        isSetipArg: bool, isSeturlArg: bool, norm: string -> string, wordNormalized: string)
    returns (completions: seq<Completer.Entry>)
    ensures completions == EntriesOf(commands, cats, tools, ips, urls, isSetipArg, isSeturlArg, norm, wordNormalized)
  {
    ghost var names := (
      if isSetipArg || isSeturlArg then []
      else
        Offered(commands, norm, wordNormalized, Completer.CommandItem, true)
        + Offered(cats, norm, wordNormalized, Completer.CategoryItem, false)
        + Offered(tools, norm, wordNormalized, Completer.ToolItem, false));
    ghost var ipPart := if isSetipArg then Offered(ips, norm, wordNormalized, Completer.RecentItem, false) else [];
    ghost var urlPart := if isSeturlArg then Offered(urls, norm, wordNormalized, Completer.RecentItem, false) else [];
    completions := [];
    if !(isSetipArg || isSeturlArg) {
      completions := AppendOffered(completions, commands, norm, wordNormalized, Completer.CommandItem, true);
      assert completions == Offered(commands, norm, wordNormalized, Completer.CommandItem, true);
      completions := AppendOffered(completions, cats, norm, wordNormalized, Completer.CategoryItem, false);
      completions := AppendOffered(completions, tools, norm, wordNormalized, Completer.ToolItem, false);
    }
    assert completions == names;
    if isSetipArg {
      completions := AppendOffered(completions, ips, norm, wordNormalized, Completer.RecentItem, false);
    }
    assert completions == names + ipPart;
    if isSeturlArg {
      completions := AppendOffered(completions, urls, norm, wordNormalized, Completer.RecentItem, false);
    }
    assert completions == names + ipPart + urlPart;
  }

  /** `get_completions` over the given commands, categories, tools and recent lists. */
  method Complete(commands: seq<string>, cats: seq<string>, tools: seq<string>, ips: seq<string>, urls: seq<string>, text: string, word: string)
    returns (r: seq<Completer.Completion>)
    ensures r == Completer.FinalCompletions(LegacyEntries(commands, cats, tools, ips, urls, text, word))
  {
    var wordNormalized := NormalizeLegacy(word);
    var parts := Words(Strip(text));
    var isSetipArg := |parts| >= 2 && NormalizeLegacy(parts[0]) in SetIpHeads;
    var isSeturlArg := |parts| >= 2 && NormalizeLegacy(parts[0]) in SetUrlHeads;
    var completions := CollectEntries(commands, cats, tools, ips, urls, isSetipArg, isSeturlArg, NormalizeLegacy, wordNormalized);
    r := DedupLoop(SortAsc(completions, (e: Completer.Entry) => e.priority));
  }

  /** This program's `EnhancedCompleter`: the names it offers and the recent lists it was built with. */
  class EnhancedCompleter {
    const commands: seq<string>
    const categories: seq<string>
    const tools: seq<string>
    const recentIps: seq<string>
    const recentUrls: seq<string>

    /** `recent_ips or []`: the lists are kept as given, an empty one as a new empty list. */
    constructor(categories: seq<string>, tools: seq<string>, recentIps: seq<string>, recentUrls: seq<string>)
      ensures commands == LegacyCommands && this.categories == categories && this.tools == tools
      ensures this.recentIps == recentIps && this.recentUrls == recentUrls
    {
      commands := LegacyCommands;
      this.categories := categories;
      this.tools := tools;
      this.recentIps := recentIps;
      this.recentUrls := recentUrls;
    }

    method GetCompletions(text: string, word: string) returns (r: seq<Completer.Completion>)
      ensures r == Completer.FinalCompletions(LegacyEntries(commands, categories, tools, recentIps, recentUrls, text, word))
    {
      r := Complete(commands, categories, tools, recentIps, recentUrls, text, word);
    }
  }

  // ------------------------------------------------------- the category search

  /**
   * The loop of `_search_generic` for categories: the first exact match
   * is returned at once; otherwise the first partial match with a
   * non-empty name is remembered. The index stands for the name found.
   */
  method FindCategory(categories: Sections, queryNormalized: string) returns (p: Option<nat>)
    ensures p == PickCategory(categories, queryNormalized)
    ensures p.Some? ==> p.value < |categories|
  {
    ghost var exact, partial := MatchFlags(categories, queryNormalized, true), MatchFlags(categories, queryNormalized, false);
    var bestMatch: Option<nat> := None;
    for i := 0 to |categories|
      invariant FirstSet(exact, i).None?
      invariant bestMatch == FirstSet(partial, i)
    {
      var catNormalized := NormalizeLegacy(categories[i].0);
      MatchFlagsAt(categories, queryNormalized, true, i);
      MatchFlagsAt(categories, queryNormalized, false, i);
      if catNormalized == queryNormalized {
        FirstSetLater(exact, i + 1, |categories|);
        return Some(i);
      } else if Contains(catNormalized, queryNormalized) && categories[i].0 != [] && bestMatch.None? {
        bestMatch := Some(i);
      }
    }
    FirstSetSpec(partial, |categories|);
    return bestMatch;
  }

  // ------------------------------------------------------- the program's state

  datatype Outcome =
    | NotInternal   // `return False`: the query is searched instead
    | Handled       // `return True`
    | ExitProgram   // `sys.exit(0)`

  /**
   * `SearchCommand` of this program: the parsed categories and the tools,
   * the last category found, the `$IP`/`$URL` values with their recent
   * lists, and the completer built at start-up.
   */
  class SearchCommand {
    var categories: Sections
    var tools: seq<string>
    var currentCategory: string
    var lastQuery: string
    var lastResultsCount: nat
    var ipValue: Option<string>
    var urlValue: Option<string>
    var recentIps: seq<string>
    var recentUrls: seq<string>
    /** `_normalize_url`, the `urllib` parse and unparse. */
    const normalizeUrl: string -> string
    const completer: EnhancedCompleter

    ghost predicate Valid()
      reads this
    {
      DistinctKeys(categories) && Session.RecentOk(recentIps) && Session.RecentOk(recentUrls)
    }

    /**
     * Start-up after the file was parsed. The completer is handed the
     * recent lists while they are still empty, so it keeps empty lists of
     * its own that later commands never fill.
     */
    constructor(categories: Sections, tools: seq<string>, normalizeUrl: string -> string)
      requires DistinctKeys(categories)
      ensures Valid()
      ensures this.categories == categories && this.tools == tools && this.normalizeUrl == normalizeUrl
      ensures currentCategory == [] && lastQuery == [] && lastResultsCount == 0
      ensures ipValue == None && urlValue == None && recentIps == [] && recentUrls == []
      ensures completer.commands == LegacyCommands && completer.categories == Names(categories) && completer.tools == tools
      ensures completer.recentIps == [] && completer.recentUrls == []
    {
      this.categories := categories;
      this.tools := tools;
      this.normalizeUrl := normalizeUrl;
      currentCategory := [];
      lastQuery := [];
      lastResultsCount := 0;
      ipValue := None;
      urlValue := None;
      recentIps := [];
      recentUrls := [];
      completer := new EnhancedCompleter(Names(categories), tools, [], []);
    }

    /**
     * `search_by_category`: the category picked for the query's normal
     * form becomes the current one and its lines after the header are
     * returned with the variables replaced; with none, the state is reset.
     */
    method SearchByCategory(query: string) returns (results: seq<string>)
      requires Valid()
      modifies this`currentCategory, this`lastQuery, this`lastResultsCount
      ensures var p := PickCategory(categories, NormalizeLegacy(query));
        && (p.Some? ==>
              && p.value < |categories| && currentCategory == categories[p.value].0 && lastQuery == categories[p.value].0
              && results == ReplacedLines(categories[p.value].1, ipValue, urlValue, normalizeUrl))
        && (p.None? ==> currentCategory == [] && lastQuery == [] && results == [])
        && lastResultsCount == |results|
    {
      var p := FindCategory(categories, NormalizeLegacy(query));
      if p.Some? {
        var category := categories[p.value].0;
        GetAt(categories, p.value);
        currentCategory := category;
        lastQuery := category;
        results := ReplacedLines(Get(categories, category).value, ipValue, urlValue, normalizeUrl);
        lastResultsCount := |results|;
      } else {
        currentCategory := [];
        lastQuery := [];
        lastResultsCount := 0;
        results := [];
      }
    }

    /** The `setip` branch with its argument. */
    method SetIpCommand(args: string, isIpAddress: string -> bool)
      requires Valid()
      modifies this`ipValue, this`recentIps
      ensures Valid()
      ensures LegacyIpAccepted(args, isIpAddress) ==> ipValue == Some(args) && recentIps == Session.PushRecent(old(recentIps), args)
      ensures args == "clear" ==> ipValue == None && recentIps == old(recentIps)
      ensures !LegacyIpAccepted(args, isIpAddress) && args != "clear" ==> ipValue == old(ipValue) && recentIps == old(recentIps)
    {
      if args == [] {
      } else if args == "clear" {
        ipValue := None;
      } else if isIpAddress(args) || (LegacyDomain(args) && 1 < |args| <= 255) {
        ipValue := Some(args);
        Session.PushRecentSpec(recentIps, args);
        if args !in recentIps {
          recentIps := recentIps + [args];
          if |recentIps| > Session.MaxRecent {
            recentIps := recentIps[1..];
          }
        }
      }
    }

    /** The `seturl` branch with its argument: the normalised URL is stored and remembered. */
    method SetUrlCommand(args: string)
      requires Valid()
      modifies this`urlValue, this`recentUrls
      ensures Valid()
      ensures LegacyUrlAccepted(args) ==>
        urlValue == Some(normalizeUrl(args)) && recentUrls == Session.PushRecent(old(recentUrls), normalizeUrl(args))
      ensures args == "clear" ==> urlValue == None && recentUrls == old(recentUrls)
      ensures !LegacyUrlAccepted(args) && args != "clear" ==> urlValue == old(urlValue) && recentUrls == old(recentUrls)
    {
      if args == [] {
      } else if args == "clear" {
        urlValue := None;
      } else if LegacyUrl(args) {
        var normalizedUrl := normalizeUrl(args);
        urlValue := Some(normalizedUrl);
        Session.PushRecentSpec(recentUrls, normalizedUrl);
        if normalizedUrl !in recentUrls {
          recentUrls := recentUrls + [normalizedUrl];
          if |recentUrls| > Session.MaxRecent {
            recentUrls := recentUrls[1..];
          }
        }
      }
    }

    /**
     * `_handle_internal_command` for a query that is not blank: the
     * listings, help and clear change nothing here, exit ends the
     * program, `setip` and `seturl` update their value and recent list.
     */
    method HandleInternalCommand(query: string, isIpAddress: string -> bool) returns (outcome: Outcome)
      requires Valid() && !AllSpace(query)
      modifies this`ipValue, this`urlValue, this`recentIps, this`recentUrls
      ensures Valid()
      ensures var (first, args) := CommandWords(query); var c := CommandOf(first);
        && (c.None? <==> outcome == NotInternal)
        && (c == Some(Exit) <==> outcome == ExitProgram)
        && (c == Some(SetIp) && LegacyIpAccepted(args, isIpAddress) ==>
              ipValue == Some(args) && recentIps == Session.PushRecent(old(recentIps), args))
        && (c == Some(SetIp) && args == "clear" ==> ipValue == None && recentIps == old(recentIps))
        && (c == Some(SetUrl) && LegacyUrlAccepted(args) ==>
              urlValue == Some(normalizeUrl(args)) && recentUrls == Session.PushRecent(old(recentUrls), normalizeUrl(args)))
        && (c == Some(SetUrl) && args == "clear" ==> urlValue == None && recentUrls == old(recentUrls))
        && (!(c == Some(SetIp) && (LegacyIpAccepted(args, isIpAddress) || args == "clear")) ==>
              ipValue == old(ipValue) && recentIps == old(recentIps))
        && (!(c == Some(SetUrl) && (LegacyUrlAccepted(args) || args == "clear")) ==>
              urlValue == old(urlValue) && recentUrls == old(recentUrls))
    {
      var words := CommandWords(query);
      var command, args := words.0, words.1;
      var c := CommandOf(command);
      if c.None? {
        return NotInternal;
      }
      outcome := Handled;
      match c.value {
        case Exit =>
          outcome := ExitProgram;
        case SetIp =>
          SetIpCommand(args, isIpAddress);
        case SetUrl =>
          SetUrlCommand(args);
        case _ =>
      }
    }

    /**
     * The completions the session means to offer: the completer's
     * commands, categories and tools with the session's current recent
     * lists.
     */
    method Completions(text: string, word: string) returns (r: seq<Completer.Completion>)
      ensures r == Completer.FinalCompletions(
        LegacyEntries(completer.commands, completer.categories, completer.tools, recentIps, recentUrls, text, word))
    {
      r := Complete(completer.commands, completer.categories, completer.tools, recentIps, recentUrls, text, word);
    }
  }

  /** `max(len(strip_ansi_codes(item)) for item in items)` */
  function Widest(items: seq<string>): (w: nat)
    requires items != []
    ensures forall k :: 0 <= k < |items| ==> |StripAnsiCodes(items[k])| <= w
    ensures exists k :: 0 <= k < |items| && w == |StripAnsiCodes(items[k])|
  {
    if |items| == 1 then |StripAnsiCodes(items[0])|
    else
      var rest := Widest(items[1..]);
      assert forall k :: 1 <= k < |items| ==> items[k] == items[1..][k - 1];
      if |StripAnsiCodes(items[0])| >= rest then |StripAnsiCodes(items[0])| else rest
  }

  /**
   * The rows of the two-column listing: row `row` pairs item `row` on the
   * left with item `Rows(n) + row` on the right when there is one.
   */
  method ColumnRows(items: seq<string>) returns (rows: seq<(string, Option<string>)>)
    ensures |rows| == Rows(|items|)
    ensures forall row :: 0 <= row < |rows| ==>
      && rows[row].0 == items[row]
      && rows[row].1 == match ItemAt(|items|, row, 1) case Some(idx) => Some(items[idx]) case None => None
  {
    var n := Rows(|items|);
    assert |items| <= 2 * n <= |items| + 1;
    var left, right := items[..n], items[n..];
    rows := [];
    for i := 0 to n
      invariant |rows| == i
      invariant forall row :: 0 <= row < i ==> rows[row] == (left[row], if row < |right| then Some(right[row]) else None)
    {
      var cell := if i < |right| then Some(right[i]) else None;
      rows := rows + [(left[i], cell)];
    }
  }

  /**
   * `_display_in_columns`: nothing for an empty listing; otherwise the
   * column width, five more than the longest item without colour codes,
   * and the rows.
   */
  method TwoColumns(items: seq<string>) returns (colWidth: Option<nat>, rows: seq<(string, Option<string>)>)
    ensures items == [] <==> colWidth.None?
    ensures items == [] ==> rows == []
    ensures colWidth.Some? ==>
      && (forall k :: 0 <= k < |items| ==> |StripAnsiCodes(items[k])| + 5 <= colWidth.value)
      && (exists k :: 0 <= k < |items| && colWidth.value == |StripAnsiCodes(items[k])| + 5)
    ensures |rows| == Rows(|items|)
    ensures forall row :: 0 <= row < |rows| ==>
      && rows[row].0 == items[row]
      && rows[row].1 == match ItemAt(|items|, row, 1) case Some(idx) => Some(items[idx]) case None => None
  {
    if items == [] {
      return None, [];
    }
    colWidth := Some(Widest(items) + 5);
    rows := ColumnRows(items);
  }
}
