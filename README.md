# searchCommand in Dafny

A model of the matching, completion and bookkeeping core of searchCommand,
a terminal cheat-sheet browser for penetration-testing commands. The
cheat sheets are text files grouped into category directories; the
program finds a category or a tool by name, substitutes the `$IP` and
`$URL` the user has set, colours the commands, offers completions while
typing, and looks up GTFOBins techniques for a binary.

The model follows the repository file by file:

- `wrappers.dfy`, `chars.dfy`, `strings.dfy`, `sorting.dfy`: what the
  Python code takes from the language: `Option`/`Result`, character
  classes and lower-casing, `str.strip`, `str.split`, `str.join`,
  `str.replace`, substring tests, and the stable `sorted`.
- `text_utils.dfy`: `normalize_text`, `replace_variables`,
  `sanitize_name` and `strip_ansi_codes` of searchCommand/utils.py.
- `fuzzy.dfy`: the bigrams, the consecutive-streak bonus and the fuzzy
  score of commandFinder/completer.py, as functions with scores in `real`.
- `completer.dfy`: its `EnhancedCompleter` as a class: the bigram
  indices, the time-limited cache, the usage counts, the per-source
  matchers, the context scoping and the priority sort with
  de-duplication.
- `session.dfy`, `handlers.dfy`: the session state of
  commandFinder/search_command.py with its bounded recent lists, and the
  command resolution and `setip`/`seturl`/`refresh config` updates of
  commandFinder/handlers.py.
- `services.dfy`: the path check, the editor whitelist and the
  directory-to-index construction of searchCommand/services.py, over a
  directory listing given as a value.
- `ui.dfy`: the command tokenizer and colouring, the result formatter,
  the blank-line cleanup, the column layout and the prompt completers of
  searchCommand/ui.py.
- `highlight.dfy`, `gtfsearch.dfy`: the GTFOBins search in its two copies
  (searchCommand/gtfsearch.py and gtfsearch.py): input sanitising and
  query validation, the capped completer, the internal commands, the
  capped result collection, the word wrapper and the highlight
  segmentation. The two copies of `sanitize_input`, `validate_query`,
  `SecureCustomCompleter`, `_handle_internal_command` and
  `_format_text_with_wrap` are the same code (gtfsearch.py:45-70,
  157-191, 483-502, 548-581); they differ in messages, in their lists of
  dangerous patterns (a parameter here) and in the search, which the
  single file does by a scan (`Gtf.Scan*`).
- `legacy.dfy`, `legacy_app.dfy`: the older single-file program
  searchCommand.py: its `normalize_text`, the cheat-sheet parser and its
  recovery pass, the category search, the `setip`/`seturl` updates, the
  two-column listing and its substring completer. Its command tokenizer
  (searchCommand.py:384-419) and its blank-line cleanup
  (searchCommand.py:505-514) are the code of searchCommand/ui.py with `▶`
  shown as itself, and are covered by the `Ui` rows below
  (`Ui.ColorizedSpec` states the case of an arrow shown as itself).

Imperative code stays imperative: loops become methods with invariants,
proved against a function that states their result, and the objects
whose fields change (the completer, the session) are classes. Regular
expressions that the code applies to fixed patterns are written out as
predicates; the matches of the configurable highlight patterns, the
dangerous-pattern search, `ipaddress`, DNS, `urllib` normalisation, the
file system and the clock are inputs.

## Model

| member | source | states |
|---|---|---|
| TextUtils.NormalizedOrEmpty | searchCommand/utils.py:29-34 | the value is empty exactly when `normalize_text` returns None |
| TextUtils.NormalizeTextSpec | searchCommand/utils.py:29-34 | None exactly when no alphanumeric non-mark character survives lower-casing and NFD; otherwise non-empty, lower-case, only alphanumerics and whitespace, no whitespace at either end |
| TextUtils.NormalizeTextNone | searchCommand/utils.py:29-34 | the None direction of the above, both ways |
| TextUtils.NormalizeTextShape | searchCommand/utils.py:29-34 | a returned value is in normal form |
| TextUtils.NormalizeTextIdempotent | searchCommand/utils.py:29-34 | normalising a returned value returns it again |
| TextUtils.FoldLowerStable | searchCommand/utils.py:31 | every non-mark character produced by lower-casing and NFD is unchanged by both again |
| TextUtils.UrlSlashMatch | searchCommand/utils.py:55 | a match of `(https?://[^/]+)//+` has a non-empty group strictly shorter than the match, inside the text |
| TextUtils.CollapseUrlSlashes | searchCommand/utils.py:55 | the substitution never lengthens the text |
| TextUtils.CollapseWithoutMatch | searchCommand/utils.py:55 | with no match anywhere, the text is returned unchanged |
| TextUtils.ReplaceVariablesUnchanged | searchCommand/utils.py:50-56 | with neither value set, or neither placeholder present, the command comes back unchanged |
| TextUtils.ReplaceVariablesIpOnly | searchCommand/utils.py:50-52 | with only an IP set, the result is the command with every `$IP` replaced |
| TextUtils.AnsiLen | searchCommand/utils.py:59 | a recognised escape starts with ESC, has at least 3 characters and fits in the text |
| TextUtils.StripAnsiCodes | searchCommand/utils.py:58-60 | removal never lengthens the text |
| TextUtils.StripAnsiNoEscape | searchCommand/utils.py:58-60 | text without ESC is returned unchanged |
| TextUtils.SanitizeNameSpec | searchCommand/utils.py:67-71 | success yields only `[a-zA-Z0-9_-]`, 1 to 50 characters; the error is raised exactly when the filtered, stripped name has another length |
| TextUtils.SanitizeNameIdempotent | searchCommand/utils.py:67-71 | sanitising a sanitised name returns it unchanged |
| Fuzzy.NgramsSpec | commandFinder/completer.py:51-54 | for two or more characters the n-grams are exactly the two-character substrings; a shorter non-empty text is its own only n-gram; the empty text has none, and only it |
| Fuzzy.NgramLength | commandFinder/completer.py:51-54 | every n-gram has length two, or is the whole text when that is shorter |
| Fuzzy.Streak | commandFinder/completer.py:86-97 | the best streak never exceeds the number of matched query characters, which never exceeds the query length |
| Fuzzy.Bonus | commandFinder/completer.py:82-99 | the bonus lies in [0, 1] |
| Fuzzy.ConsecutiveMatchBonus | commandFinder/completer.py:82-99 | the loop computes the bonus that `Bonus` defines |
| Fuzzy.StreakIsCommonRun | commandFinder/completer.py:86-97 | the best streak is a run of consecutive query characters that occurs contiguously in the target |
| Fuzzy.BonusIsCommonRun | commandFinder/completer.py:82-99 | some run of that many consecutive query characters occurs in the target |
| Fuzzy.BonusOfPrefix | commandFinder/completer.py:82-99 | a query that begins the target gets bonus 1 |
| Fuzzy.Jaccard | commandFinder/completer.py:73-75 | the similarity lies in [0, 1] |
| Fuzzy.FuzzyScore | commandFinder/completer.py:57-79 | the score lies in [0, 1] |
| Fuzzy.PrefixRatio | commandFinder/completer.py:65 | for a proper prefix the length ratio lies strictly between 0 and 1 |
| Fuzzy.FuzzyScoreBands | commandFinder/completer.py:57-79 | 0 when either side is empty, 1 for equal texts, strictly between 0.9 and 1 for a proper prefix, at most 0.89 otherwise |
| Fuzzy.FuzzyScoreOne | commandFinder/completer.py:57-79 | the score is 1 exactly when the texts are equal and non-empty |
| Fuzzy.PrefixOutranks | commandFinder/completer.py:57-79 | any target the query begins outranks any target it does not begin |
| Completer.FuzzyScoreLaws | commandFinder/completer.py:57-79 | `_fuzzy_score` keeps the laws the engine relies on: a score in [0, 1], zero when either side is empty |
| Completer.AppendToBuckets | commandFinder/completer.py:43-44 | the item is appended to exactly the buckets of its n-grams; every other bucket is unchanged |
| Completer.BuildIndex | commandFinder/completer.py:42-48 | every bucket `index[g]` holds exactly the items having `g` among their n-grams: only such items, and every item is in the bucket of each of its n-grams (membership, not order or multiplicity) |
| Completer.IndexStep | commandFinder/completer.py:42-44 | appending one more item to its buckets extends an exact index by that item |
| Completer.IndexStepSound | commandFinder/completer.py:42-44 | after the step every bucket entry is an item having that n-gram |
| Completer.IndexStepComplete | commandFinder/completer.py:42-44 | after the step every item is in the bucket of each of its n-grams |
| Completer.Candidates | commandFinder/completer.py:177-179 | the candidates are exactly the names lying in the bucket of some query n-gram |
| Completer.UsageBonus | commandFinder/completer.py:185 | the usage bonus lies in [0, 0.1] |
| Completer.SortDescScored | commandFinder/completer.py:190 | sorting the hits by descending score keeps exactly the hits, best first |
| Completer.AppendScored | commandFinder/completer.py:249-258 | the first `limit` matches are appended in order, each with priority one minus its score: exactly `ScoredEntries(matches, limit)` |
| Completer.ScoredEntries | commandFinder/completer.py:249-250 | as many entries as matches, up to `limit`; the i-th is the i-th match with priority one minus its score (also lines 271-272) |
| Completer.TopScoredSound | commandFinder/completer.py:249-250 | every entry kept is one of the matches, with priority one minus its score |
| Completer.TopScoredAscending | commandFinder/completer.py:249-250 | matches listed by descending score give entries in ascending priority |
| Completer.TopScoredComplete | commandFinder/completer.py:249-250 | every match is kept, or all `limit` places are taken by matches scoring at least as well |
| Completer.AppendTools | commandFinder/completer.py:235-243 | the first `limit` tool matches are appended in order, each with priority one minus its score: exactly `ToolEntries(matches, limit)` |
| Completer.ToolEntries | commandFinder/completer.py:235-236 | as many entries as tool matches, up to `limit`; the i-th is the i-th tool with priority one minus its score |
| Completer.TopToolsSound | commandFinder/completer.py:235-236 | every entry kept is one of the tool matches, with priority one minus its score |
| Completer.TopToolsOrdered | commandFinder/completer.py:235-236 | tool matches by descending score, each tool once, give entries in ascending priority with distinct texts |
| Completer.TopToolsComplete | commandFinder/completer.py:235-236 | every tool match is kept, or all `limit` places are taken by tools scoring at least as well |
| Completer.DedupCounting | commandFinder/completer.py:318-324 | the `seen` loop keeps the first completion of each text and counts one use for each kept text and for no other |
| Completer.DedupSkip | commandFinder/completer.py:321 | skipping a seen text keeps the loop's account of what is still to come |
| Completer.DedupKeep | commandFinder/completer.py:321-323 | keeping a new text keeps the loop's account of what is still to come |
| Completer.DedupFrom | commandFinder/completer.py:318-323 | only texts not yet seen are kept, and each kept completion was entered |
| Completer.DedupDistinct | commandFinder/completer.py:318-323 | no text is kept twice |
| Completer.DedupCovers | commandFinder/completer.py:318-323 | every entered text not yet seen is kept |
| Completer.DedupCommandsFirst | commandFinder/completer.py:318-323 | de-duplication keeps internal commands ahead of every other kind |
| Completer.FinalCompletionsSound | commandFinder/completer.py:318-323 | the final list repeats no text, offers only entered completions and offers every entered text |
| Completer.FinalCompletionsSpec | commandFinder/completer.py:219-223 | with command priorities below all others, every internal command is listed before every category, tool and recent item (also lines 236, 250, 320) |
| Completer.FinalCompletionsTwoTiers | commandFinder/completer.py:320 | with priorities 0 and 1 only, the stable sort lists the priority-0 entries in input order, then the priority-1 ones |
| Completer.SortedCommandsFirst | commandFinder/completer.py:320 | sorting by priority is a permutation that puts every command before every other kind |
| Completer.EnhancedCompleter.IndexedItem | commandFinder/completer.py:38-48 | an exact index lists a name under an n-gram only if the name is an item having that n-gram |
| Completer.EnhancedCompleter.constructor | commandFinder/completer.py:12-35 | only tools that have a file are kept; both indices are exact; cache and usage start empty, the clock at `now` |
| Completer.EnhancedCompleter.BuildSearchIndices | commandFinder/completer.py:38-48 | both indices are exact for the tools and the categories |
| Completer.EnhancedCompleter.ParseCommandContext | commandFinder/completer.py:140-152 | below two tokens no flag is set; otherwise each flag holds exactly when the normalised first token is its command or alias, and at most one holds |
| Completer.EnhancedCompleter.ClearCacheIfNeeded | commandFinder/completer.py:155-159 | after more than 300 seconds the cache is emptied and the clock reset; otherwise nothing changes |
| Completer.EnhancedCompleter.GetCachedCompletions | commandFinder/completer.py:162-164 | within 300 seconds of the last clear, what was stored under the key is returned; after that, nothing, and the cache is cleared |
| Completer.EnhancedCompleter.CacheCompletions | commandFinder/completer.py:167-169 | below 100 keys the list is stored under the key; at 100 keys nothing is stored, not even over a key already present |
| Completer.EnhancedCompleter.ScoreTools | commandFinder/completer.py:181-188 | each candidate scoring above 0.3 is listed once, with score raw plus usage bonus and its category; nothing else is listed |
| Completer.EnhancedCompleter.SmartMatchTools | commandFinder/completer.py:172-190 | exactly the tools reached through a query bigram and scoring above 0.3, scored raw plus usage bonus, by descending score |
| Completer.EnhancedCompleter.ToolMatchesShareBigram | commandFinder/completer.py:175-179 | a candidate is an indexed tool sharing a bigram with the query; a one-character query reaches only tools normalising to that character |
| Completer.EnhancedCompleter.Hits | commandFinder/completer.py:200-207 | exactly the items scoring above 0.3, each with its score (also lines 264-269) |
| Completer.EnhancedCompleter.HitsSnoc | commandFinder/completer.py:200-207 | one more item adds its hit at the end, if it scores above 0.3 |
| Completer.EnhancedCompleter.SortedHitsSpec | commandFinder/completer.py:209 | the sorted hits are exactly the items above the floor with their scores, best first (also line 271) |
| Completer.EnhancedCompleter.EmptyQueryHitsNothing | commandFinder/completer.py:197-198 | an empty query matches nothing |
| Completer.EnhancedCompleter.SmartMatchCategories | commandFinder/completer.py:193-209 | the categories above 0.3 by descending score, ties in category order; nothing for an empty query |
| Completer.EnhancedCompleter.CommandEntries | commandFinder/completer.py:213-223 | exactly the commands whose name or alias scores above 0.3, each with priority minus the better score |
| Completer.EnhancedCompleter.AddInternalCommandCompletions | commandFinder/completer.py:212-229 | the loop yields those command entries, each with a priority in [-1, -0.3) |
| Completer.EnhancedCompleter.CommandEntriesSnoc | commandFinder/completer.py:213-223 | one more command adds its entry at the end, if it is offered |
| Completer.EnhancedCompleter.AddSmartToolCompletions | commandFinder/completer.py:232-243 | the entries are the first 15 of a ranking of the offered tools (`ToolEntriesFor`), each with priority one minus its score; so at most 15, each an offered tool with a priority in [-0.1, 0.7) |
| Completer.EnhancedCompleter.RankedToolsSound | commandFinder/completer.py:232-236 | every entry of a ranking's first 15 is an offered tool with priority one minus its score plus usage bonus |
| Completer.EnhancedCompleter.RankedToolsComplete | commandFinder/completer.py:232-236 | every offered tool is among a ranking's first 15, or all 15 places go to tools ranked at least as high |
| Completer.EnhancedCompleter.ToolEntriesSpec | commandFinder/completer.py:232-243 | the tool entries are at most 15 distinct offered tools, each at one minus its score, in ascending priority, and every offered tool is among them unless all 15 places go to tools ranked at least as high |
| Completer.EnhancedCompleter.AddSmartCategoryCompletions | commandFinder/completer.py:246-258 | the entries are exactly the first 10 categories by descending score (`CategoryEntries`), each at one minus its score; so at most 10, each a category with a priority in [0, 0.7) |
| Completer.EnhancedCompleter.AddSmartRecentCompletions | commandFinder/completer.py:261-279 | the entries are exactly the first 10 recent items scoring above 0.3, by descending score (`RecentEntries`), each at one minus its score; so at most 10, with a priority in [0, 0.7) |
| Completer.EnhancedCompleter.ScoredEntriesSpec | commandFinder/completer.py:261-279 | the first `limit` items by descending score: as many as score above 0.3, up to `limit`; each such an item at one minus its score; ascending priority; every item above 0.3 among them unless all places go to items scoring at least as well (also lines 246-258) |
| Completer.EnhancedCompleter.ScoredEntriesSound | commandFinder/completer.py:264-272 | every entry kept is an item scoring above 0.3, with priority one minus its score |
| Completer.EnhancedCompleter.ScoredEntriesComplete | commandFinder/completer.py:264-272 | every item scoring above 0.3 is kept, or all places go to items scoring at least as well |
| Completer.EnhancedCompleter.ComputeEntries | commandFinder/completer.py:297-316 | the entries are what the branch of the context builds (`EntriesFor`): outside an argument the commands, then the categories, then the tools; after `refresh` just `config` at priority 0 when the word is part of it; after `edit` the tools; after `setip` and `seturl` the recent IPs or URLs; otherwise none. Commands are prioritised below every other kind and every entry is in the scope the first token selects |
| Completer.EnhancedCompleter.PlainEntriesScope | commandFinder/completer.py:301-304 | outside an argument, commands then categories then tools keep the kind order and stay in scope |
| Completer.EnhancedCompleter.EntriesForScope | commandFinder/completer.py:297-316 | whatever branch built the entries, commands are prioritised below every other kind and every entry is in scope |
| Completer.EnhancedCompleter.FreshCompletionsSpec | commandFinder/completer.py:318-323 | the list built from a context's entries repeats no text, lists commands first, stays in scope, and offers every text entered |
| Completer.EnhancedCompleter.FreshCompletions | commandFinder/completer.py:297-324 | the result is `FinalCompletions` of the entries the context builds: sorted by priority, first of each text. It repeats no text, lists commands first, stays in scope, and raises the usage count of exactly its texts by one |
| Completer.EnhancedCompleter.FreshAndCache | commandFinder/completer.py:297-326 | the fresh completions of the context, counted, and stored under the key exactly when fewer than 100 keys are cached |
| Completer.EnhancedCompleter.GetCompletions | commandFinder/completer.py:282-329 | a word normalising to nothing yields nothing and changes nothing. Otherwise the clock is reset and the cache dropped when more than 300 seconds have passed. A non-empty list still cached for `text:word` is replayed with cache and counts unchanged. Else the result is `FinalCompletions` of the entries the context builds, each text counted once, and the cache gains it under the key exactly when fewer than 100 keys remain |
| Completer.FilterSeq | commandFinder/completer.py:16 | keeps exactly the elements satisfying the test |
| Session.PushRecentSpec | commandFinder/handlers.py:134-137 | a recent list stays at most five long and free of repeats; a value already present leaves it unchanged; a new value becomes the newest entry, with only the oldest dropped when five were held (also lines 207-210) |
| Handlers.NameOf | commandFinder/handlers.py:40-55 | every command is listed in the command table under its own name |
| Handlers.SplitFirstOfWord | commandFinder/handlers.py:64-66 | `split(maxsplit=1)` of a word followed by whitespace-led text gives the word and the text without surrounding whitespace |
| Handlers.ResolveWord | commandFinder/handlers.py:63-70 | outside the delete prefixes, a word and its arguments resolve through the word's alias, else through its command name, with the arguments stripped and their case kept |
| Handlers.ResolvePrecedence | commandFinder/handlers.py:57-62 | a lower-cased query beginning with `delete category` or `dc` is that command without arguments, before any lookup; likewise `delete tool`/`dt` |
| Handlers.DeletePrefixesExclusive | commandFinder/handlers.py:57-62 | the two delete prefixes never both apply, so the order of the tests decides nothing |
| Handlers.SetIpCommand | commandFinder/handlers.py:91-139 | an accepted IP or domain becomes `$IP` and is remembered among the recent IPs; `clear` forgets `$IP` and keeps the list; anything too long, empty, with a shell metacharacter or not an address changes nothing; no other field changes |
| Handlers.SetUrlCommand | commandFinder/handlers.py:140-214 | a URL passing every check becomes `$URL`, and is remembered unless its SSL check fails on a public host; `clear` forgets `$URL`; every rejection changes nothing |
| Handlers.RefreshCommand | commandFinder/handlers.py:215-230 | `refresh config` forgets both values and empties both recent lists, leaving the maps; any other argument leaves values and lists and reloads the four maps from the directory tree as `parse_directory_structure` does, changing nothing when the root is missing |
| Handlers.HandleInternalCommand | commandFinder/handlers.py:21-230 | an unresolved query is not internal and changes nothing; each resolved command has the outcome and the state change of its branch; the cheat-sheet maps change only through `refresh` with an argument other than `config`, which reloads them from the directory tree |
| Session.SearchCommand.constructor | commandFinder/search_command.py:22-47 | the session starts with no IP or URL set, empty recent lists and empty category and tool tables |
| Services.SanitizeFilePath | searchCommand/services.py:42-49 | accepted exactly when the absolute path starts with the absolute root and a separator and is not a link; the result is the absolute path; a link is reported only after the prefix test passed |
| Services.SanitizeRejectsRoot | searchCommand/services.py:45-46 | the root itself, and anything no longer than it, is refused as an invalid path |
| Services.SanitizeAcceptsInside | searchCommand/services.py:42-49 | a path below the root that is not a link comes back as its absolute form |
| Services.Basename | searchCommand/services.py:73 | the basename holds no `/`, is a suffix of the path, and is preceded by `/` when shorter than it |
| Services.GetSafeEditorAsWritten | searchCommand/services.py:66-77 | fails exactly when the basename of `$EDITOR` is blank; otherwise any path returned is whitelisted and exists |
| Services.BlankEditorRaises | searchCommand/services.py:73 | `EDITOR=""` and `EDITOR=/usr/bin/` make `split()[0]` raise |
| Services.GetSafeEditor | searchCommand/services.py:66-77 | never fails; whatever it returns is `/bin/nano`, `/usr/bin/vim` or `/usr/bin/vi` and exists |
| Services.EditorPath | searchCommand/services.py:67-71 | every whitelisted name maps to one of the three fixed paths |
| Services.GetSafeEditorAgrees | searchCommand/services.py:66-77 | wherever the original returns, the corrected lookup returns the same; where it raises, the corrected one returns None |
| Services.GetSafeEditorSelects | searchCommand/services.py:72-76 | a whitelisted name under any directory, followed by arguments, selects its path exactly when that path exists |
| Services.GetSafeEditorBare | searchCommand/services.py:72-76 | a bare whitelisted name selects its path exactly when that path exists |
| Services.GetSafeEditorDefault | searchCommand/services.py:72 | with `$EDITOR` unset, nano is chosen exactly when `/bin/nano` exists |
| Services.ToolName | searchCommand/services.py:126-127 | a `.txt` file names the tool its name minus the suffix; any other file names none |
| Services.ScanFiles | searchCommand/services.py:125-138 | the inner loop leaves the category lists alone |
| Services.ScanFilesPartial | searchCommand/services.py:125-138 | the inner loop keeps the maps consistent, halfway through the category |
| Services.PartialStep | searchCommand/services.py:134-138 | recording one fresh tool keeps the maps consistent |
| Services.FinishCategory | searchCommand/services.py:140-141 | storing the category's tool list makes the maps consistent again |
| Services.ScanCategoriesConsistent | searchCommand/services.py:119-141 | the scan keeps the maps consistent: a tool's category lists it, a listed tool maps back, its file lies in that category's directory, and no list repeats a tool |
| Services.ScanCategoriesKeys | searchCommand/services.py:119-140 | the new categories are exactly the directories among the entries, empty ones included |
| Services.ScanFilesCovers | searchCommand/services.py:125-138 | the inner loop forgets no tool and records every `.txt` name it meets |
| Services.ScanCategoriesCovers | searchCommand/services.py:119-141 | every `.txt` file of every category directory names a tool that ends up in some category |
| Services.SortedSameNames | searchCommand/services.py:119-125 | sorting a listing keeps exactly its names |
| Services.LoadTablesErrors | searchCommand/services.py:80-81 | FileNotFoundError exactly when the root is missing; ValueError exactly when the root holds no directory (also lines 147-148) |
| Services.LoadTablesConsistent | searchCommand/services.py:119-141 | loaded tables are consistent |
| Services.LoadTablesCategories | searchCommand/services.py:119-140 | the categories are exactly the directories under the root |
| Services.LoadTablesCovers | searchCommand/services.py:125-138 | every `.txt` file of a category names a loaded tool |
| Services.LoadedToolHasOneCategory | searchCommand/services.py:128-135 | once loading succeeded, a tool listed under two categories is listed under one |
| Services.ScanToolFiles | searchCommand/services.py:125-138 | the loop over one category's files updates the maps and the seen set as the function `ScanFiles` does |
| Services.ParseDirectoryStructure | searchCommand/services.py:79-148 | with the root missing nothing changes and FileNotFoundError is reported; otherwise the four maps are reset and refilled as `LoadTables` says, `tools_by_category` equal to `categories`, with ValueError when no category was found |
| Ui.FlushOk | searchCommand/ui.py:554-584 | flushing the part being built keeps the parts spelling the line read so far |
| Ui.StepOk | searchCommand/ui.py:550-581 | one character of the loop keeps the parts spelling the line read so far, each part well formed |
| Ui.TokenizeFromSpec | searchCommand/ui.py:550-584 | from any position, the parts followed by the comment spell the line; every part is non-empty and whitespace outside quotes is a part of its own; the comment is empty or starts with `#` |
| Ui.TokenizeSpec | searchCommand/ui.py:549-584 | `''.join(parts) + comment_part == line`, with well-formed parts and a comment that is empty or starts with `#` |
| Ui.SplitCommand | searchCommand/ui.py:541-584 | the splitting loop computes the tokenizer's parts and comment |
| Ui.SwapArrows | searchCommand/ui.py:589-591 | every `▶` is replaced by the shown arrow and every other character is kept |
| Ui.SwapArrowsConcat | searchCommand/ui.py:589-591 | replacing arrows part by part is replacing them in the whole text |
| Ui.ColorizeCommand | searchCommand/ui.py:541-613 | one segment per part, arrows replaced, styled by the colour rules with at most one segment shown as the command; the segments and the comment read as the line with its arrows replaced |
| Ui.MarkArrows | searchCommand/ui.py:589-591 | each part gets its arrows replaced, in place |
| Ui.StylesOkAppend | searchCommand/ui.py:593-608 | styling one more part by the rules keeps every segment styled by the rules and tracks whether the command was seen |
| Ui.AtMostOneCommand | searchCommand/ui.py:598-600 | at most one part is shown as the command |
| Ui.StyleParts | searchCommand/ui.py:587-608 | the styling loop keeps every part's text, styles it by the rules, and the segments spell the line with arrows replaced |
| Ui.ColorizedSpec | searchCommand/ui.py:541-613 | colouring changes only arrows outside the comment: same length, whitespace in the same places, and the line itself when `▶` is shown as is |
| Ui.ColorizedNotBlank | searchCommand/ui.py:541-613 | a line with a non-blank character colours to a non-blank line |
| Ui.StarLineIsStrip | searchCommand/ui.py:642 | a line's first non-space character is `*` exactly when its stripped form starts with `*` |
| Ui.LStripChar | searchCommand/ui.py:644 | the result does not start with the stripped character |
| Ui.BlockEnd | searchCommand/ui.py:650-657 | the block ends at or after its start and within the results |
| Ui.BlockLines | searchCommand/ui.py:650-657 | a block contributes at most one line per result line |
| Ui.LineOutput | searchCommand/ui.py:622-665 | the loop always advances, and never past the end |
| Ui.FormatFromStep | searchCommand/ui.py:622-665 | the formatted results from a line are its output followed by the results from where it leaves off |
| Ui.FormatResults | searchCommand/ui.py:618-666 | the loop over the result lines computes `FormatFrom` from the first line |
| Ui.FormatNext | searchCommand/ui.py:622-665 | one pass of the loop appends the line's output and keeps the loop's account of what is still to come |
| Ui.FormatLine | searchCommand/ui.py:623-665 | the loop body's branches compute the line's output and where the loop goes on |
| Ui.CommandBlock | searchCommand/ui.py:649-657 | the inner loop stops at the first line ending the block, having coloured its non-blank lines |
| Ui.HeadersStart | searchCommand/ui.py:637-645 | every header starts with `[+] ═` |
| Ui.BlockLinesOk | searchCommand/ui.py:655-656 | every block line is the coloured rendering of a non-blank result line |
| Ui.LineOutputOk | searchCommand/ui.py:622-665 | every line produced for a result line is a separator, a header or the coloured rendering of a non-blank result line |
| Ui.ToolLineOk | searchCommand/ui.py:627-641 | the same for a `[*] tool` line |
| Ui.SubtitleLineOk | searchCommand/ui.py:642-646 | the same for a `*` line |
| Ui.CommandLineOk | searchCommand/ui.py:647-660 | the same for a `▶` line and its block |
| Ui.FormatFromOk | searchCommand/ui.py:618-666 | every formatted line is a blank separator, a header, or the coloured rendering of a non-blank result line |
| Ui.OutLineBlank | searchCommand/ui.py:632 | the blank formatted lines are exactly the separators (also lines 643, 659, 664) |
| Ui.BlankLineSkipped | searchCommand/ui.py:661-665 | a blank result line contributes nothing |
| Ui.BlankNotStar | searchCommand/ui.py:642 | a blank line is not a subtitle line |
| Ui.BlankHasNoText | searchCommand/ui.py:624-627 | a blank line contains no marker |
| Ui.FormatPlain | searchCommand/ui.py:661-665 | on lines without markers the formatter makes each non-blank line its coloured self and a separator, and skips blank ones |
| Ui.CleanBlankLines | searchCommand/ui.py:677-692 | the flag loop computes the cleanup `Squeeze` |
| Ui.SqueezeSpec | searchCommand/ui.py:677-692 | the cleaned lines keep every non-blank line in order, start with a non-blank line, never hold two blank lines in a row, and end as the input ends |
| Ui.SqueezeKeeps | searchCommand/ui.py:680-692 | the non-blank lines are kept, in order |
| Ui.SqueezeShape | searchCommand/ui.py:680-692 | no leading blank line, no two blank lines in a row |
| Ui.MaxItemLength | searchCommand/ui.py:708 | 10 for no items; otherwise the longest item without escape codes plus 6 |
| Ui.CeilDiv | searchCommand/ui.py:733 | `(n + d - 1) // d` rows of `d` hold `n` items, and one row fewer does not |
| Ui.ColumnLayoutAsWritten | searchCommand/ui.py:729-733 | fails exactly when there are no items; otherwise between 1 and `total` columns, at most 8 for categories |
| Ui.EmptyListingRaises | searchCommand/ui.py:730-732 | listing no items raises ZeroDivisionError whatever the terminal |
| Ui.ColumnLayout | searchCommand/ui.py:729-733 | at least one column, at most 8 for categories and at most `total` when there are items; columns at least 4 wider than the longest item; `rows = ceil(total / columns)` |
| Ui.ColumnLayoutAgrees | searchCommand/ui.py:729-733 | both layouts agree whenever the one as written does not fail |
| Ui.DivModUnique | searchCommand/ui.py:747-748 | `idx == col * rows + row` with `row < rows` gives `col == idx // rows` and `row == idx % rows` |
| Ui.CellStep | searchCommand/ui.py:746-750 | placing item `idx` changes exactly its own cell |
| Ui.FillMatrix | searchCommand/ui.py:742-750 | a `rows` by `num_columns` matrix holding each item, numbered from 1, in row `idx % rows` of column `idx // rows` when that cell exists, and nothing else |
| Ui.CellAfterSpec | searchCommand/ui.py:742-750 | a cell is filled exactly when its column-major position is an item's, and then holds that item and its number |
| Ui.EveryItemPlaced | searchCommand/ui.py:747-750 | with as many cells as items, every item's column exists, so each item is placed in exactly one cell |
| Ui.MatchItemsAsWrittenFails | searchCommand/ui.py:256 | the loop fails exactly when some item normalises to None (also lines 329, 402) |
| Ui.PrefixCompletionsAsWritten | searchCommand/ui.py:245-262 | the prompt completers as written fail exactly when some item normalises to None (also lines 318-335, 391-408) |
| Ui.MatchItemsSpec | searchCommand/ui.py:255-262 | exactly the items whose normal form starts with the normalised word, in input order |
| Ui.PrefixCompletionsSpec | searchCommand/ui.py:245-262 | `q` leads exactly when the normalised word is a prefix of it; then come exactly the matching items, in input order (also lines 318-335, 391-408) |
| Ui.MatchItemsAgree | searchCommand/ui.py:255-262 | both item loops agree wherever the one as written does not fail |
| Ui.PrefixCompletionsAgree | searchCommand/ui.py:245-262 | both completers agree wherever the one as written does not fail |
| Ui.DashCategoryRaises | searchCommand/ui.py:245-262 | `-` passes `sanitize_name`, yet with a category named `-` the completer as written fails on every word |
| Highlight.CoveredPerm | searchCommand/gtfsearch.py:1186-1200 | reordering the matches does not change which positions they cover |
| Highlight.CoveredSnoc | searchCommand/gtfsearch.py:1190-1204 | appending an interval adds exactly its positions to the cover |
| Highlight.SameCoverSnoc | searchCommand/gtfsearch.py:1190-1204 | appending the same interval to two lists with the same cover keeps their cover equal |
| Highlight.ExtendCover | searchCommand/gtfsearch.py:1192-1206 | stretching the last merged interval over an overlapping or touching match covers what appending the match would |
| Highlight.SortByStartSpec | searchCommand/gtfsearch.py:1186-1200 | sorting by start orders the starts, keeps every interval and keeps the cover |
| Highlight.MergeStepKeeps | searchCommand/gtfsearch.py:1188-1206 | one pass of the merge loop keeps the merged intervals within the text, ascending and apart, covering exactly the matches read so far |
| Highlight.MergeSpans | searchCommand/gtfsearch.py:1186-1206 | the merged intervals lie within the text, each ends strictly before the next begins, and they cover exactly the positions the matches cover |
| Highlight.MergeSorted | searchCommand/gtfsearch.py:1187-1206 | the same for matches already sorted by start, updating the last merged interval in place |
| Highlight.InsertPoint | searchCommand/gtfsearch.py:1209-1215 | adding a point keeps the list strictly ascending and adds exactly that point |
| Highlight.SortedDistinct | searchCommand/gtfsearch.py:1215 | `sorted(set(ps))` is strictly ascending and holds exactly the points of `ps` |
| Highlight.EndPoints | searchCommand/gtfsearch.py:1210-1213 | holds the start and end of every interval and nothing else |
| Highlight.BoundariesSpec | searchCommand/gtfsearch.py:1209-1215 | the cut points of a non-empty text run strictly ascending from 0 to its length and hold every end of every merged interval |
| Highlight.EndPointsBelow | searchCommand/gtfsearch.py:1210-1213 | no end of an interval within the text lies past it |
| Highlight.AscendingEnds | searchCommand/gtfsearch.py:1209-1215 | an ascending list holding its least and greatest values starts with the one and ends with the other |
| Highlight.AscendingIndex | searchCommand/gtfsearch.py:1215 | in the sorted points, order of values is order of positions |
| Highlight.Uniform | searchCommand/gtfsearch.py:1218-1226 | between two neighbouring cut points an interval covers every position or none |
| Highlight.AppendStyled | searchCommand/gtfsearch.py:1236 | appending a piece styled as its characters call for extends the correctly styled prefix by the piece |
| Highlight.PieceUniform | searchCommand/gtfsearch.py:1218-1233 | every character of a piece calls for the style of its first character |
| Highlight.StyleOfSameCover | searchCommand/gtfsearch.py:1225-1233 | intervals with the same cover call for the same style |
| Highlight.StyleTextWithHighlights | searchCommand/gtfsearch.py:1176-1238 | empty text gives nothing; otherwise the pieces are non-empty, spell the text, and every character has the highlight style exactly when a highlight match covers it and no no-colour match does |
| Highlight.CutStep | searchCommand/gtfsearch.py:1218-1236 | the piece between neighbouring cut points is non-empty and extends the styled text by exactly that stretch |
| Highlight.CutAtPoints | searchCommand/gtfsearch.py:1218-1238 | the pieces spell the text, each non-empty and styled as its first character calls for |
| Gtf.Take | searchCommand/gtfsearch.py:564 | at most `n` elements, a prefix of the list, all of it when it is short enough |
| Gtf.TakeConcat | searchCommand/gtfsearch.py:627-631 | cutting a list early and again after appending is cutting once |
| Gtf.TakeFull | searchCommand/gtfsearch.py:627-631 | once the cap is reached, nothing appended is kept |
| Gtf.CollapseSpace | searchCommand/gtfsearch.py:565 | collapsing whitespace runs never lengthens the text |
| Gtf.CollapseSpec | searchCommand/gtfsearch.py:565 | the collapsed text is single-spaced, empty exactly when the input is, starts with a space exactly when the input does, and its other characters come from the input |
| Gtf.StripSingleSpaced | searchCommand/gtfsearch.py:565 | stripping keeps the text single-spaced |
| Gtf.SanitizeSpec | searchCommand/gtfsearch.py:560-566 | nothing for a non-string; otherwise at most 100 characters, no leading or trailing whitespace, every whitespace a single space between words, every character printable |
| Gtf.CollapseFixed | searchCommand/gtfsearch.py:565 | a single-spaced text collapses to itself |
| Gtf.SanitizeIdempotent | searchCommand/gtfsearch.py:560-566 | sanitising a sanitised input changes nothing |
| Gtf.FirstFoundSpec | searchCommand/gtfsearch.py:574-576 | no pattern found exactly when none matches; otherwise the first one that matches |
| Gtf.ValidateQuerySpec | searchCommand/gtfsearch.py:569-579 | valid exactly when non-empty, at most 100 characters, no dangerous pattern found and every character allowed; empty, too long, the first dangerous pattern and bad characters are reported in that order of precedence |
| Gtf.SanitizedNotTooLong | searchCommand/gtfsearch.py:560-573 | a sanitised input is never rejected as too long |
| Gtf.DispatchSpec | searchCommand/gtfsearch.py:888-906 | help, h, list binaries, lt and lb are handled, exit and q leave, anything else (and anything over 100 characters) is a query |
| Gtf.BinaryHits | searchCommand/gtfsearch.py:642-651 | every binary offered holds the text in its lower-case name |
| Gtf.NonEmptyNames | searchCommand/gtfsearch.py:620 | exactly the non-empty binary names |
| Gtf.SecureCompletionsSpec | searchCommand/gtfsearch.py:623-651 | at most 50 completions: the matching pairs first and in order, then matching binaries in order, each holding the text; all of them when fewer than 50 match |
| Gtf.TakeOfAppend | searchCommand/gtfsearch.py:627-651 | the first `n` of two lists are a prefix of the first, then a prefix of the second |
| Gtf.PairHitsStep | searchCommand/gtfsearch.py:629-640 | the loop over the pairs adds the display of the pair when it matches |
| Gtf.BinaryHitsStep | searchCommand/gtfsearch.py:642-651 | the loop over the binaries adds the binary when it matches |
| Gtf.SecureCompleter.constructor | searchCommand/gtfsearch.py:618-620 | keeps the command pairs and the non-empty binary names |
| Gtf.SecureCompleter.GetCompletions | searchCommand/gtfsearch.py:623-651 | the completions for the lower-cased text before the cursor |
| Gtf.CollectPairs | searchCommand/gtfsearch.py:629-640 | the loop over the pairs yields the first 50 matching displays |
| Gtf.CollectBinaries | searchCommand/gtfsearch.py:642-651 | the loop over the binaries continues the completions up to the cap |
| Gtf.CapStep | searchCommand/gtfsearch.py:925-935 | appending below the cap keeps the account of what is still to come; reaching it gives the capped list |
| Gtf.IndexBySpec | searchCommand/gtfsearch.py:740 | a key is present exactly when some entry has it, and maps to the last entry with it |
| Gtf.IndexByKeys | searchCommand/gtfsearch.py:740 | a key is present exactly when some entry has it |
| Gtf.IndexByLast | searchCommand/gtfsearch.py:740 | a present key maps to the last entry with it |
| Gtf.IndexByNameSpec | searchCommand/gtfsearch.py:740 | every lower-case name maps to the last entry with that name |
| Gtf.FilteredFunctions | searchCommand/gtfsearch.py:923-924 | exactly the functions the filter names, or all of them without a filter |
| Gtf.ExampleHits | searchCommand/gtfsearch.py:933-944 | one result per example, in order |
| Gtf.FunctionsHitsSpec | searchCommand/gtfsearch.py:925-952 | every result comes from one of the functions, every example of every function is a result, and so is the bare result of a function with no examples and a non-blank description |
| Gtf.SearchResultsSpec | searchCommand/gtfsearch.py:908-954 | nothing for a query shorter than 2 or not a binary's name; otherwise at most 100 results, each from a function of that entry the filter names; below the cap every example of every such function is a result |
| Gtf.GtfSearch.constructor | searchCommand/gtfsearch.py:733-740 | keeps the lower-cased filter and the data and builds the name index |
| Gtf.GtfSearch.SearchSecure | searchCommand/gtfsearch.py:908-954 | the search loop computes the capped results |
| Gtf.FunctionsHitsStep | searchCommand/gtfsearch.py:925-952 | the loop over the functions adds one function's results |
| Gtf.CollectFunctionHits | searchCommand/gtfsearch.py:919-952 | the loop over the functions yields the first 100 results |
| Gtf.AppendFunctionHits | searchCommand/gtfsearch.py:926-952 | one function's examples, or its bare result, appended up to the cap |
| Gtf.ExampleStep | searchCommand/gtfsearch.py:933-944 | the example loop adds one result per example |
| Gtf.AppendExampleHits | searchCommand/gtfsearch.py:933-944 | the example loop appends one result per example up to the cap |
| Gtf.ScanExampleHits | gtfsearch.py:528-540 | one result per example, with its code and its description |
| Gtf.ScanHitsStep | gtfsearch.py:514-540 | the entry loop adds the results of an entry whose lower-case name is the query |
| Gtf.ScanFunctionsHitsSpec | gtfsearch.py:523-540 | every result comes from an example of one of the functions |
| Gtf.ScanHitsSpec | gtfsearch.py:514-540 | every result comes from an example of a function of an entry whose lower-case name is the query |
| Gtf.ScanFunctionsHitsComplete | gtfsearch.py:523-540 | every example of every function listed contributes its result |
| Gtf.ScanHitsComplete | gtfsearch.py:514-540 | every example of every function of an entry whose lower-case name is the query contributes its result |
| Gtf.ScanResultsSpec | gtfsearch.py:504-541 | nothing for a query shorter than 2. Otherwise at most 100 results, each from an example of a function of an entry named as the query; exactly 100 when there are that many; and below the cap every example of every function of such an entry is among them |
| Gtf.ScanSearch | gtfsearch.py:504-541 | the entry loop computes the capped results |
| Gtf.ScanFunctionsHitsStep | gtfsearch.py:523-540 | the function loop adds one function's examples |
| Gtf.ScanFunctions | gtfsearch.py:523-540 | the function loop continues the results up to the cap |
| Gtf.ScanExampleStep | gtfsearch.py:528-540 | the example loop adds one result per example |
| Gtf.ScanExamples | gtfsearch.py:528-540 | the example loop continues the results up to the cap |
| Gtf.JoinSnoc | searchCommand/gtfsearch.py:1166-1172 | joining one more word adds the separator and the word |
| Gtf.JoinLines | searchCommand/gtfsearch.py:1166-1172 | each emitted line is its words joined by a space |
| Gtf.GreedyFlatten | searchCommand/gtfsearch.py:1158-1172 | the emitted lines hold the words in order, none lost or added |
| Gtf.GreedyLines | searchCommand/gtfsearch.py:1158-1172 | every emitted line is non-empty, made of words, and within the limit when it has two or more words |
| Gtf.LinesWordsOfJoined | searchCommand/gtfsearch.py:1166-1172 | splitting the joined lines gives back their words |
| Gtf.FormatLineSpec | searchCommand/gtfsearch.py:1148-1172 | a blank line gives one empty line, a short one its stripped self, and a long one lines whose words are the line's words in order, each of two or more words within the limit |
| Gtf.GreedyStep | searchCommand/gtfsearch.py:1161-1169 | a word joins the current line when the count allows, otherwise the current line is emitted first |
| Gtf.WrapNext | searchCommand/gtfsearch.py:1161-1169 | one pass of the word loop keeps the account of the lines still to come |
| Gtf.WrapWords | searchCommand/gtfsearch.py:1158-1172 | the word loop computes the greedy lines |
| Gtf.FormatTextWithWrap | searchCommand/gtfsearch.py:1141-1174 | the line loop computes the wrapped text |
| Gtf.FormatLinesSnoc | searchCommand/gtfsearch.py:1148-1172 | one more input line adds its output lines |
| Gtf.FormatOneLine | searchCommand/gtfsearch.py:1149-1172 | the body of the line loop: blank, short or wrapped |
| Legacy.NormalizeLegacySpec | searchCommand.py:56-60 | the result is lower case, fully decomposed and free of combining marks, and normalising it again changes nothing |
| Legacy.FilterTwice | searchCommand.py:56-60 | filtering by a property and then by a stronger one is filtering by the stronger one |
| Legacy.NormalizeLegacyRefined | searchCommand.py:56-60 | the package's `normalize_text` is this one, then keeping letters, digits and whitespace and stripping, with None for an empty result |
| Legacy.Put | searchCommand.py:195-209 | storing a category leaves at least one category |
| Legacy.PutEntries | searchCommand.py:195-209 | storing adds only the stored entry |
| Legacy.PutGet | searchCommand.py:195-209 | after storing, the key maps to its new content and every other key is unchanged |
| Legacy.PutKeys | searchCommand.py:195-209 | storing adds exactly the stored key |
| Legacy.PutDistinct | searchCommand.py:195-209 | storing keeps every key in the dictionary once |
| Legacy.HasPrefixIsStartsWith | searchCommand.py:188-192 | the prefix test used by the header pattern is `startswith` |
| Legacy.GroupLenSpec | searchCommand.py:188 | the lazy group stops before the first place where the closing text follows, without crossing a newline |
| Legacy.StartsWithAfter | searchCommand.py:188-192 | a text that continues with `c` after its first `n` characters starts with those characters and `c` |
| Legacy.HeaderNameSpec | searchCommand.py:188-192 | a header line starts with the opening text, then the name and the closing text, and the name holds no newline |
| Legacy.GroupOfName | searchCommand.py:188 | the lazy group reads a name without `]` or newline back in full |
| Legacy.HeaderRoundTrip | searchCommand.py:188-197 | the header line written for a name without `]` or newline parses back to that name |
| Legacy.HeaderNotBlank | searchCommand.py:192-200 | a header line is not blank |
| Legacy.Headers | searchCommand.py:191-192 | one header reading per line |
| Legacy.HeadersAt | searchCommand.py:191-192 | each reading is the match of the stripped line against the header pattern |
| Legacy.Allowed | searchCommand.py:200 | one verdict per line |
| Legacy.AllowedAt | searchCommand.py:200 | each verdict says whether the line may stand outside a category: blank, a tool line or a comment |
| Legacy.StoreSection | searchCommand.py:194-209 | storing the open category keeps every stored category a section of the file |
| Legacy.OpenStep | searchCommand.py:191-201 | one line keeps the open category the section read so far |
| Legacy.OpenAtHeader | searchCommand.py:196-197 | a header opens its own section with itself as first line |
| Legacy.OpenContinues | searchCommand.py:198-199 | inside a category a non-header line extends its section |
| Legacy.RunExtends | searchCommand.py:198-199 | a run of lines extended by the next one is the longer run |
| Legacy.NoHeaderExtends | searchCommand.py:198-199 | a non-header line keeps the section free of later headers |
| Legacy.OpenHolds | searchCommand.py:191-201 | after any number of lines the open category holds its section so far |
| Legacy.SectionsHold | searchCommand.py:191-201 | after any number of lines every stored category is a section of the file |
| Legacy.KeysHold | searchCommand.py:191-201 | the stored names are distinct, and every non-empty header read so far is stored or open |
| Legacy.DistinctHolds | searchCommand.py:191-201 | the stored names stay distinct |
| Legacy.OpenHasContent | searchCommand.py:191-201 | an open category always has content |
| Legacy.StepKeys | searchCommand.py:191-201 | one line loses no stored or open name, and a header opens its own |
| Legacy.KeysPresent | searchCommand.py:191-201 | every non-empty header read so far is stored or open |
| Legacy.MainSectionsSpec | searchCommand.py:182-209 | every stored category has a distinct name and is a section of the file, from its header up to the next; every non-empty header is stored |
| Legacy.ParseValidPrefix | searchCommand.py:191-201 | the open category is the last header's, and the format is valid exactly when every line outside a category is allowed there |
| Legacy.MarkerNotBlank | searchCommand.py:222-230 | a marker line is not blank |
| Legacy.RecoveredName | searchCommand.py:227 | the recovered category name is never empty |
| Legacy.RecoverInvHolds | searchCommand.py:216-231 | after any number of lines the recovery pass keeps distinct non-empty names, non-empty sections made of file lines, and the current section well formed |
| Legacy.RecoverSpec | searchCommand.py:216-233 | every recovered section has a distinct non-empty name, is non-empty, is made of file lines and holds no marker or blank line after its first; nothing is recovered exactly when every line is blank |
| Legacy.ParseFileFails | searchCommand.py:182-214 | the parse fails with ValueError exactly when every line is blank |
| Legacy.MainLoop | searchCommand.py:183-209 | the main loop computes the main pass |
| Legacy.ValidateAndParse | searchCommand.py:182-214 | the main pass when valid and non-empty, otherwise the recovery pass, failing when it finds nothing |
| Legacy.RecoverParse | searchCommand.py:216-233 | the recovery loop computes the recovered sections |
| Legacy.LegacyReplaceAgrees | searchCommand.py:255-263 | agrees with the package's substitution once the URL is normalised; without placeholders or values the command is unchanged |
| Legacy.MatchFlags | searchCommand.py:271-281 | one flag per category |
| Legacy.MatchFlagsAt | searchCommand.py:271-281 | each flag is the exact or the partial test on that category |
| Legacy.FirstSetSpec | searchCommand.py:280-281 | the first flagged position, or none exactly when nothing is flagged |
| Legacy.FirstSetLater | searchCommand.py:280-281 | a later first-match search finds the same position |
| Legacy.PickCategorySpec | searchCommand.py:265-292 | an exact match beats every partial one, the first partial match counts only without an exact one, and nothing is picked exactly when no category matches |
| Legacy.GetAt | searchCommand.py:277-286 | with distinct keys each stored category is found under its own name |
| Legacy.CommandOfSpec | searchCommand.py:572-590 | for a single word, each command is reached exactly by its name or its alias; the listings only by `lt` and `lc` |
| Legacy.LowerBlank | searchCommand.py:573 | lower-casing keeps a blank query blank and a non-blank one non-blank |
| Legacy.ColumnsPlaceEachOnce | searchCommand.py:542-562 | every item is shown in exactly one cell within the listing, each cell shows its own item, and only the last right-hand cell can be empty, when the count is odd |
| Legacy.ItemInItsCell | searchCommand.py:542-562 | each item appears in its cell |
| Legacy.CellHoldsItsItem | searchCommand.py:542-562 | a cell shows only the item whose cell it is |
| Legacy.EmptyCellIsLast | searchCommand.py:542-562 | an empty right-hand cell is the last one, for an odd count |
| Legacy.RowsHalf | searchCommand.py:542 | `(n + 1) // 2` rows hold `n` items two to a row |
| LegacyApp.Names | searchCommand.py:132 | the category names, in order |
| LegacyApp.ScopesExclusive | searchCommand.py:873-875 | the text is never an argument of both `setip` and `seturl` |
| LegacyApp.OfferedSpec | searchCommand.py:877-940 | every entry offered is a given name of that kind holding the word, with priority 0 for an exact match (always for commands) and 1 otherwise; every name holding the word is offered |
| LegacyApp.EntriesOfSound | searchCommand.py:869-940 | every entry holds the word with priority 0 or 1; in the argument of `setip` or `seturl` only recent values of that command are offered, elsewhere only commands, categories and tools |
| LegacyApp.EntriesOfCover | searchCommand.py:869-940 | every command, category, tool or recent value of the scope that holds the word is offered |
| LegacyApp.LegacyCompletionsSpec | searchCommand.py:869-945 | the completions are distinct, each holds the word, they come from the scope's sources only, and every text offered survives the deduplication |
| LegacyApp.LegacyEntriesCover | searchCommand.py:869-940 | every name of the scope holding the normalised word is among the entries |
| LegacyApp.LegacyCompletionsOrder | searchCommand.py:942-945 | the completions are the exact matches first, then the rest, each in input order, first occurrence kept |
| LegacyApp.RecentNeverOffered | searchCommand.py:131-136 | with the empty recent lists the completer keeps, nothing is ever offered for the argument of `setip` or `seturl` |
| LegacyApp.AppendOffered | searchCommand.py:877-940 | one source loop appends exactly its offered entries |
| LegacyApp.DedupLoop | searchCommand.py:942-945 | the `seen` loop yields the first occurrence of each text |
| LegacyApp.CollectEntries | searchCommand.py:869-940 | the five source loops build the entries |
| LegacyApp.Complete | searchCommand.py:869-945 | `get_completions` computes the deduplicated, priority-sorted completions |
| LegacyApp.EnhancedCompleter.constructor | searchCommand.py:835-842 | keeps the categories, tools and recent lists, with the seven internal commands |
| LegacyApp.EnhancedCompleter.GetCompletions | searchCommand.py:869-945 | the completions from the completer's own lists |
| LegacyApp.FindCategory | searchCommand.py:269-292 | the category loop picks the exact match, else the first partial one, else none |
| LegacyApp.SearchCommand.constructor | searchCommand.py:63-139 | a session with the given categories and tools, nothing set, no recent values, and a completer over the category names |
| LegacyApp.SearchCommand.SearchByCategory | searchCommand.py:265-292 | the picked category becomes current and its lines after the header are returned with the variables replaced; with no match everything is cleared; the count is the number of results |
| LegacyApp.SearchCommand.SetIpCommand | searchCommand.py:606-639 | an accepted IP or domain is set and pushed to the recent list; `clear` clears the value; anything else changes nothing |
| LegacyApp.SearchCommand.SetUrlCommand | searchCommand.py:640-664 | an accepted URL is normalised, set and pushed to the recent list; `clear` clears the value; anything else changes nothing |
| LegacyApp.SearchCommand.HandleInternalCommand | searchCommand.py:572-665 | not internal exactly when the first word names no command, exit exactly for `exit` and `q`, and only `setip` and `seturl` change the session, as their own commands say |
| LegacyApp.SearchCommand.Completions | searchCommand.py:869-945 | the completions over the session's own recent lists |
| LegacyApp.Widest | searchCommand.py:539 | the widest item without escape codes |
| LegacyApp.ColumnRows | searchCommand.py:542-562 | one row per pair: the left item and the item of the right cell when there is one |
| LegacyApp.TwoColumns | searchCommand.py:523-562 | no width for no items; otherwise the widest plain item plus 5, and the rows of the two columns |
| Sorting.SortBySorted | commandFinder/completer.py:190 | a stable sort under a total preorder orders its result and permutes its input |
| Sorting.SortByStable | commandFinder/completer.py:320 | equivalent elements keep their input order |
| Sorting.SortDescSpec | commandFinder/completer.py:190 | `sorted(..., key=k, reverse=True)` is descending by key and a permutation of the input |
| Sorting.SortDescStable | commandFinder/completer.py:209 | elements with equal keys keep their input order when sorting descending |
| Sorting.SortAscSpec | commandFinder/completer.py:320 | `sorted(..., key=k)` is ascending by key and a permutation of the input |
| Sorting.SortAscStable | commandFinder/completer.py:320 | elements with equal keys keep their input order |
| Sorting.SortAscTwoLevels | commandFinder/completer.py:320 | sorting by a key of two values lists the lower tier in input order, then the higher tier in input order |
| Sorting.SortStrings | searchCommand/services.py:119 | `sorted(names)` is ascending and a permutation of the input |

## Left out

- Presentation: ANSI colours, `rich` tables and panels, `prompt_toolkit` sessions, key bindings, prompts, banners and the wording of every message; a result type or a verdict stands for each message.
- `handle_exception` and every `try`/`except` around printing, terminal size and file access: the model has no I/O, so nothing there can fail.
- Terminal width: an input of the column layout.
- Spinner threads (searchCommand/ui.py:799-809, searchCommand/services.py:105-145): concurrency, without effect on the results.
- Time: the cache takes the current time as a parameter instead of calling `time.time()`.
- Scores are exact `real` numbers; IEEE rounding is not modelled.
- `unicodedata`: the character tables follow Python only for ASCII and Latin-1, with combining marks taken as U+0300 to U+036F. The lines below name what this costs.
- Chars.Lower: letters above U+00FF are not lower-cased.
- Chars.Decompose: only Latin-1 letters are decomposed.
- Chars.IsAlnum: letters and digits above U+00FF are not alphanumeric here. Examples are Greek, Cyrillic and CJK letters and Arabic-Indic digits.
- TextUtils.NormalizeText: it deletes the letters and digits above U+00FF that `Chars.IsAlnum` rejects. The model gives "mega" for "Ωmega", where `normalize_text` gives "ωmega". The `TextUtils.NormalizeText*` lemmas, the completer and the legacy search inherit this.
- Chars.IsPrintable: above U+00FF it rejects only whitespace, the format characters U+200B to U+200F, U+202A to U+202E, U+2060 to U+2064 and U+FEFF, and the private-use area U+E000 to U+F8FF. Other code points there count as printable, while `str.isprintable` rejects them. These include unassigned code points such as U+0378, surrogates, and the other control and format characters.
- Gtf.SanitizeInput: through `Gtf.KeptChar` it keeps the characters `Chars.IsPrintable` wrongly accepts, where `sanitize_input` drops them. `Gtf.SanitizeSpec` promises printability in this sense only.
- `urllib.parse` in `normalize_url` and `_normalize_url`: a function parameter. `ipaddress.ip_address`, `socket.gethostbyname` and the HTTP HEAD check are predicate parameters.
- Regular expressions: the ones with fixed patterns are written out as predicates. The matches of `HIGHLIGHT_PATTERNS` and `NO_COLOR_PATTERNS` are inputs, given as intervals. The dangerous-pattern search of `validate_query` is a list of patterns, each with its own `found` test.
- File system: directory listings, `os.path.isdir`, `os.path.exists`, `abspath` and file reads are values or parameters. `read_file`, `_read_file`, `DataLoader.load_gtfobins`, `safe_read_json` and `validate_file_path` are not modelled: they read untyped JSON or files.
- The `start == end` skip of the highlight segmentation (searchCommand/gtfsearch.py:1221) never fires, since the cut points are distinct; the model has no such branch.
- The GTFOBins `_list_commands`, `_show_help` and `_display_results` (grouping, counting and printing the results) are presentation. So is the package's `_list_commands` filter at searchCommand/gtfsearch.py:855.
- searchCommand.py: the tool-search branch of `_search_generic` (293-330), `_format_results` (453-495), the difflib suggestions, `interactive_menu`, `run_query`, `main` and the `all_completions` field, which nothing reads. This program's `_colorize_command` and blank-line cleanup are covered by the `Ui` members; they are the same code.
- searchCommand/creator.py, searchCommand/main.py, commandFinder/scanner.py, kali-install.py and the flows of commandFinder/search_command.py: interactive `input()` flows, editors, installers and fuzzywuzzy/difflib suggestions. Only the constructor state of commandFinder/search_command.py is modelled.
- The print of an undefined `Colors` at commandFinder/completer.py:33.
- Handlers.RefreshCommand: `_init_prompt_session` builds a new completer from the reloaded maps, and `_clear_screen` clears the terminal. The session state here holds no completer, and the terminal is presentation. A `PermissionError` from listing the tree is not modelled, because listings are total values.
- Handlers.HandleInternalCommand: after `refresh` with another argument it promises the reloaded maps, not the rebuilt completer, for the reason given for `Handlers.RefreshCommand`.
- `normalize_text` returning None is read as the empty text by the bigram and scoring functions, which both begin by testing their arguments for falsity; `get_completions` returns early on None, as the source does.

## Findings

| source | as written | input that shows it | evidently intended | confidence | as-written member | corrected member |
|---|---|---|---|---|---|---|
| searchCommand/services.py:72-73 | `os.path.basename(editor).split()[0]` indexes the words of the basename without checking there is one | `EDITOR=""` or `EDITOR="/usr/bin/"`: the basename is blank and the lookup raises IndexError | no usable editor, so None | not executed | Services.BlankEditorRaises | Services.GetSafeEditor |
| searchCommand/ui.py:730-732 | with no items `max_columns` is 0, so `num_columns` is 0 and `(term_width - 20) // num_columns` divides by zero | `display_in_columns([], ...)` outside compact mode | the "No categories available" message of line 739 | not executed | Ui.EmptyListingRaises | Ui.ColumnLayout |
| searchCommand/ui.py:256 | `normalize_text(item).lower()` is called on the None that an item without letters or digits normalises to; the same in lines 329 and 402 | a category named `-`, which `sanitize_name` accepts: every completion request raises AttributeError | the item matched as the empty text and the completion kept going | not executed | Ui.DashCategoryRaises | Ui.PrefixCompletions |
| searchCommand.py:841-842 | `recent_ips or []` replaces the empty list handed over at lines 131-136 with a fresh one, so the completer never sees the IPs and URLs later added to the session's lists | `setip 10.0.0.1`, then typing `setip 10`: no recent IP is offered | the completer offers the session's recent values | not executed | LegacyApp.RecentNeverOffered | LegacyApp.SearchCommand.Completions |
