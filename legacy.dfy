/**
 * The single-file program searchCommand.py: its own `normalize_text`, the
 * cheat-sheet parser with its recovery pass, the category search, the
 * two-column listing, the `setip`/`seturl` state updates and the
 * substring completer. Its command tokenizer and its blank-line cleanup
 * are the ones of searchCommand/ui.py and are modelled there
 * (`Ui.ColorizeCommand` with `Ui.Marker` as the arrow, `Ui.CleanBlankLines`).
 */
module Legacy {
  import opened Wrappers
  import opened Chars
  import opened Strings
  import opened Sorting
  import opened TextUtils
  import Session
  import Ui
  import Completer
  import Handlers

  // ------------------------------------------------------- normalize_text

  predicate NotMark(c: char) {
    !IsMark(c)
  }

  /** This program's `normalize_text`: lower-case, decompose, drop the combining marks; nothing is stripped. */
  function NormalizeLegacy(text: string): string {
    FilterChars(FoldChars(LowerStr(text)), NotMark)
  }

  /** The result holds no mark, is lower-case and decomposes no further; so normalising twice changes nothing. */
  lemma NormalizeLegacySpec(text: string)
    ensures var r := NormalizeLegacy(text);
      forall k :: 0 <= k < |r| ==> !IsMark(r[k]) && Lower(r[k]) == r[k] && Decompose(r[k]) == [r[k]]
    ensures NormalizeLegacy(NormalizeLegacy(text)) == NormalizeLegacy(text)
  {
    var r := NormalizeLegacy(text);
    FoldLowerStable(text);
    forall k | 0 <= k < |r| ensures !IsMark(r[k]) && Lower(r[k]) == r[k] && Decompose(r[k]) == [r[k]] {
      assert r[k] in FoldChars(LowerStr(text));
    }
    LowerIdentity(r);
    FoldIdentity(r);
    FilterCharsAll(r, NotMark);
  }

  lemma {:induction false} FilterTwice(s: string, p: char -> bool, q: char -> bool)
    requires forall c :: q(c) ==> p(c)
    ensures FilterChars(FilterChars(s, p), q) == FilterChars(s, q)
  {
    if s != [] {
      FilterTwice(s[1..], p, q);
      var t := FilterChars(s, p);
      if p(s[0]) {
        assert t == [s[0]] + FilterChars(s[1..], p);
        assert t[1..] == FilterChars(s[1..], p);
        assert FilterChars(t, q) == (if q(s[0]) then [s[0]] else []) + FilterChars(t[1..], q);
      } else {
        assert !q(s[0]);
        assert t == FilterChars(s[1..], p);
      }
    }
  }

  /**
   * The package's `normalize_text` (searchCommand/utils.py) is this one
   * followed by dropping what is neither alphanumeric nor whitespace and
   * stripping, with `None` for an empty result.
   */
  lemma NormalizeLegacyRefined(text: string)
    ensures NormalizeText(text) ==
      var n := Strip(FilterChars(NormalizeLegacy(text), Kept)); if n == [] then None else Some(n)
  {
    FilterTwice(FoldChars(LowerStr(text)), NotMark, Kept);
  }

  // ------------------------------------------------------- ordered dict

  /** A Python dict from category name to its lines, in insertion order. */
  type Sections = seq<(string, seq<string>)>

  /** `d[k] = v`: an existing key keeps its place, a new one goes last. */
  function Put(d: Sections, k: string, v: seq<string>): (r: Sections)
    ensures r != []
  {
    if d == [] then [(k, v)]
    else if d[0].0 == k then [(k, v)] + d[1..]
    else [d[0]] + Put(d[1..], k, v)
  }

  function Keys(d: Sections): set<string> {
    set e | e in d :: e.0
  }

  predicate DistinctKeys(d: Sections) {
    forall i, j :: 0 <= i < j < |d| ==> d[i].0 != d[j].0
  }

  /** `d[k]`, or `None` for a missing key. */
  function Get(d: Sections, k: string): Option<seq<string>> {
    if d == [] then None else if d[0].0 == k then Some(d[0].1) else Get(d[1..], k)
  }

  /** Every entry after `d[k] = v` was in `d` or is the new one. */
  lemma {:induction false} PutEntries(d: Sections, k: string, v: seq<string>)
    ensures forall e :: e in Put(d, k, v) ==> e in d || e == (k, v)
  {
    if d != [] && d[0].0 != k {
      PutEntries(d[1..], k, v);
    }
  }

  /** After `d[k] = v`, `k` maps to `v` and every other key keeps its value. */
  lemma {:induction false} PutGet(d: Sections, k: string, v: seq<string>)
    ensures Get(Put(d, k, v), k) == Some(v)
    ensures forall k' :: k' != k ==> Get(Put(d, k, v), k') == Get(d, k')
  {
    if d != [] && d[0].0 != k {
      PutGet(d[1..], k, v);
    }
  }

  /** The keys after `d[k] = v` are the old ones and `k`. */
  lemma {:induction false} PutKeys(d: Sections, k: string, v: seq<string>)
    ensures Keys(Put(d, k, v)) == Keys(d) + {k}
  {
    if d != [] {
      assert d == [d[0]] + d[1..];
      assert Keys(d) == {d[0].0} + Keys(d[1..]);
      if d[0].0 != k {
        PutKeys(d[1..], k, v);
        assert Put(d, k, v) == [d[0]] + Put(d[1..], k, v);
        assert Keys(Put(d, k, v)) == {d[0].0} + Keys(Put(d[1..], k, v));
      } else {
        assert Keys(Put(d, k, v)) == {k} + Keys(d[1..]);
      }
    }
  }

  /** A key occurs at most once, as in a dict. */
  lemma {:induction false} PutDistinct(d: Sections, k: string, v: seq<string>)
    requires DistinctKeys(d)
    ensures DistinctKeys(Put(d, k, v))
  {
    if d != [] && d[0].0 != k {
      PutDistinct(d[1..], k, v);
      PutKeys(d[1..], k, v);
      var t := Put(d[1..], k, v);
      var r := [d[0]] + t;
      assert Put(d, k, v) == r;
      forall e | e in d[1..] ensures e.0 != d[0].0 {
        var j :| 0 <= j < |d[1..]| && d[1..][j] == e;
        assert d[j + 1] == e;
      }
      assert d[0].0 !in Keys(d[1..]);
      forall i, j | 0 <= i < j < |r| ensures r[i].0 != r[j].0 {
        if i == 0 {
          assert r[j] in t;
          assert r[j].0 in Keys(t);
        } else {
          assert r[i] == t[i - 1] && r[j] == t[j - 1];
        }
      }
    }
  }

  // ------------------------------------------------------- section headers

  /** The start of a header line: `[+]`, thirty dashes, `[ `. */
  const HeaderOpen: string := "[+]------------------------------[ "
  /** The end of a header line: ` ]`, thirty dashes, `[+]`. */
  const HeaderClose: string := " ]------------------------------[+]"

  /** `s.startswith(p)`, one character at a time. */
  predicate HasPrefix(s: string, p: string)
    decreases |p|
  {
    p == [] || (s != [] && s[0] == p[0] && HasPrefix(s[1..], p[1..]))
  }

  lemma {:induction false} HasPrefixIsStartsWith(s: string, p: string)
    ensures HasPrefix(s, p) <==> StartsWith(s, p)
    decreases |p|
  {
    if p != [] && s != [] {
      HasPrefixIsStartsWith(s[1..], p[1..]);
      if |p| <= |s| {
        assert s[..|p|] == [s[0]] + s[1..][..|p| - 1];
        assert p == [p[0]] + p[1..];
      }
    }
  }

  /**
   * The lazy group `(.*?)` before `close`: the length of the shortest
   * start of `t` without a newline that `close` follows.
   */
  function GroupLen(t: string, close: string): (n: Option<nat>)
    decreases |t|
  {
    if HasPrefix(t, close) then Some(0)
    else if t == [] || t[0] == '\n' then None
    else match GroupLen(t[1..], close)
      case None => None
      case Some(m) => Some(m + 1)
  }

  lemma {:induction false} GroupLenSpec(t: string, close: string)
    ensures var n := GroupLen(t, close); n.Some? ==>
      n.value + |close| <= |t| && StartsWith(t[n.value..], close) && forall k :: 0 <= k < n.value ==> t[k] != '\n'
    decreases |t|
  {
    HasPrefixIsStartsWith(t, close);
    if !HasPrefix(t, close) && t != [] && t[0] != '\n' {
      GroupLenSpec(t[1..], close);
      if GroupLen(t[1..], close).Some? {
        var m := GroupLen(t[1..], close).value;
        assert t[m + 1..] == t[1..][m..];
        forall k | 1 <= k < m + 1 ensures t[k] != '\n' {
          assert t[k] == t[1..][k - 1];
        }
      }
    }
  }

  /**
   * `re.match(category_pattern, s)`: the category named by a header line
   * (already stripped), or `None` when `s` is not one.
   */
  function HeaderName(s: string): (r: Option<string>)
  {
    if |HeaderOpen| <= |s| && HasPrefix(s, HeaderOpen) then
      match GroupLen(s[|HeaderOpen|..], HeaderClose)
      case None => None
      case Some(n) => if n <= |s| - |HeaderOpen| then Some(s[|HeaderOpen|..][..n]) else None
    else None
  }

  /** `c` found at offset `n` of `t` makes `t[..n] + c` a prefix of `t`. */
  lemma StartsWithAfter(t: string, n: nat, c: string)
    requires n <= |t| && StartsWith(t[n..], c)
    ensures StartsWith(t, t[..n] + c)
  {
    assert t[..n + |c|] == t[..n] + t[n..][..|c|];
  }

  /** A header line is its opening, the name, and the closing, with no newline in the name. */
  lemma HeaderNameSpec(s: string)
    ensures var r := HeaderName(s); r.Some? ==>
      StartsWith(s, HeaderOpen) && StartsWith(s[|HeaderOpen|..], r.value + HeaderClose) && '\n' !in r.value
  {
    if HeaderName(s).Some? {
      HasPrefixIsStartsWith(s, HeaderOpen);
      var t := s[|HeaderOpen|..];
      GroupLenSpec(t, HeaderClose);
      var n := GroupLen(t, HeaderClose).value;
      var name := t[..n];
      StartsWithAfter(t, n, HeaderClose);
      assert '\n' !in name by {
        forall k | 0 <= k < n ensures name[k] != '\n' {
          assert name[k] == t[k];
        }
      }
    }
  }

  /** The header line of a category: `[+]---…---[ name ]---…---[+]`. */
  function HeaderLine(name: string): string {
    HeaderOpen + name + HeaderClose
  }

  lemma {:induction false} GroupOfName(name: string)
    requires forall k :: 0 <= k < |name| ==> name[k] != ']' && name[k] != '\n'
    ensures GroupLen(name + HeaderClose, HeaderClose) == Some(|name|)
    decreases |name|
  {
    var t := name + HeaderClose;
    HasPrefixIsStartsWith(t, HeaderClose);
    if name != [] {
      assert t[1] != HeaderClose[1];
      assert !StartsWith(t, HeaderClose);
      assert t[1..] == name[1..] + HeaderClose;
      GroupOfName(name[1..]);
    } else {
      assert t == HeaderClose;
    }
  }

  /** A name without `]` or newline is read back from its header line. */
  lemma HeaderRoundTrip(name: string)
    requires forall k :: 0 <= k < |name| ==> name[k] != ']' && name[k] != '\n'
    ensures HeaderName(HeaderLine(name)) == Some(name)
  {
    var t := name + HeaderClose;
    var s := HeaderLine(name);
    assert s == HeaderOpen + t;
    assert s[..|HeaderOpen|] == HeaderOpen;
    HasPrefixIsStartsWith(s, HeaderOpen);
    assert s[|HeaderOpen|..] == t;
    GroupOfName(name);
    assert t[..|name|] == name;
  }

  /** A line that holds a header is not blank. */
  lemma HeaderNotBlank(line: string)
    requires HeaderName(Strip(line)).Some?
    ensures !AllSpace(line)
  {
    HeaderNameSpec(Strip(line));
    StripSpec(line);
  }

  // ------------------------------------------------------- _validate_and_parse

  /** `re.match(r'.*\[\*\].*', line)`: `[*]` before any newline. */
  predicate ToolLine(line: string) {
    Occurs(Before(line, "\n"), "[*]")
  }

  predicate CommentLine(line: string) {
    StartsWith(Strip(line), "#")
  }

  /** A line allowed outside every category: blank, a tool line or a comment. */
  predicate AllowedLine(line: string) {
    AllSpace(line) || ToolLine(line) || CommentLine(line)
  }

  /**
   * The loop state of `_validate_and_parse`: the categories stored so far,
   * the current category (`""` standing for `None`, both false in Python)
   * with its lines, and whether every line outside a category was allowed.
   */
  datatype ParseState = ParseState(categories: Sections, current: string, content: seq<string>, valid: bool)

  const ParseStart: ParseState := ParseState([], [], [], true)

  /** `if current_category and current_content: categories[current_category] = current_content` */
  function Store(st: ParseState): Sections {
    if st.current != [] && st.content != [] then Put(st.categories, st.current, st.content) else st.categories
  }

  /**
   * One line, with the header it holds and whether it may stand outside a
   * category: a header stores the current category and opens its own;
   * inside a category a line is appended; outside one, a line that is not
   * allowed makes the format invalid.
   */
  function ParseStep(st: ParseState, line: string, header: Option<string>, allowed: bool): ParseState {
    match header
    case Some(name) => ParseState(Store(st), name, [line], st.valid)
    case None =>
      if st.current != [] then st.(content := st.content + [line])
      else if !allowed then st.(valid := false)
      else st
  }

  /** For each line, the name of the category whose header it is, if any. */
  function Headers(lines: seq<string>): (r: seq<Option<string>>)
    ensures |r| == |lines|
  {
    if lines == [] then [] else [HeaderName(Strip(lines[0]))] + Headers(lines[1..])
  }

  lemma {:induction false} HeadersAt(lines: seq<string>, j: nat)
    requires j < |lines|
    ensures Headers(lines)[j] == HeaderName(Strip(lines[j]))
  {
    if j > 0 {
      HeadersAt(lines[1..], j - 1);
    }
  }

  /** For each line, whether it may stand outside a category. */
  function Allowed(lines: seq<string>): (r: seq<bool>)
    ensures |r| == |lines|
  {
    if lines == [] then [] else [AllowedLine(lines[0])] + Allowed(lines[1..])
  }

  lemma {:induction false} AllowedAt(lines: seq<string>, j: nat)
    requires j < |lines|
    ensures Allowed(lines)[j] == AllowedLine(lines[j])
  {
    if j > 0 {
      AllowedAt(lines[1..], j - 1);
    }
  }

  /**
   * The state after the first `i` lines, given each line's header
   * (`heads`) and whether it is allowed outside a category (`oks`).
   */
  function ParsePrefix(lines: seq<string>, heads: seq<Option<string>>, oks: seq<bool>, i: nat): ParseState
    requires |heads| == |lines| && |oks| == |lines| && i <= |lines|
  {
    if i == 0 then ParseStart
    else ParseStep(ParsePrefix(lines, heads, oks, i - 1), lines[i - 1], heads[i - 1], oks[i - 1])
  }

  /** The state after the main pass over the whole file. */
  function MainPass(lines: seq<string>): ParseState {
    ParsePrefix(lines, Headers(lines), Allowed(lines), |lines|)
  }

  /** The categories the main pass finds. */
  function MainSections(lines: seq<string>): Sections {
    Store(MainPass(lines))
  }

  // ------------------------------------------------------- _recover_parse

  const Uncategorized: string := "Sin categor\U{ED}a"

  /** A line with `[+]`, `[*]` or `▶` starts a section of the recovery pass. */
  predicate MarkerLine(line: string) {
    Occurs(line, "[+]") || Occurs(line, "[*]") || Ui.Marker in line
  }

  /** `line.strip().replace('[+]', '').strip() or "Sin categoría"` */
  function RecoveredName(line: string): (r: string)
    ensures r != []
  {
    var c := Strip(ReplaceAll(Strip(line), "[+]", ""));
    if c == [] then Uncategorized else c
  }

  datatype RecoverState = RecoverState(categories: Sections, current: string, content: seq<string>)

  const RecoverStart: RecoverState := RecoverState([], Uncategorized, [])

  /**
   * One line of the recovery pass: a marker line stores the current
   * section (unless it is empty or only this same line), renames the
   * category when it holds `[+]`, and starts a new section with itself;
   * any other non-blank line is appended.
   */
  function RecoverStep(st: RecoverState, line: string): RecoverState {
    if MarkerLine(line) then
      var cats := if st.content != [] && st.content != [line] then Put(st.categories, st.current, st.content) else st.categories;
      var cur := if Occurs(line, "[+]") then RecoveredName(line) else st.current;
      RecoverState(cats, cur, [line])
    else if !AllSpace(line) then st.(content := st.content + [line])
    else st
  }

  function RecoverPrefix(lines: seq<string>, i: nat): RecoverState
    requires i <= |lines|
  {
    if i == 0 then RecoverStart else RecoverStep(RecoverPrefix(lines, i - 1), lines[i - 1])
  }

  function RecoverFinish(st: RecoverState): Sections {
    if st.content != [] then Put(st.categories, st.current, st.content) else st.categories
  }

  /** What `_recover_parse` returns. */
  function RecoverSectionsOf(lines: seq<string>): Sections {
    RecoverFinish(RecoverPrefix(lines, |lines|))
  }

  datatype ParseError = RecoveryFailed

  /**
   * `_validate_and_parse`: the main pass when its format is valid and it
   * found a category, otherwise the recovery pass, which fails with
   * ValueError when it finds nothing. The flag says whether the format
   * was valid.
   */
  function ParseFile(lines: seq<string>): Result<(Sections, bool), ParseError> {
    var st := MainPass(lines);
    var main := Store(st);
    if !st.valid || main == [] then
      var recovered := RecoverSectionsOf(lines);
      if recovered == [] then Err(RecoveryFailed) else Ok((recovered, st.valid))
    else Ok((main, st.valid))
  }

  // ------------------------------------------------------- what the parser finds

  /** No line strictly between `a` and `b` is a header. */
  ghost predicate NoHeaderBetween(heads: seq<Option<string>>, a: nat, b: nat)
    requires b <= |heads|
  {
    forall j :: a < j < b ==> heads[j].None?
  }

  /**
   * `content` is a section of `lines`: it begins with a header line naming
   * `name` and holds every later line up to the next header or the end.
   */
  ghost predicate SectionOf(lines: seq<string>, heads: seq<Option<string>>, name: string, content: seq<string>)
    requires |heads| == |lines|
  {
    exists a: nat, b: nat :: a < b <= |lines| && content == lines[a..b]
      && heads[a] == Some(name) && NoHeaderBetween(heads, a, b)
      && (b < |lines| ==> heads[b].Some?)
  }

  /** The open category's lines run from its header line to line `i`. */
  ghost predicate OpenSection(lines: seq<string>, heads: seq<Option<string>>, i: nat, st: ParseState)
    requires |heads| == |lines| && i <= |lines|
  {
    st.current != [] ==>
      exists a: nat :: a < i && st.content == lines[a..i] && heads[a] == Some(st.current) && NoHeaderBetween(heads, a, i)
  }

  ghost predicate StoredSections(lines: seq<string>, heads: seq<Option<string>>, d: Sections)
    requires |heads| == |lines|
  {
    forall e :: e in d ==> e.0 != [] && SectionOf(lines, heads, e.0, e.1)
  }

  /** Storing the open category at a header line, or at the end, stores a section. */
  lemma StoreSection(lines: seq<string>, heads: seq<Option<string>>, i: nat, st: ParseState)
    requires |heads| == |lines| && i <= |lines|
    requires OpenSection(lines, heads, i, st) && StoredSections(lines, heads, st.categories)
    requires i < |lines| ==> heads[i].Some?
    ensures StoredSections(lines, heads, Store(st))
  {
    if st.current != [] && st.content != [] {
      var a: nat :| a < i && st.content == lines[a..i] && heads[a] == Some(st.current) && NoHeaderBetween(heads, a, i);
      assert SectionOf(lines, heads, st.current, lines[a..i]);
      PutEntries(st.categories, st.current, st.content);
    }
  }

  /** One step keeps the open category's lines a run from its header. */
  lemma OpenStep(lines: seq<string>, heads: seq<Option<string>>, i: nat, st: ParseState, oks: seq<bool>)
    requires |heads| == |lines| && |oks| == |lines| && 0 < i <= |lines|
    requires OpenSection(lines, heads, i - 1, st)
    ensures OpenSection(lines, heads, i, ParseStep(st, lines[i - 1], heads[i - 1], oks[i - 1]))
  {
    if heads[i - 1].Some? {
      OpenAtHeader(lines, heads, i, Store(st), heads[i - 1].value, st.valid);
    } else if st.current != [] {
      OpenContinues(lines, heads, i, st);
    }
  }

  /** A header line opens its category with itself as the only line. */
  lemma OpenAtHeader(lines: seq<string>, heads: seq<Option<string>>, i: nat, d: Sections, name: string, valid: bool)
    requires |heads| == |lines| && 0 < i <= |lines| && heads[i - 1] == Some(name)
    ensures OpenSection(lines, heads, i, ParseState(d, name, [lines[i - 1]], valid))
  {
    assert [lines[i - 1]] == lines[i - 1..i];
    assert NoHeaderBetween(heads, i - 1, i);
  }

  /** A line without a header extends the open category's run by one. */
  lemma OpenContinues(lines: seq<string>, heads: seq<Option<string>>, i: nat, st: ParseState)
    requires |heads| == |lines| && 0 < i <= |lines| && heads[i - 1].None? && st.current != []
    requires OpenSection(lines, heads, i - 1, st)
    ensures OpenSection(lines, heads, i, st.(content := st.content + [lines[i - 1]]))
  {
    var a: nat :| a < i - 1 && st.content == lines[a..i - 1] && heads[a] == Some(st.current) && NoHeaderBetween(heads, a, i - 1);
    RunExtends(lines, st.content, a, i - 1);
    NoHeaderExtends(heads, a, i - 1);
  }

  /** A run of `xs` from `a` to `b`, with `xs[b]` appended, is the run from `a` to `b + 1`. */
  lemma RunExtends<T>(xs: seq<T>, run: seq<T>, a: nat, b: nat)
    requires a <= b < |xs| && run == xs[a..b]
    ensures run + [xs[b]] == xs[a..b + 1]
  {
  }

  lemma NoHeaderExtends(heads: seq<Option<string>>, a: nat, b: nat)
    requires b < |heads| && NoHeaderBetween(heads, a, b) && heads[b].None?
    ensures NoHeaderBetween(heads, a, b + 1)
  {
  }


  lemma {:induction false} OpenHolds(lines: seq<string>, heads: seq<Option<string>>, oks: seq<bool>, i: nat)
    requires |heads| == |lines| && |oks| == |lines| && i <= |lines|
    ensures OpenSection(lines, heads, i, ParsePrefix(lines, heads, oks, i))
  {
    if i > 0 {
      OpenHolds(lines, heads, oks, i - 1);
      OpenStep(lines, heads, i, ParsePrefix(lines, heads, oks, i - 1), oks);
    }
  }

  lemma {:induction false} SectionsHold(lines: seq<string>, heads: seq<Option<string>>, oks: seq<bool>, i: nat)
    requires |heads| == |lines| && |oks| == |lines| && i <= |lines|
    ensures StoredSections(lines, heads, ParsePrefix(lines, heads, oks, i).categories)
  {
    if i > 0 {
      SectionsHold(lines, heads, oks, i - 1);
      var st := ParsePrefix(lines, heads, oks, i - 1);
      if heads[i - 1].Some? {
        OpenHolds(lines, heads, oks, i - 1);
        StoreSection(lines, heads, i - 1, st);
      }
    }
  }

  lemma KeysHold(lines: seq<string>, heads: seq<Option<string>>, oks: seq<bool>, i: nat)
    requires |heads| == |lines| && |oks| == |lines| && i <= |lines|
    ensures DistinctKeys(ParsePrefix(lines, heads, oks, i).categories)
    ensures forall j :: 0 <= j < i && heads[j].Some? && heads[j].value != [] ==>
      heads[j].value in Keys(ParsePrefix(lines, heads, oks, i).categories) + {ParsePrefix(lines, heads, oks, i).current}
  {
    DistinctHolds(lines, heads, oks, i);
    KeysPresent(lines, heads, oks, i);
  }

  lemma {:induction false} DistinctHolds(lines: seq<string>, heads: seq<Option<string>>, oks: seq<bool>, i: nat)
    requires |heads| == |lines| && |oks| == |lines| && i <= |lines|
    ensures DistinctKeys(ParsePrefix(lines, heads, oks, i).categories)
  {
    if i > 0 {
      DistinctHolds(lines, heads, oks, i - 1);
      var st := ParsePrefix(lines, heads, oks, i - 1);
      if heads[i - 1].Some? && st.current != [] && st.content != [] {
        PutDistinct(st.categories, st.current, st.content);
      }
    }
  }

  /** An open category holds at least its header line. */
  lemma {:induction false} OpenHasContent(lines: seq<string>, heads: seq<Option<string>>, oks: seq<bool>, i: nat)
    requires |heads| == |lines| && |oks| == |lines| && i <= |lines|
    ensures ParsePrefix(lines, heads, oks, i).current != [] ==> ParsePrefix(lines, heads, oks, i).content != []
  {
    if i > 0 {
      OpenHasContent(lines, heads, oks, i - 1);
    }
  }

  /** One step loses no name: the stored names and the open one are kept, and a header's name becomes the open one. */
  lemma StepKeys(st: ParseState, line: string, header: Option<string>, allowed: bool)
    requires st.current != [] ==> st.content != []
    ensures var n := ParseStep(st, line, header, allowed);
      Keys(st.categories) + {st.current} <= Keys(n.categories) + {n.current} + {[]}
    ensures header.Some? ==> ParseStep(st, line, header, allowed).current == header.value
  {
    if header.Some? && st.current != [] {
      PutKeys(st.categories, st.current, st.content);
    }
  }

  lemma {:induction false} KeysPresent(lines: seq<string>, heads: seq<Option<string>>, oks: seq<bool>, i: nat)
    requires |heads| == |lines| && |oks| == |lines| && i <= |lines|
    ensures forall j :: 0 <= j < i && heads[j].Some? && heads[j].value != [] ==>
      heads[j].value in Keys(ParsePrefix(lines, heads, oks, i).categories) + {ParsePrefix(lines, heads, oks, i).current}
  {
    if i > 0 {
      KeysPresent(lines, heads, oks, i - 1);
      var st := ParsePrefix(lines, heads, oks, i - 1);
      var next := ParsePrefix(lines, heads, oks, i);
      assert next == ParseStep(st, lines[i - 1], heads[i - 1], oks[i - 1]);
      var before := Keys(st.categories) + {st.current};
      var after := Keys(next.categories) + {next.current};
      OpenHasContent(lines, heads, oks, i - 1);
      StepKeys(st, lines[i - 1], heads[i - 1], oks[i - 1]);
      forall j | 0 <= j < i && heads[j].Some? && heads[j].value != []
        ensures heads[j].value in after
      {
        if j < i - 1 {
          assert heads[j].value in before;
        }
      }
    }
  }


  /**
   * Every category the main pass stores has a non-empty name, occurs once,
   * and is a section of the file: its header line followed by every line
   * up to the next header. Every header with a non-empty name is stored.
   * The main pass reads `heads` as `Headers(lines)` (`HeadersAt`).
   */
  lemma MainSectionsSpec(lines: seq<string>, heads: seq<Option<string>>, oks: seq<bool>)
    requires |heads| == |lines| && |oks| == |lines|
    ensures var d := Store(ParsePrefix(lines, heads, oks, |lines|));
      && DistinctKeys(d)
      && StoredSections(lines, heads, d)
      && forall j :: 0 <= j < |lines| && heads[j].Some? && heads[j].value != [] ==> heads[j].value in Keys(d)
  {
    var st := ParsePrefix(lines, heads, oks, |lines|);
    SectionsHold(lines, heads, oks, |lines|);
    OpenHolds(lines, heads, oks, |lines|);
    KeysHold(lines, heads, oks, |lines|);
    StoreSection(lines, heads, |lines|, st);
    if st.current != [] && st.content != [] {
      PutDistinct(st.categories, st.current, st.content);
      PutKeys(st.categories, st.current, st.content);
    }
  }

  /** The category open after the first `i` lines: the name of the last header among them, `""` if none. */
  function OpenCategory(heads: seq<Option<string>>, i: nat): string
    requires i <= |heads|
  {
    if i == 0 then []
    else match heads[i - 1]
      case Some(n) => n
      case None => OpenCategory(heads, i - 1)
  }

  /** Every line that is in no category and is not a header is allowed there. */
  ghost predicate AllowedOutside(heads: seq<Option<string>>, oks: seq<bool>, i: nat)
    requires |oks| == |heads| && i <= |heads|
  {
    forall j :: 0 <= j < i && OpenCategory(heads, j) == [] && heads[j].None? ==> oks[j]
  }

  /**
   * After `i` lines the open category is the last header's, and the
   * format is valid exactly when every line so far that is in no category
   * and is not a header is allowed there; with `oks` read as
   * `Allowed(lines)` (`AllowedAt`), that is blank, a tool line or a comment.
   */
  lemma {:induction false} ParseValidPrefix(lines: seq<string>, heads: seq<Option<string>>, oks: seq<bool>, i: nat)
    requires |heads| == |lines| && |oks| == |lines| && i <= |lines|
    ensures ParsePrefix(lines, heads, oks, i).current == OpenCategory(heads, i)
    ensures ParsePrefix(lines, heads, oks, i).valid <==> AllowedOutside(heads, oks, i)
  {
    if i > 0 {
      ParseValidPrefix(lines, heads, oks, i - 1);
    }
  }

  /** A marker line is not blank. */
  lemma MarkerNotBlank(line: string)
    ensures MarkerLine(line) ==> !AllSpace(line)
  {
    if AllSpace(line) {
      Ui.BlankHasNoText(line, "[+]");
      Ui.BlankHasNoText(line, "[*]");
      assert !IsSpace(Ui.Marker);
    }
  }

  /** The lines after the first of a recovered section are neither marker lines nor blank. */
  ghost predicate RecoveredBody(content: seq<string>) {
    forall j :: 1 <= j < |content| ==> !MarkerLine(content[j]) && !AllSpace(content[j])
  }

  ghost predicate RecoverInv(lines: seq<string>, i: nat, st: RecoverState)
    requires i <= |lines|
  {
    && (st.content == [] <==> forall j :: 0 <= j < i ==> AllSpace(lines[j]))
    && (st.content == [] ==> st.categories == [])
    && st.current != []
    && DistinctKeys(st.categories)
    && (forall e :: e in st.categories ==> e.0 != [] && e.1 != [] && RecoveredBody(e.1) && forall l :: l in e.1 ==> l in lines)
    && RecoveredBody(st.content)
    && (forall l :: l in st.content ==> l in lines)
  }

  lemma {:induction false} RecoverInvHolds(lines: seq<string>, i: nat)
    requires i <= |lines|
    ensures RecoverInv(lines, i, RecoverPrefix(lines, i))
  {
    if i > 0 {
      RecoverInvHolds(lines, i - 1);
      var st := RecoverPrefix(lines, i - 1);
      var line := lines[i - 1];
      assert line in lines;
      if MarkerLine(line) {
        MarkerNotBlank(line);
        if st.content != [] && st.content != [line] {
          PutEntries(st.categories, st.current, st.content);
          PutDistinct(st.categories, st.current, st.content);
        }
      } else if !AllSpace(line) {
        var c := st.content + [line];
        forall j | 1 <= j < |c| ensures !MarkerLine(c[j]) && !AllSpace(c[j]) {
          if j < |st.content| {
            assert c[j] == st.content[j];
          }
        }
      }
    }
  }

  /**
   * `_recover_parse`: every stored section has a non-empty name, occurs
   * once, is not empty, is made of lines of the file, and holds no marker
   * line and no blank line after its first line. It finds nothing exactly
   * when every line is blank.
   */
  lemma RecoverSpec(lines: seq<string>)
    ensures var r := RecoverSectionsOf(lines);
      DistinctKeys(r) && forall e :: e in r ==> e.0 != [] && e.1 != [] && RecoveredBody(e.1) && forall l :: l in e.1 ==> l in lines
    ensures RecoverSectionsOf(lines) == [] <==> forall j :: 0 <= j < |lines| ==> AllSpace(lines[j])
  {
    var st := RecoverPrefix(lines, |lines|);
    RecoverInvHolds(lines, |lines|);
    if st.content != [] {
      PutEntries(st.categories, st.current, st.content);
      PutDistinct(st.categories, st.current, st.content);
    }
  }

  /** `_validate_and_parse` raises ValueError exactly when every line of the file is blank. */
  lemma ParseFileFails(lines: seq<string>)
    ensures ParseFile(lines).Err? <==> forall j :: 0 <= j < |lines| ==> AllSpace(lines[j])
  {
    RecoverSpec(lines);
    if forall j :: 0 <= j < |lines| ==> AllSpace(lines[j]) {
      MainSectionsSpec(lines, Headers(lines), Allowed(lines));
      if MainSections(lines) != [] {
        var e := MainSections(lines)[0];
        assert e in MainSections(lines);
        var a: nat, b: nat :| a < b <= |lines| && e.1 == lines[a..b] && Headers(lines)[a] == Some(e.0);
        HeadersAt(lines, a);
        HeaderNotBlank(lines[a]);
      }
    }
  }

  /** The loop of `_validate_and_parse`, storing the last category at the end. */
  method MainLoop(lines: seq<string>) returns (categories: Sections, validFormat: bool)
    ensures categories == MainSections(lines) && validFormat == MainPass(lines).valid
  {
    categories := [];
    var currentCategory: string := [];
    var currentContent: seq<string> := [];
    validFormat := true;
    for i := 0 to |lines|
      invariant ParseState(categories, currentCategory, currentContent, validFormat) == ParsePrefix(lines, Headers(lines), Allowed(lines), i)
    {
      var line := lines[i];
      var categoryMatch := HeaderName(Strip(line));
      HeadersAt(lines, i);
      AllowedAt(lines, i);
      if categoryMatch.Some? {
        if currentCategory != [] && currentContent != [] {
          categories := Put(categories, currentCategory, currentContent);
        }
        currentCategory := categoryMatch.value;
        currentContent := [line];
      } else if currentCategory != [] {
        currentContent := currentContent + [line];
      } else if !AllowedLine(line) {
        validFormat := false;
      }
    }
    if currentCategory != [] && currentContent != [] {
      categories := Put(categories, currentCategory, currentContent);
    }
  }

  /** `_validate_and_parse`: the main pass, falling back to the recovery pass. */
  method ValidateAndParse(lines: seq<string>) returns (r: Result<(Sections, bool), ParseError>)
    ensures r == ParseFile(lines)
  {
    var categories, validFormat := MainLoop(lines);
    if !validFormat || categories == [] {
      var recovered := RecoverParse(lines);
      if recovered == [] {
        return Err(RecoveryFailed);
      }
      return Ok((recovered, validFormat));
    }
    return Ok((categories, validFormat));
  }

  /** The loop of `_recover_parse`. */
  method RecoverParse(lines: seq<string>) returns (categories: Sections)
    ensures categories == RecoverSectionsOf(lines)
  {
    categories := [];
    var currentCategory := Uncategorized;
    var currentContent: seq<string> := [];
    for i := 0 to |lines|
      invariant RecoverState(categories, currentCategory, currentContent) == RecoverPrefix(lines, i)
    {
      var line := lines[i];
      if MarkerLine(line) {
        if currentContent != [] && currentContent != [line] {
          categories := Put(categories, currentCategory, currentContent);
        }
        if Occurs(line, "[+]") {
          currentCategory := RecoveredName(line);
        }
        currentContent := [line];
      } else if !AllSpace(line) {
        currentContent := currentContent + [line];
      }
    }
    if currentContent != [] {
      categories := Put(categories, currentCategory, currentContent);
    }
  }

  // ------------------------------------------------------- _search_generic, category branch

  /**
   * `_replace_variables`: `$IP` is replaced when the command holds it and
   * an IP is set; then `$URL`, by the set URL as `_normalize_url` (the
   * `urllib` round trip, a parameter) gives it, with the doubled slashes
   * after the host collapsed.
   */
  function LegacyReplace(command: string, ip: Option<string>, url: Option<string>, normalizeUrl: string -> string): string {
    var withIp := if Contains(command, "$IP") && Truthy(ip) then ReplaceAll(command, "$IP", ip.value) else command;
    if Contains(withIp, "$URL") && Truthy(url) then
      CollapseUrlSlashes(ReplaceAll(withIp, "$URL", normalizeUrl(url.value)))
    else withIp
  }

  /**
   * The package's `replace_variables` does the same with the URL already
   * normalised, as long as normalising leaves something; and a command
   * without placeholders, or with no value set, is returned unchanged.
   */
  lemma LegacyReplaceAgrees(command: string, ip: Option<string>, url: Option<string>, normalizeUrl: string -> string)
    ensures !Truthy(url) ==> LegacyReplace(command, ip, url, normalizeUrl) == ReplaceVariables(command, ip, url)
    ensures Truthy(url) && normalizeUrl(url.value) != [] ==>
      LegacyReplace(command, ip, url, normalizeUrl) == ReplaceVariables(command, ip, Some(normalizeUrl(url.value)))
    ensures (!Truthy(ip) && !Truthy(url)) || (!Contains(command, "$IP") && !Contains(command, "$URL")) ==>
      LegacyReplace(command, ip, url, normalizeUrl) == command
  {
  }

  /** The lines after a category's header, with the variables replaced. */
  function ReplacedLines(content: seq<string>, ip: Option<string>, url: Option<string>, normalizeUrl: string -> string): seq<string> {
    if |content| > 1 then seq(|content| - 1, k requires 0 <= k < |content| - 1 => LegacyReplace(content[k + 1], ip, url, normalizeUrl))
    else []
  }

  /** The category name normalises to the query's normal form. */
  predicate ExactName(name: string, qn: string) {
    NormalizeLegacy(name) == qn
  }

  /** The name is not empty (a true value in Python) and its normal form holds the query's. */
  predicate PartialName(name: string, qn: string) {
    name != [] && Contains(NormalizeLegacy(name), qn)
  }

  /** For each category, whether it matches exactly (`exact`), or partly. */
  function MatchFlags(cats: Sections, qn: string, exact: bool): (r: seq<bool>)
    ensures |r| == |cats|
  {
    if cats == [] then []
    else [if exact then ExactName(cats[0].0, qn) else PartialName(cats[0].0, qn)] + MatchFlags(cats[1..], qn, exact)
  }

  lemma {:induction false} MatchFlagsAt(cats: Sections, qn: string, exact: bool, k: nat)
    requires k < |cats|
    ensures MatchFlags(cats, qn, exact)[k] == if exact then ExactName(cats[k].0, qn) else PartialName(cats[k].0, qn)
  {
    if k > 0 {
      MatchFlagsAt(cats[1..], qn, exact, k - 1);
    }
  }

  /** The first index below `i` whose flag is set. */
  function FirstSet(flags: seq<bool>, i: nat): Option<nat>
    requires i <= |flags|
  {
    if i == 0 then None
    else match FirstSet(flags, i - 1)
      case Some(j) => Some(j)
      case None => if flags[i - 1] then Some(i - 1) else None
  }

  lemma {:induction false} FirstSetSpec(flags: seq<bool>, i: nat)
    requires i <= |flags|
    ensures var f := FirstSet(flags, i);
      (f.None? <==> forall k :: 0 <= k < i ==> !flags[k])
      && (f.Some? ==> f.value < i && flags[f.value] && forall k :: 0 <= k < f.value ==> !flags[k])
  {
    if i > 0 {
      FirstSetSpec(flags, i - 1);
    }
  }

  /** A set flag stays the first one as more flags are looked at. */
  lemma {:induction false} FirstSetLater(flags: seq<bool>, i: nat, n: nat)
    requires i <= n <= |flags| && FirstSet(flags, i).Some?
    ensures FirstSet(flags, n) == FirstSet(flags, i)
    decreases n - i
  {
    if i < n {
      FirstSetLater(flags, i, n - 1);
    }
  }

  /** The category a search picks: the first exact match, else the first partial one. */
  function PickCategory(cats: Sections, qn: string): Option<nat> {
    match FirstSet(MatchFlags(cats, qn, true), |cats|)
    case Some(j) => Some(j)
    case None => FirstSet(MatchFlags(cats, qn, false), |cats|)
  }

  /**
   * An exact match wins over every partial one, even an earlier one; with
   * no exact match the first partial match is taken; nothing is picked
   * exactly when no category matches either way.
   */
  lemma PickCategorySpec(cats: Sections, qn: string)
    ensures PickCategory(cats, qn).None? <==>
      forall k :: 0 <= k < |cats| ==> !ExactName(cats[k].0, qn) && !PartialName(cats[k].0, qn)
    ensures var p := PickCategory(cats, qn);
      p.Some? ==> (
        && p.value < |cats|
        && ((exists k :: 0 <= k < |cats| && ExactName(cats[k].0, qn)) ==>
              ExactName(cats[p.value].0, qn) && forall k :: 0 <= k < p.value ==> !ExactName(cats[k].0, qn))
        && ((forall k :: 0 <= k < |cats| ==> !ExactName(cats[k].0, qn)) ==>
              PartialName(cats[p.value].0, qn) && forall k :: 0 <= k < p.value ==> !PartialName(cats[k].0, qn)))
  {
    var e, q := MatchFlags(cats, qn, true), MatchFlags(cats, qn, false);
    FirstSetSpec(e, |cats|);
    FirstSetSpec(q, |cats|);
    forall k | 0 <= k < |cats| ensures e[k] == ExactName(cats[k].0, qn) && q[k] == PartialName(cats[k].0, qn) {
      MatchFlagsAt(cats, qn, true, k);
      MatchFlagsAt(cats, qn, false, k);
    }
  }

  /** In a dict, looking up the key of entry `j` gives that entry's value. */
  lemma {:induction false} GetAt(d: Sections, j: nat)
    requires DistinctKeys(d) && j < |d|
    ensures Get(d, d[j].0) == Some(d[j].1)
  {
    if j > 0 {
      assert d[0].0 != d[j].0;
      GetAt(d[1..], j - 1);
    }
  }

  // ------------------------------------------------------- _handle_internal_command

  /** The commands of `_handle_internal_command`. */
  datatype Command = Help | Clear | ListTools | ListCategories | Exit | SetIp | SetUrl

  /** `aliases.get(command, command)` */
  function Unalias(w: string): string {
    if w == "h" then "help"
    else if w == "lt" then "list tools"
    else if w == "lc" then "list categories"
    else if w == "c" then "clear"
    else if w == "q" then "exit"
    else if w == "si" then "setip"
    else if w == "su" then "seturl"
    else w
  }

  /** The command a first word names, after its alias is resolved. */
  function CommandOf(w: string): Option<Command> {
    var c := Unalias(w);
    if c == "help" then Some(Help)
    else if c == "clear" then Some(Clear)
    else if c == "list tools" then Some(ListTools)
    else if c == "list categories" then Some(ListCategories)
    else if c == "exit" then Some(Exit)
    else if c == "setip" then Some(SetIp)
    else if c == "seturl" then Some(SetUrl)
    else None
  }

  /**
   * Since the command is a single word, the listings are reached only
   * through their aliases `lt` and `lc`; every other command by its name
   * or its alias.
   */
  lemma CommandOfSpec(w: string)
    requires forall k :: 0 <= k < |w| ==> !IsSpace(w[k])
    ensures CommandOf(w) == Some(ListTools) <==> w == "lt"
    ensures CommandOf(w) == Some(ListCategories) <==> w == "lc"
    ensures CommandOf(w) == Some(Help) <==> w == "help" || w == "h"
    ensures CommandOf(w) == Some(Clear) <==> w == "clear" || w == "c"
    ensures CommandOf(w) == Some(Exit) <==> w == "exit" || w == "q"
    ensures CommandOf(w) == Some(SetIp) <==> w == "setip" || w == "si"
    ensures CommandOf(w) == Some(SetUrl) <==> w == "seturl" || w == "su"
  {
    if |w| > 4 {
      assert !IsSpace(w[4]) && IsSpace("list tools"[4]) && IsSpace("list categories"[4]);
    }
  }

  /** Lower-casing keeps exactly the white space. */
  lemma LowerBlank(s: string)
    ensures AllSpace(LowerStr(s)) <==> AllSpace(s)
  {
    if !AllSpace(s) {
      var k :| 0 <= k < |s| && !IsSpace(s[k]);
      assert !IsSpace(LowerStr(s)[k]);
    }
  }

  /** `query.lower().strip().split(maxsplit=1)`: the first word and the rest. */
  function CommandWords(query: string): (string, string)
    requires !AllSpace(query)
  {
    LowerBlank(query);
    StripSpec(LowerStr(query));
    Handlers.SplitFirst(Strip(LowerStr(query)))
  }

  /** `^[a-zA-Z0-9][a-zA-Z0-9\-\.]*[a-zA-Z0-9]$` */
  predicate LegacyDomain(s: string) {
    |s| >= 2 && IsAsciiAlnum(s[0]) && IsAsciiAlnum(s[|s| - 1])
    && forall k :: 0 <= k < |s| ==> IsAsciiAlnum(s[k]) || s[k] == '-' || s[k] == '.'
  }

  /** `setip` takes the argument: an IP address, or a name the domain pattern admits of 2 to 255 characters. */
  predicate LegacyIpAccepted(args: string, isIpAddress: string -> bool) {
    args != [] && args != "clear" && (isIpAddress(args) || (LegacyDomain(args) && 1 < |args| <= 255))
  }

  /** The host of `(https?://)?host(/.*)?`: up to the first slash after the scheme. */
  function UrlHost(s: string): string {
    var rest := s[SchemeLen(s)..];
    rest[..IndexOf(rest, '/')]
  }

  /** `[a-zA-Z0-9][a-zA-Z0-9\-\.]*\.[a-zA-Z]{2,}`: the dot matched is the last one, since letters follow it to the end. */
  predicate UrlHostOk(h: string) {
    var d := LastIndexOf(h, '.');
    h != [] && IsAsciiAlnum(h[0])
    && (forall k :: 0 <= k < |h| ==> IsAsciiAlnum(h[k]) || h[k] == '-' || h[k] == '.')
    && 1 <= d < |h| && |h| - d - 1 >= 2 && forall k :: d < k < |h| ==> IsAsciiLetter(h[k])
  }

  /** `re.match(url_pattern, args)`: optional scheme, a host, and an optional path without newline. */
  predicate LegacyUrl(s: string) {
    var rest := s[SchemeLen(s)..];
    var h := IndexOf(rest, '/');
    UrlHostOk(rest[..h]) && forall k :: h <= k < |rest| ==> rest[k] != '\n'
  }

  /** `seturl` takes the argument. */
  predicate LegacyUrlAccepted(args: string) {
    args != [] && args != "clear" && LegacyUrl(args)
  }

  // ------------------------------------------------------- _display_in_columns

  /** The number of rows of the two-column listing of `n` items, `(n + 1) // 2`. */
  function Rows(n: nat): nat {
    (n + 1) / 2
  }

  /** The item shown in column `col` (0 left, 1 right) of row `row`. */
  function ItemAt(n: nat, row: nat, col: nat): Option<nat> {
    if row >= Rows(n) || col > 1 then None
    else if col == 0 then Some(row)
    else if Rows(n) + row < n then Some(Rows(n) + row)
    else None
  }

  /** The cell of item `idx`: the left column holds the first `Rows(n)` items, the right one the rest. */
  function CellOf(n: nat, idx: nat): (nat, nat) {
    if idx < Rows(n) then (idx, 0) else (idx - Rows(n), 1)
  }

  /**
   * Every item is shown in exactly one cell: its own, which lies within
   * the listing; and a cell shows the item whose cell it is. Only the last
   * right-hand cell can be empty, when `n` is odd.
   */
  lemma ColumnsPlaceEachOnce(n: nat)
    ensures forall idx :: 0 <= idx < n ==> CellOf(n, idx).0 < Rows(n) && ItemAt(n, CellOf(n, idx).0, CellOf(n, idx).1) == Some(idx)
    ensures forall row: nat, col: nat, idx: nat :: ItemAt(n, row, col) == Some(idx) ==> idx < n && CellOf(n, idx) == (row, col)
    ensures forall row: nat :: row < Rows(n) ==> ItemAt(n, row, 0).Some?
    ensures forall row: nat :: row < Rows(n) && ItemAt(n, row, 1).None? ==> n % 2 == 1 && row == Rows(n) - 1
  {
    forall idx | 0 <= idx < n ensures CellOf(n, idx).0 < Rows(n) && ItemAt(n, CellOf(n, idx).0, CellOf(n, idx).1) == Some(idx) {
      ItemInItsCell(n, idx);
    }
    forall row: nat, col: nat, idx: nat | ItemAt(n, row, col) == Some(idx) ensures idx < n && CellOf(n, idx) == (row, col) {
      CellHoldsItsItem(n, row, col, idx);
    }
    forall row: nat | row < Rows(n) && ItemAt(n, row, 1).None? ensures n % 2 == 1 && row == Rows(n) - 1 {
      EmptyCellIsLast(n, row);
    }
  }

  lemma ItemInItsCell(n: nat, idx: nat)
    requires idx < n
    ensures CellOf(n, idx).0 < Rows(n) && ItemAt(n, CellOf(n, idx).0, CellOf(n, idx).1) == Some(idx)
  {
    RowsHalf(n);
  }

  lemma CellHoldsItsItem(n: nat, row: nat, col: nat, idx: nat)
    requires ItemAt(n, row, col) == Some(idx)
    ensures idx < n && CellOf(n, idx) == (row, col)
  {
    RowsHalf(n);
  }

  lemma EmptyCellIsLast(n: nat, row: nat)
    requires row < Rows(n) && ItemAt(n, row, 1).None?
    ensures n % 2 == 1 && row == Rows(n) - 1
  {
    RowsHalf(n);
  }

  /** Two rows per pair of items, and one more for an odd item. */
  lemma RowsHalf(n: nat)
    ensures n == 2 * Rows(n) || n + 1 == 2 * Rows(n)
    ensures n % 2 == 1 <==> n + 1 == 2 * Rows(n)
  {
  }
}
