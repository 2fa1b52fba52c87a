/**
 * The presentation logic of searchCommand/ui.py that is not terminal
 * rendering: the command tokenizer behind `colorize_command`, the result
 * formatter, the blank-line cleanup of `display_results`, the column
 * layout of `display_in_columns` and the prefix completers of the
 * add/delete prompts. Colour escape codes are left out: a coloured line
 * is modelled by its styled segments, and a formatted line by its text
 * without escapes.
 */
module Ui {
  import opened Wrappers
  import opened Chars
  import opened Strings
  import opened Sorting
  import opened TextUtils

  // ------------------------------------------------------------ tokenizer

  /** The loop state of the tokenizer: the open quote, the finished parts and the part being built. */
  datatype Scan = Scan(quote: Option<char>, parts: seq<string>, current: string)

  /** `if current_part: parts.append(current_part)` */
  function Flush(parts: seq<string>, current: string): seq<string> {
    if current != [] then parts + [current] else parts
  }

  /**
   * One character of the `while` loop of `colorize_command`, other than a
   * `#` outside quotes: a quote opens or closes a quoted part, whitespace
   * outside quotes becomes a part of its own, anything else extends the
   * current part.
   */
  function Step(c: char, st: Scan): Scan {
    if c == '"' || c == '\'' then
      if st.quote.None? then Scan(Some(c), Flush(st.parts, st.current), [c])
      else if c == st.quote.value then Scan(None, st.parts + [st.current + [c]], [])
      else st.(current := st.current + [c])
    else if IsSpace(c) && st.quote.None? then Scan(None, Flush(st.parts, st.current) + [[c]], [])
    else st.(current := st.current + [c])
  }

  /** The loop from position `i`: a `#` outside quotes starts the comment, which runs to the end of the line. */
  function TokenizeFrom(line: string, i: nat, st: Scan): (r: (seq<string>, string))
    requires i <= |line|
    decreases |line| - i
  {
    if i == |line| then (Flush(st.parts, st.current), [])
    else if line[i] == '#' && st.quote.None? then (Flush(st.parts, st.current), line[i..])
    else TokenizeFrom(line, i + 1, Step(line[i], st))
  }

  /** The parts and the comment of a command line. */
  function Tokenize(line: string): (seq<string>, string) {
    TokenizeFrom(line, 0, Scan(None, [], []))
  }

  /** A part is non-empty, and one that starts with whitespace is a single whitespace character. */
  predicate PartOk(p: string) {
    p != [] && (IsSpace(p[0]) ==> |p| == 1)
  }

  ghost predicate ScanOk(line: string, i: nat, st: Scan) {
    i <= |line|
    && Concat(st.parts) + st.current == line[..i]
    && (forall k :: 0 <= k < |st.parts| ==> PartOk(st.parts[k]))
    && (st.current == [] || !IsSpace(st.current[0]))
    && (st.quote.Some? ==> st.current != [] && st.current[0] == st.quote.value)
  }

  lemma FlushOk(line: string, i: nat, st: Scan)
    requires ScanOk(line, i, st)
    ensures Concat(Flush(st.parts, st.current)) == line[..i]
    ensures forall k :: 0 <= k < |Flush(st.parts, st.current)| ==> PartOk(Flush(st.parts, st.current)[k])
  {
    if st.current != [] {
      ConcatAppend(st.parts, st.current);
    }
  }

  lemma AppendPart(parts: seq<string>, p: string)
    requires forall k :: 0 <= k < |parts| ==> PartOk(parts[k])
    requires PartOk(p)
    ensures forall k :: 0 <= k < |parts + [p]| ==> PartOk((parts + [p])[k])
    ensures Concat(parts + [p]) == Concat(parts) + p
  {
    ConcatAppend(parts, p);
  }

  lemma StepOk(line: string, i: nat, st: Scan)
    requires ScanOk(line, i, st) && i < |line|
    requires !(line[i] == '#' && st.quote.None?)
    ensures ScanOk(line, i + 1, Step(line[i], st))
  {
    var c := line[i];
    assert line[..i + 1] == line[..i] + [c];
    if c == '"' || c == '\'' {
      if st.quote.None? {
        FlushOk(line, i, st);
      } else if c == st.quote.value {
        AppendPart(st.parts, st.current + [c]);
      }
    } else if IsSpace(c) && st.quote.None? {
      FlushOk(line, i, st);
      AppendPart(Flush(st.parts, st.current), [c]);
    }
  }

  lemma {:induction false} TokenizeFromSpec(line: string, i: nat, st: Scan)
    requires ScanOk(line, i, st)
    ensures Concat(TokenizeFrom(line, i, st).0) + TokenizeFrom(line, i, st).1 == line
    ensures forall k :: 0 <= k < |TokenizeFrom(line, i, st).0| ==> PartOk(TokenizeFrom(line, i, st).0[k])
    ensures TokenizeFrom(line, i, st).1 == [] || TokenizeFrom(line, i, st).1[0] == '#'
    decreases |line| - i
  {
    if i == |line| {
      FlushOk(line, i, st);
      assert line[..i] == line;
    } else if line[i] == '#' && st.quote.None? {
      FlushOk(line, i, st);
      assert line[..i] + line[i..] == line;
    } else {
      StepOk(line, i, st);
      TokenizeFromSpec(line, i + 1, Step(line[i], st));
    }
  }

  /**
   * The tokenizer loses nothing: the parts followed by the comment spell
   * the line. Every part is non-empty, whitespace outside quotes is a part
   * of its own, and the comment is empty or starts with `#`.
   */
  lemma TokenizeSpec(line: string)
    ensures Concat(Tokenize(line).0) + Tokenize(line).1 == line
    ensures forall k :: 0 <= k < |Tokenize(line).0| ==> PartOk(Tokenize(line).0[k])
    ensures Tokenize(line).1 == [] || Tokenize(line).1[0] == '#'
  {
    TokenizeFromSpec(line, 0, Scan(None, [], []));
  }

  /** The splitting loop of `colorize_command`. */
  method SplitCommand(line: string) returns (parts: seq<string>, comment: string)
    ensures (parts, comment) == Tokenize(line)
  {
    var quote: Option<char> := None;
    parts := [];
    var current: string := [];
    comment := [];
    var i := 0;
    while i < |line|
      invariant 0 <= i <= |line|
      invariant comment == []
      invariant TokenizeFrom(line, i, Scan(quote, parts, current)) == Tokenize(line)
    {
      var c := line[i];
      if c == '"' || c == '\'' {
        if quote.None? {
          if current != [] {
            parts := parts + [current];
            current := [];
          }
          quote := Some(c);
          current := [c];
        } else if c == quote.value {
          current := current + [c];
          parts := parts + [current];
          current := [];
          quote := None;
        } else {
          current := current + [c];
        }
      } else if c == '#' && quote.None? {
        if current != [] {
          parts := parts + [current];
          current := [];
        }
        comment := line[i..];
        break;
      } else if IsSpace(c) && quote.None? {
        if current != [] {
          parts := parts + [current];
          current := [];
        }
        parts := parts + [[c]];
      } else {
        current := current + [c];
      }
      i := i + 1;
    }
    if current != [] {
      parts := parts + [current];
    }
  }

  // ------------------------------------------------------------- colours

  /** `▶`, the marker of a command line in the cheat sheets. */
  const Marker: char := '\U{25B6}'

  /** `➤`, what `colorize_command` shows in place of `▶`. */
  const ShownArrow: char := '\U{27A4}'

  /** `part.replace('▶', …)` with the colour codes around the replacement left out. */
  function SwapArrows(s: string, arrow: char): (r: string)
    ensures |r| == |s|
    ensures forall k :: 0 <= k < |s| ==> r[k] == if s[k] == Marker then arrow else s[k]
  {
    if s == [] then [] else [if s[0] == Marker then arrow else s[0]] + SwapArrows(s[1..], arrow)
  }

  lemma SwapArrowsConcat(a: string, b: string, arrow: char)
    ensures SwapArrows(a + b, arrow) == SwapArrows(a, arrow) + SwapArrows(b, arrow)
  {
  }

  /** The colour a part of a command line is shown in. */
  datatype Style = Whitespace | CommandName | Variable | Quoted | Flag | Unstyled

  /** `part.isspace()` */
  predicate IsSpacePart(p: string) {
    p != [] && AllSpace(p)
  }

  /**
   * The colour rules of `colorize_command`, tried in order: whitespace
   * stays plain, the first word that is not an option is the command, then
   * `$` variables, quoted strings and `-` options.
   */
  function StyleOf(part: string, first: bool): Style {
    if IsSpacePart(part) then Whitespace
    else if first && !StartsWith(part, "-") then CommandName
    else if StartsWith(part, "$") then Variable
    else if (StartsWith(part, "\"") && EndsWith(part, "\"")) || (StartsWith(part, "'") && EndsWith(part, "'")) then Quoted
    else if StartsWith(part, "-") then Flag
    else Unstyled
  }

  /** The text of the styled segments, in order. */
  function SegmentText(segs: seq<(Style, string)>): string {
    if segs == [] then [] else SegmentText(segs[..|segs| - 1]) + segs[|segs| - 1].1
  }

  /** What a coloured line reads as once its colour codes are removed. */
  function Colorized(line: string, arrow: char): string {
    SwapArrows(Concat(Tokenize(line).0), arrow) + Tokenize(line).1
  }

  /**
   * `colorize_command` (with `arrow` the character shown for `▶`): one
   * segment per part, arrows replaced in its text, styled by the rules of
   * `StyleOf` where "first word" means that no segment before it is the
   * command (`StylesOk`); so at most one segment is the command. The segments and the
   * comment read as `Colorized(line, arrow)`.
   */
  method ColorizeCommand(line: string, arrow: char) returns (segments: seq<(Style, string)>, comment: string)
    ensures |segments| == |Tokenize(line).0| && comment == Tokenize(line).1
    ensures forall m :: 0 <= m < |segments| ==> segments[m].1 == SwapArrows(Tokenize(line).0[m], arrow)
    ensures StylesOk(segments)
    ensures forall a, b :: 0 <= a < b < |segments| && segments[a].0 == CommandName ==> segments[b].0 != CommandName
    ensures SegmentText(segments) + comment == Colorized(line, arrow)
  {
    var parts;
    parts, comment := SplitCommand(line);
    var marked := MarkArrows(parts, arrow);
    segments := StyleParts(marked, parts, arrow);
    AtMostOneCommand(segments);
  }

  /** The loop that replaces the arrows of every part, in place. */
  method MarkArrows(original: seq<string>, arrow: char) returns (parts: seq<string>)
    ensures |parts| == |original|
    ensures forall m :: 0 <= m < |parts| ==> parts[m] == SwapArrows(original[m], arrow)
  {
    parts := original;
    for k := 0 to |parts|
      invariant |parts| == |original|
      invariant forall m :: 0 <= m < k ==> parts[m] == SwapArrows(original[m], arrow)
      invariant forall m :: k <= m < |parts| ==> parts[m] == original[m]
    {
      if Marker in parts[k] {
        parts := parts[k := SwapArrows(parts[k], arrow)];
      } else {
        assert SwapArrows(parts[k], arrow) == parts[k];
      }
    }
  }

  /** No segment before position `m` is the command. */
  ghost predicate NoCommandBefore(segs: seq<(Style, string)>, m: nat) {
    forall q :: 0 <= q < m && q < |segs| ==> segs[q].0 != CommandName
  }

  /** Every segment is styled by `StyleOf`, where "first word" means no command before it. */
  ghost predicate StylesOk(segs: seq<(Style, string)>) {
    forall m :: 0 <= m < |segs| ==> segs[m].0 == StyleOf(segs[m].1, NoCommandBefore(segs, m))
  }

  lemma StylesOkAppend(segs: seq<(Style, string)>, style: Style, part: string, first: bool)
    requires StylesOk(segs)
    requires first <==> NoCommandBefore(segs, |segs|)
    requires style == StyleOf(part, first)
    ensures StylesOk(segs + [(style, part)])
    ensures (first && style != CommandName) <==> NoCommandBefore(segs + [(style, part)], |segs| + 1)
  {
    var segs' := segs + [(style, part)];
    forall m | 0 <= m <= |segs| ensures NoCommandBefore(segs', m) <==> NoCommandBefore(segs, m) {
      assert forall q :: 0 <= q < m ==> segs'[q] == segs[q];
    }
    assert segs'[|segs|] == (style, part);
    if NoCommandBefore(segs', |segs| + 1) {
      assert NoCommandBefore(segs', |segs|);
    }
    forall m | 0 <= m < |segs'| ensures segs'[m].0 == StyleOf(segs'[m].1, NoCommandBefore(segs', m)) {
      if m < |segs| {
        assert segs'[m] == segs[m];
      }
    }
  }

  /** Only one part can be shown as the command. */
  lemma AtMostOneCommand(segs: seq<(Style, string)>)
    requires StylesOk(segs)
    ensures forall a, b :: 0 <= a < b < |segs| && segs[a].0 == CommandName ==> segs[b].0 != CommandName
  {
    forall a, b | 0 <= a < b < |segs| && segs[a].0 == CommandName ensures segs[b].0 != CommandName {
      assert !NoCommandBefore(segs, b);
    }
  }

  /** The first `k` segments carry the first `k` parts. */
  ghost predicate CarriesParts(segments: seq<(Style, string)>, parts: seq<string>, k: nat) {
    |segments| == k <= |parts| && forall m :: 0 <= m < k ==> segments[m].1 == parts[m]
  }

  lemma CarriesPartsStep(segments: seq<(Style, string)>, parts: seq<string>, k: nat, style: Style)
    requires CarriesParts(segments, parts, k) && k < |parts|
    ensures CarriesParts(segments + [(style, parts[k])], parts, k + 1)
  {
    var next := segments + [(style, parts[k])];
    assert forall m :: 0 <= m < k ==> next[m] == segments[m];
  }

  /** The loop that picks the style of every part, tracking whether the command was seen. */
  method StyleParts(parts: seq<string>, ghost original: seq<string>, arrow: char) returns (segments: seq<(Style, string)>)
    requires |parts| == |original|
    requires forall m :: 0 <= m < |parts| ==> parts[m] == SwapArrows(original[m], arrow)
    ensures |segments| == |parts|
    ensures forall m :: 0 <= m < |segments| ==> segments[m].1 == parts[m]
    ensures StylesOk(segments)
    ensures SegmentText(segments) == SwapArrows(Concat(original), arrow)
  {
    segments := [];
    var isFirstWord := true;
    for k := 0 to |parts|
      invariant CarriesParts(segments, parts, k)
      invariant isFirstWord <==> NoCommandBefore(segments, k)
      invariant StylesOk(segments)
      invariant SegmentText(segments) == SwapArrows(Concat(original[..k]), arrow)
    {
      var part := parts[k];
      var style := StyleOf(part, isFirstWord);
      StylesOkAppend(segments, style, part, isFirstWord);
      SegmentStep(segments, style, part, original, k, arrow);
      CarriesPartsStep(segments, parts, k, style);
      if style == CommandName {
        isFirstWord := false;
      }
      segments := segments + [(style, part)];
    }
    assert original[..|parts|] == original;
  }

  lemma SegmentStep(segments: seq<(Style, string)>, style: Style, part: string, original: seq<string>, k: nat, arrow: char)
    requires k < |original| && part == SwapArrows(original[k], arrow)
    requires SegmentText(segments) == SwapArrows(Concat(original[..k]), arrow)
    ensures SegmentText(segments + [(style, part)]) == SwapArrows(Concat(original[..k + 1]), arrow)
  {
    assert (segments + [(style, part)])[..|segments|] == segments;
    assert original[..k + 1] == original[..k] + [original[k]];
    ConcatAppend(original[..k], original[k]);
    SwapArrowsConcat(Concat(original[..k]), original[k], arrow);
  }

  /**
   * Colouring changes no character but the arrows, and none of those
   * outside the comment: the coloured text has the line's length, its
   * whitespace in the same places, and with `▶` kept as is it is the line.
   */
  lemma ColorizedSpec(line: string, arrow: char)
    ensures var n := |line| - |Tokenize(line).1|;
            0 <= n <= |line| && Colorized(line, arrow) == SwapArrows(line[..n], arrow) + line[n..]
    ensures |Colorized(line, arrow)| == |line|
    ensures !IsSpace(arrow) ==> forall k :: 0 <= k < |line| ==> (IsSpace(Colorized(line, arrow)[k]) <==> IsSpace(line[k]))
    ensures Colorized(line, Marker) == line
  {
    TokenizeSpec(line);
    var (parts, comment) := Tokenize(line);
    var n := |line| - |comment|;
    assert line[..n] == Concat(parts) && line[n..] == comment;
    var r := SwapArrows(line[..n], Marker);
    assert r == line[..n];
  }

  /** A line with a non-blank character colours to a non-blank line. */
  lemma ColorizedNotBlank(line: string)
    requires !AllSpace(line)
    ensures !AllSpace(Colorized(line, ShownArrow))
  {
    ColorizedSpec(line, ShownArrow);
    var k :| 0 <= k < |line| && !IsSpace(line[k]);
    assert !IsSpace(Colorized(line, ShownArrow)[k]);
  }

  // ------------------------------------------------------- search results

  /** `re.match(r'\[\+\].*\[\+\]', s)`: `[+]` at the start and again later on the first line. */
  predicate PlusPair(s: string) {
    StartsWith(s, "[+]") && Occurs(Before(s[3..], "\n"), "[+]")
  }

  /** `line.split('[*]')[1]`: the text between the first `[*]` and the next one or the end. */
  function ToolField(line: string): string {
    Before(After(line, "[*]"), "[*]")
  }

  /** `line.strip().startswith('*')`: the first non-space character is `*`. */
  predicate StarLine(line: string) {
    line != [] && (line[0] == '*' || (IsSpace(line[0]) && StarLine(line[1..])))
  }

  lemma {:induction false} StarLineIsStrip(line: string)
    ensures StarLine(line) <==> StartsWith(Strip(line), "*")
  {
    if line != [] {
      if IsSpace(line[0]) {
        StarLineIsStrip(line[1..]);
        assert LStrip(line) == LStrip(line[1..]);
      } else {
        assert LStrip(line) == line;
        var t := TrailingSpace(line);
        TrailingSpaceAll(line);
        assert t > 0;
        assert Strip(line)[0] == line[0];
      }
    }
  }

  /** `s.lstrip(c)` */
  function LStripChar(s: string, c: char): (r: string)
    ensures r != [] ==> r[0] != c
  {
    if s != [] && s[0] == c then LStripChar(s[1..], c) else s
  }

  /** What every header line starts with: `[+] ═`. */
  const HeaderStart: string := "[+] \U{2550}"

  /** The separator in front of the commands of a tool, with or without its category. */
  function ToolHeader(tool: string, category: string, categoryMode: bool): string {
    if categoryMode then "[+] \U{2550}\U{2550}\U{2550}\U{2550}\U{2550}\U{2550}\U{2550}\U{2550}[ " + tool + " ]\U{2550}\U{2550}\U{2550}\U{2550}\U{2550}\U{2550}\U{2550}\U{2550}[+]\n"
    else "[+] \U{2550}\U{2550}[ " + tool + " ]\U{2550}\U{2550}[+]\U{2550}\U{2550}[ " + category + " ]\U{2550}\U{2550}[+]\n"
  }

  /** The separator of a `*` subtitle line. */
  function SubtitleHeader(subtitle: string): string {
    "[+] \U{2550}\U{2550}[ " + subtitle + " ]\U{2550}\U{2550}[+]\n"
  }

  /** `tool_to_category.get(tool, "No category")` */
  function CategoryOf(toolToCategory: map<string, string>, tool: string): string {
    if tool in toolToCategory then toolToCategory[tool] else "No category"
  }

  /**
   * A line of the formatted results: the blank separator, a header, or the
   * coloured rendering of a result line (kept as the line it renders).
   */
  datatype OutLine = Separator | Header(text: string) | Command(source: string)

  /** The text of a formatted line, colour codes left out. */
  function Text(o: OutLine): string {
    match o
    case Separator => ""
    case Header(t) => t
    case Command(line) => Colorized(line, ShownArrow)
  }

  function Texts(os: seq<OutLine>): (r: seq<string>)
    ensures |r| == |os| && forall k :: 0 <= k < |os| ==> r[k] == Text(os[k])
  {
    if os == [] then [] else [Text(os[0])] + Texts(os[1..])
  }

  /** A line that ends the block of lines after a `▶` command line. */
  predicate BlockStop(line: string) {
    StartsWith(line, "[*]") || StartsWith(line, "[+]") || StarLine(line) || Marker in line
  }

  /** The first position from `j` on whose line ends the block, or the end of the results. */
  function BlockEnd(results: seq<string>, j: nat): (e: nat)
    requires j <= |results|
    ensures j <= e <= |results|
    decreases |results| - j
  {
    if j == |results| || BlockStop(results[j]) then j else BlockEnd(results, j + 1)
  }

  /** The coloured non-blank lines of `results[a..b]`, in order. */
  function BlockLines(results: seq<string>, a: nat, b: nat): (r: seq<OutLine>)
    requires a <= b <= |results|
    ensures |r| <= b - a
    decreases b
  {
    if b == a then []
    else BlockLines(results, a, b - 1) + (if !AllSpace(results[b - 1]) then [Command(results[b - 1])] else [])
  }

  /**
   * What `format_results` makes of the line at position `i`, and where it
   * goes on. Lines with a lone `[+]` are dropped; a `[*] tool` line becomes
   * a blank line and the tool's header (nothing when the name is empty); a
   * `*` line a blank line and a subtitle header; a `▶` line its coloured
   * self, the coloured non-blank lines of its block and a blank line; any
   * other non-blank line its coloured self and a blank line.
   */
  function LineOutput(results: seq<string>, i: nat, toolToCategory: map<string, string>, categoryMode: bool): (r: (seq<OutLine>, nat))
    requires i < |results|
    ensures i < r.1 <= |results|
  {
    var line := results[i];
    if Occurs(line, "[+]") && !PlusPair(Strip(line)) then ([], i + 1)
    else if Occurs(line, "[*]") then
      var name := Strip(ToolField(line));
      if name == [] then ([], i + 1)
      else ([Separator, Header(ToolHeader(name, CategoryOf(toolToCategory, name), categoryMode))], i + 1)
    else if StarLine(line) then
      ([Separator, Header(SubtitleHeader(Strip(LStripChar(Strip(line), '*'))))], i + 1)
    else if Marker in line then
      var e := BlockEnd(results, i + 1);
      ([Command(line)] + BlockLines(results, i + 1, e) + [Separator], e)
    else if !AllSpace(line) then ([Command(line), Separator], i + 1)
    else ([], i + 1)
  }

  /** `format_results` from position `i` on. */
  function FormatFrom(results: seq<string>, i: nat, toolToCategory: map<string, string>, categoryMode: bool): seq<OutLine>
    requires i <= |results|
    decreases |results| - i
  {
    if i == |results| then []
    else
      var (chunk, next) := LineOutput(results, i, toolToCategory, categoryMode);
      chunk + FormatFrom(results, next, toolToCategory, categoryMode)
  }

  lemma FormatFromStep(results: seq<string>, i: nat, toolToCategory: map<string, string>, categoryMode: bool)
    requires i < |results|
    ensures FormatFrom(results, i, toolToCategory, categoryMode)
      == LineOutput(results, i, toolToCategory, categoryMode).0 + FormatFrom(results, LineOutput(results, i, toolToCategory, categoryMode).1, toolToCategory, categoryMode)
  {
  }

  /** `format_results`: the loop over the result lines. */
  method FormatResults(results: seq<string>, toolToCategory: map<string, string>, categoryMode: bool) returns (formatted: seq<OutLine>)
    ensures formatted == FormatFrom(results, 0, toolToCategory, categoryMode)
  {
    formatted := [];
    var i := 0;
    while i < |results|
      invariant 0 <= i <= |results|
      invariant formatted + FormatFrom(results, i, toolToCategory, categoryMode) == FormatFrom(results, 0, toolToCategory, categoryMode)
      decreases |results| - i
    {
      formatted, i := FormatNext(formatted, results, i, toolToCategory, categoryMode);
    }
  }

  /** One pass of that loop: the output of the line at `i` is appended, and the loop goes on where it says. */
  method FormatNext(formatted: seq<OutLine>, results: seq<string>, i: nat, toolToCategory: map<string, string>, categoryMode: bool)
      returns (formatted': seq<OutLine>, next: nat)
    requires i < |results|
    ensures i < next <= |results|
    ensures formatted' + FormatFrom(results, next, toolToCategory, categoryMode) == formatted + FormatFrom(results, i, toolToCategory, categoryMode)
  {
    var chunk;
    chunk, next := FormatLine(results, i, toolToCategory, categoryMode);
    FormatFromStep(results, i, toolToCategory, categoryMode);
    formatted' := formatted + chunk;
  }

  /** The body of the loop of `format_results`, one branch per kind of line. */
  method FormatLine(results: seq<string>, i: nat, toolToCategory: map<string, string>, categoryMode: bool) returns (chunk: seq<OutLine>, next: nat)
    requires i < |results|
    ensures (chunk, next) == LineOutput(results, i, toolToCategory, categoryMode)
  {
    var line := results[i];
    chunk, next := [], i + 1;
    if Occurs(line, "[+]") && !PlusPair(Strip(line)) {
    } else if Occurs(line, "[*]") {
      var name := Strip(ToolField(line));
      if name != [] {
        chunk := [Separator, Header(ToolHeader(name, CategoryOf(toolToCategory, name), categoryMode))];
      }
    } else if StarLine(line) {
      var subtitle := Strip(LStripChar(Strip(line), '*'));
      chunk := [Separator, Header(SubtitleHeader(subtitle))];
    } else if Marker in line {
      var block;
      block, next := CommandBlock(results, i + 1);
      chunk := [Command(line)] + block + [Separator];
    } else if !AllSpace(line) {
      chunk := [Command(line), Separator];
    }
  }

  /** The inner loop of `format_results`: the block of lines after a command line. */
  method CommandBlock(results: seq<string>, start: nat) returns (block: seq<OutLine>, j: nat)
    requires start <= |results|
    ensures j == BlockEnd(results, start)
    ensures block == BlockLines(results, start, j)
  {
    block := [];
    j := start;
    while j < |results|
      invariant start <= j <= |results|
      invariant block == BlockLines(results, start, j)
      invariant BlockEnd(results, start) == BlockEnd(results, j)
      decreases |results| - j
    {
      var next := results[j];
      if BlockStop(next) {
        break;
      }
      if !AllSpace(next) {
        block := block + [Command(next)];
      }
      j := j + 1;
    }
  }

  /** A line `format_results` can produce from `results`. */
  ghost predicate OutLineOk(results: seq<string>, o: OutLine) {
    match o
    case Separator => true
    case Header(t) => StartsWith(t, HeaderStart)
    case Command(line) => line in results && !AllSpace(line)
  }

  lemma HeadersStart(tool: string, category: string, categoryMode: bool, subtitle: string)
    ensures StartsWith(ToolHeader(tool, category, categoryMode), HeaderStart)
    ensures StartsWith(SubtitleHeader(subtitle), HeaderStart)
  {
    var h := ToolHeader(tool, category, categoryMode);
    assert h[..5] == HeaderStart;
    var g := SubtitleHeader(subtitle);
    assert g[..5] == HeaderStart;
  }

  lemma {:induction false} BlockLinesOk(results: seq<string>, a: nat, b: nat)
    requires a <= b <= |results|
    ensures forall o :: o in BlockLines(results, a, b) ==> OutLineOk(results, o)
    decreases b
  {
    if b > a {
      BlockLinesOk(results, a, b - 1);
    }
  }

  /** Every line `LineOutput` produces is a line the formatter can produce. */
  lemma LineOutputOk(results: seq<string>, i: nat, toolToCategory: map<string, string>, categoryMode: bool)
    requires i < |results|
    ensures forall o :: o in LineOutput(results, i, toolToCategory, categoryMode).0 ==> OutLineOk(results, o)
  {
    var line := results[i];
    if Occurs(line, "[+]") && !PlusPair(Strip(line)) {
    } else if Occurs(line, "[*]") {
      ToolLineOk(results, i, toolToCategory, categoryMode);
    } else if StarLine(line) {
      SubtitleLineOk(results, i, toolToCategory, categoryMode);
    } else if Marker in line {
      CommandLineOk(results, i, toolToCategory, categoryMode);
    }
  }

  lemma ToolLineOk(results: seq<string>, i: nat, toolToCategory: map<string, string>, categoryMode: bool)
    requires i < |results| && !(Occurs(results[i], "[+]") && !PlusPair(Strip(results[i]))) && Occurs(results[i], "[*]")
    ensures forall o :: o in LineOutput(results, i, toolToCategory, categoryMode).0 ==> OutLineOk(results, o)
  {
    var name := Strip(ToolField(results[i]));
    HeadersStart(name, CategoryOf(toolToCategory, name), categoryMode, []);
  }

  lemma SubtitleLineOk(results: seq<string>, i: nat, toolToCategory: map<string, string>, categoryMode: bool)
    requires i < |results| && !(Occurs(results[i], "[+]") && !PlusPair(Strip(results[i]))) && !Occurs(results[i], "[*]")
    requires StarLine(results[i])
    ensures forall o :: o in LineOutput(results, i, toolToCategory, categoryMode).0 ==> OutLineOk(results, o)
  {
    HeadersStart([], [], true, Strip(LStripChar(Strip(results[i]), '*')));
  }

  lemma CommandLineOk(results: seq<string>, i: nat, toolToCategory: map<string, string>, categoryMode: bool)
    requires i < |results| && !(Occurs(results[i], "[+]") && !PlusPair(Strip(results[i]))) && !Occurs(results[i], "[*]")
    requires !StarLine(results[i]) && Marker in results[i]
    ensures forall o :: o in LineOutput(results, i, toolToCategory, categoryMode).0 ==> OutLineOk(results, o)
  {
    var line := results[i];
    var e := BlockEnd(results, i + 1);
    BlockLinesOk(results, i + 1, e);
    assert !AllSpace(line) by {
      var k :| 0 <= k < |line| && line[k] == Marker;
      assert !IsSpace(line[k]);
    }
  }

  /**
   * Every line of the formatted results is a blank separator, a header, or
   * the coloured rendering of a non-blank result line.
   */
  lemma {:induction false} FormatFromOk(results: seq<string>, i: nat, toolToCategory: map<string, string>, categoryMode: bool)
    requires i <= |results|
    ensures forall o :: o in FormatFrom(results, i, toolToCategory, categoryMode) ==> OutLineOk(results, o)
    decreases |results| - i
  {
    if i < |results| {
      LineOutputOk(results, i, toolToCategory, categoryMode);
      FormatFromOk(results, LineOutput(results, i, toolToCategory, categoryMode).1, toolToCategory, categoryMode);
    }
  }

  /** The blank formatted lines are exactly the separators. */
  lemma OutLineBlank(results: seq<string>, o: OutLine)
    requires OutLineOk(results, o)
    ensures AllSpace(Text(o)) <==> o == Separator
  {
    match o
    case Separator =>
    case Header(t) =>
      assert t[0] == '[';
    case Command(line) =>
      ColorizedNotBlank(line);
  }

  /** A blank result line contributes nothing. */
  lemma BlankLineSkipped(results: seq<string>, i: nat, toolToCategory: map<string, string>, categoryMode: bool)
    requires i < |results| && AllSpace(results[i])
    ensures FormatFrom(results, i, toolToCategory, categoryMode) == FormatFrom(results, i + 1, toolToCategory, categoryMode)
  {
    var line := results[i];
    BlankHasNoText(line, "[+]");
    BlankHasNoText(line, "[*]");
    BlankNotStar(line);
    assert Marker !in line;
  }

  lemma {:induction false} BlankNotStar(line: string)
    requires AllSpace(line)
    ensures !StarLine(line)
    decreases |line|
  {
    if line != [] {
      BlankNotStar(line[1..]);
    }
  }

  lemma {:induction false} BlankHasNoText(line: string, sub: string)
    requires AllSpace(line) && sub != [] && !IsSpace(sub[0])
    ensures !Occurs(line, sub)
    decreases |line|
  {
    if |sub| <= |line| {
      assert line[..|sub|][0] == line[0];
      BlankHasNoText(line[1..], sub);
    }
  }

  /** A result line with none of the markers `[+]`, `[*]`, a leading `*` or `▶`. */
  predicate PlainLine(line: string) {
    !Occurs(line, "[+]") && !Occurs(line, "[*]") && !StarLine(line) && Marker !in line
  }

  /** Reference: plain lines each become their coloured rendering and a separator, blank ones nothing. */
  function PlainFormat(lines: seq<string>): seq<OutLine> {
    if lines == [] then []
    else (if AllSpace(lines[0]) then [] else [Command(lines[0]), Separator]) + PlainFormat(lines[1..])
  }

  /** On results made of plain lines the formatter is the reference. */
  lemma {:induction false} FormatPlain(results: seq<string>, i: nat, toolToCategory: map<string, string>, categoryMode: bool)
    requires i <= |results|
    requires forall k :: i <= k < |results| ==> PlainLine(results[k])
    ensures FormatFrom(results, i, toolToCategory, categoryMode) == PlainFormat(results[i..])
    decreases |results| - i
  {
    if i < |results| {
      assert results[i..][1..] == results[i + 1..];
      FormatPlain(results, i + 1, toolToCategory, categoryMode);
    }
  }

  // ---------------------------------------------------- blank-line cleanup

  predicate NotBlank(line: string) {
    !AllSpace(line)
  }

  /**
   * The cleanup of `display_results`: a blank line is kept only when
   * something was kept already and the line before it is not blank.
   */
  function Squeeze(lines: seq<string>): seq<string> {
    if lines == [] then []
    else
      var prev := lines[..|lines| - 1];
      var line := lines[|lines| - 1];
      var kept := Squeeze(prev);
      if NotBlank(line) || ((prev == [] || NotBlank(prev[|prev| - 1])) && kept != []) then kept + [line]
      else kept
  }

  /** The cleanup loop of `display_results`, tracking whether the last line was blank. */
  method CleanBlankLines(formatted: seq<string>) returns (cleaned: seq<string>)
    ensures cleaned == Squeeze(formatted)
  {
    cleaned := [];
    var lastWasEmpty := false;
    for k := 0 to |formatted|
      invariant cleaned == Squeeze(formatted[..k])
      invariant lastWasEmpty <==> k > 0 && !NotBlank(formatted[k - 1])
    {
      var line := formatted[k];
      assert formatted[..k + 1][..k] == formatted[..k];
      if !NotBlank(line) {
        if !lastWasEmpty && cleaned != [] {
          cleaned := cleaned + [line];
        }
        lastWasEmpty := true;
      } else {
        cleaned := cleaned + [line];
        lastWasEmpty := false;
      }
    }
    assert formatted[..|formatted|] == formatted;
  }

  /**
   * The cleaned lines keep every non-blank line in order, start with a
   * non-blank line and never have two blank lines in a row.
   */
  lemma SqueezeSpec(lines: seq<string>)
    ensures var r := Squeeze(lines); Keep(r, NotBlank) == Keep(lines, NotBlank)
    ensures var r := Squeeze(lines); r != [] ==> NotBlank(r[0])
    ensures var r := Squeeze(lines); forall k :: 0 <= k < |r| - 1 ==> NotBlank(r[k]) || NotBlank(r[k + 1])
    ensures var r := Squeeze(lines); r != [] && !NotBlank(r[|r| - 1]) ==> !NotBlank(lines[|lines| - 1])
    ensures var r := Squeeze(lines); lines != [] && NotBlank(lines[|lines| - 1]) ==> r != [] && r[|r| - 1] == lines[|lines| - 1]
  {
    SqueezeKeeps(lines);
    SqueezeShape(lines);
  }

  lemma {:induction false} SqueezeKeeps(lines: seq<string>)
    ensures Keep(Squeeze(lines), NotBlank) == Keep(lines, NotBlank)
    decreases |lines|
  {
    if lines != [] {
      var prev := lines[..|lines| - 1];
      var line := lines[|lines| - 1];
      assert lines == prev + [line];
      SqueezeKeeps(prev);
      KeepAppend(prev, line, NotBlank);
      var kept := Squeeze(prev);
      if Squeeze(lines) == kept + [line] {
        KeepAppend(kept, line, NotBlank);
      }
    }
  }

  lemma {:induction false} SqueezeShape(lines: seq<string>)
    ensures var r := Squeeze(lines); r != [] ==> NotBlank(r[0])
    ensures var r := Squeeze(lines); forall k :: 0 <= k < |r| - 1 ==> NotBlank(r[k]) || NotBlank(r[k + 1])
    ensures var r := Squeeze(lines); r != [] && !NotBlank(r[|r| - 1]) ==> !NotBlank(lines[|lines| - 1])
    ensures var r := Squeeze(lines); lines != [] && NotBlank(lines[|lines| - 1]) ==> r != [] && r[|r| - 1] == lines[|lines| - 1]
    decreases |lines|
  {
    if lines != [] {
      var prev := lines[..|lines| - 1];
      var line := lines[|lines| - 1];
      SqueezeShape(prev);
      var kept := Squeeze(prev);
      var r := Squeeze(lines);
      if r == kept + [line] {
        assert (kept + [line])[..|kept|] == kept;
        forall k | 0 <= k < |r| - 1 ensures NotBlank(r[k]) || NotBlank(r[k + 1]) {
          assert r[k] == kept[k];
          if k + 1 < |kept| { assert r[k + 1] == kept[k + 1]; }
        }
      }
    }
  }

  // ------------------------------------------------------- column layout

  function Min(a: int, b: int): int { if a <= b then a else b }
  function Max(a: int, b: int): int { if a >= b then a else b }

  /** The longest item without escape codes, plus 6; 10 when there are none. */
  function MaxItemLength(items: seq<string>): (n: nat)
    ensures items == [] ==> n == 10
    ensures forall k :: 0 <= k < |items| ==> |StripAnsiCodes(items[k])| + 6 <= n
    ensures items != [] ==> exists k :: 0 <= k < |items| && n == |StripAnsiCodes(items[k])| + 6
  {
    if items == [] then 10
    else if |items| == 1 then |StripAnsiCodes(items[0])| + 6
    else
      var rest := MaxItemLength(items[1..]);
      var n := Max(|StripAnsiCodes(items[0])| + 6, rest);
      assert forall k :: 1 <= k < |items| ==> items[k] == items[1..][k - 1];
      n
  }

  /** The grid the items are laid out in. */
  datatype Layout = Layout(numColumns: nat, colWidth: int, rows: nat)

  datatype LayoutError = ZeroDivisionError

  /** `(n + d - 1) // d`: the least number of rows of `d` that hold `n`. */
  lemma CeilDiv(n: nat, d: nat)
    requires d > 0
    ensures ((n + d - 1) / d) * d >= n
    ensures ((n + d - 1) / d - 1) * d < n
  {
    var q := (n + d - 1) / d;
    var m := (n + d - 1) % d;
    assert n + d - 1 == q * d + m;
    assert q * d - d == (q - 1) * d;
  }

  /**
   * The layout arithmetic of `display_in_columns` (not compact). With no
   * items the number of columns is 0 and the division by it raises
   * ZeroDivisionError, before the "no items" message can be printed.
   */
  function ColumnLayoutAsWritten(total: nat, maxItemLength: nat, termWidth: int, categories: bool): (r: Result<Layout, LayoutError>)
    ensures r.Err? <==> total == 0
    ensures r.Ok? ==> 1 <= r.value.numColumns <= total && (categories ==> r.value.numColumns <= 8)
  {
    var minColWidth := maxItemLength + 4;
    var maxColumns := if categories then Min(8, total) else total;
    var numColumns := Min(maxColumns, Max(1, termWidth / minColWidth));
    if numColumns <= 0 then Err(ZeroDivisionError)
    else Ok(Layout(numColumns, Max(minColWidth, (termWidth - 20) / numColumns), (total + numColumns - 1) / numColumns))
  }

  /** The listing of no items fails, whatever the terminal. */
  lemma EmptyListingRaises(maxItemLength: nat, termWidth: int, categories: bool)
    ensures ColumnLayoutAsWritten(0, maxItemLength, termWidth, categories) == Err(ZeroDivisionError)
  {
  }

  /** The layout with at least one column, so that the "no items" message is reached. */
  function ColumnLayout(total: nat, maxItemLength: nat, termWidth: int, categories: bool): (r: Layout)
    ensures 1 <= r.numColumns && (categories ==> r.numColumns <= 8)
    ensures total > 0 ==> r.numColumns <= total
    ensures r.colWidth >= maxItemLength + 4
    ensures r.rows * r.numColumns >= total && (r.rows - 1) * r.numColumns < total
  {
    var minColWidth := maxItemLength + 4;
    var maxColumns := if categories then Min(8, total) else total;
    var numColumns := Max(1, Min(maxColumns, Max(1, termWidth / minColWidth)));
    CeilDiv(total, numColumns);
    Layout(numColumns, Max(minColWidth, (termWidth - 20) / numColumns), (total + numColumns - 1) / numColumns)
  }

  /** The two layouts agree whenever the one as written does not fail. */
  lemma ColumnLayoutAgrees(total: nat, maxItemLength: nat, termWidth: int, categories: bool)
    requires ColumnLayoutAsWritten(total, maxItemLength, termWidth, categories).Ok?
    ensures ColumnLayoutAsWritten(total, maxItemLength, termWidth, categories).value == ColumnLayout(total, maxItemLength, termWidth, categories)
  {
  }

  lemma MulSub(a: int, b: int, d: int)
    ensures (a - b) * d == a * d - b * d
  {
  }

  lemma {:induction false} MulAtLeast(a: nat, d: nat)
    requires a >= 1
    ensures a * d >= d
    decreases a
  {
    if a > 1 {
      MulAtLeast(a - 1, d);
      MulSub(a, 1, d);
    }
  }

  /** Quotient and remainder are unique: `n == q * d + m` with `m < d` gives `q == n / d`. */
  lemma DivModUnique(n: nat, d: nat, q: nat, m: nat)
    requires d > 0 && m < d && n == q * d + m
    ensures q == n / d && m == n % d
  {
    var q', m' := n / d, n % d;
    assert n == q' * d + m';
    if q < q' {
      MulSub(q', q, d);
      MulAtLeast(q' - q, d);
    } else if q > q' {
      MulSub(q, q', d);
      MulAtLeast(q - q', d);
    }
  }

  /** The cell of the matrix an item goes to, once the first `count` items are placed. */
  function CellAfter(items: seq<string>, rows: nat, r: nat, c: nat, count: nat): Option<(nat, string)> {
    var idx := c * rows + r;
    if idx < count && idx < |items| then Some((idx + 1, items[idx])) else None
  }

  /** Placing item `idx` changes exactly its own cell, row `idx % rows` of column `idx // rows`. */
  lemma CellStep(items: seq<string>, rows: nat, idx: nat, r: nat, c: nat)
    requires rows > 0 && r < rows && idx < |items|
    ensures CellAfter(items, rows, r, c, idx + 1)
         == if r == idx % rows && c == idx / rows then Some((idx + 1, items[idx])) else CellAfter(items, rows, r, c, idx)
  {
    assert idx == (idx / rows) * rows + idx % rows;
    if c * rows + r == idx {
      DivModUnique(idx, rows, c, r);
    }
  }

  /**
   * The matrix of `display_in_columns`: item `idx` (numbered from 1) in
   * row `idx % rows` of column `idx // rows` when that cell exists; the
   * other cells stay empty.
   */
  method FillMatrix(items: seq<string>, rows: nat, numColumns: nat) returns (matrix: array2<Option<(nat, string)>>)
    requires items == [] || rows > 0
    ensures fresh(matrix)
    ensures matrix.Length0 == rows && matrix.Length1 == numColumns
    ensures forall r, c :: 0 <= r < rows && 0 <= c < numColumns ==> matrix[r, c] == CellAfter(items, rows, r, c, |items|)
  {
    matrix := new Option<(nat, string)>[rows, numColumns]((_, _) => None);
    for idx := 0 to |items|
      invariant matrix.Length0 == rows && matrix.Length1 == numColumns
      invariant forall r, c :: 0 <= r < rows && 0 <= c < numColumns ==> matrix[r, c] == CellAfter(items, rows, r, c, idx)
    {
      assert rows > 0;
      var col := idx / rows;
      var row := idx % rows;
      assert row < rows;
      forall r, c | 0 <= r < rows && 0 <= c < numColumns {
        CellStep(items, rows, idx, r, c);
      }
      if row < rows && col < numColumns {
        matrix[row, col] := Some((idx + 1, items[idx]));
      }
    }
  }

  /** The cells hold the items in column-major order, each numbered by its position from 1. */
  lemma CellAfterSpec(items: seq<string>, rows: nat, r: nat, c: nat)
    requires r < rows
    ensures CellAfter(items, rows, r, c, |items|).Some? <==> c * rows + r < |items|
    ensures CellAfter(items, rows, r, c, |items|).Some? ==>
              CellAfter(items, rows, r, c, |items|).value == (c * rows + r + 1, items[c * rows + r])
  {
  }

  /**
   * With as many cells as items, as `ColumnLayout` guarantees, every item
   * finds its cell: its column `idx // rows` exists.
   */
  lemma EveryItemPlaced(rows: nat, cols: nat, total: nat, idx: nat)
    requires rows * cols >= total && idx < total
    ensures rows > 0 && idx / rows < cols
  {
    MulZero(rows, cols);
    var q := idx / rows;
    assert idx == q * rows + idx % rows;
    MulMono(q, cols, rows);
    assert cols * rows == rows * cols;
  }

  lemma MulZero(a: nat, b: nat)
    ensures a == 0 ==> a * b == 0
  {
  }

  lemma MulMono(a: nat, b: nat, d: nat)
    ensures a >= b ==> a * d >= b * d
  {
    if a > b {
      MulAtLeast(a - b, d);
      MulSub(a, b, d);
    }
  }

  // ---------------------------------------------------- prefix completers

  /** `normalize_text(word).lower() if word and normalize_text(word) else ""` */
  function CompletionWord(word: string): string {
    LowerStr(NormalizedOrEmpty(word))
  }

  /** The `.lower()` of `None` that a name without letters or digits reaches. */
  datatype CompletionError = AttributeError

  /** The item loop as written: `normalize_text(item).lower()` fails on an item that normalises to None. */
  function MatchItemsAsWritten(items: seq<string>, wn: string): (r: Result<seq<string>, CompletionError>)
  {
    if items == [] then Ok([])
    else
      match NormalizeText(items[0])
      case None => Err(AttributeError)
      case Some(n) =>
        var rest := MatchItemsAsWritten(items[1..], wn);
        if rest.Err? then rest
        else Ok((if StartsWith(LowerStr(n), wn) then [items[0]] else []) + rest.value)
  }

  /** The loop fails exactly when some item normalises to None. */
  lemma {:induction false} MatchItemsAsWrittenFails(items: seq<string>, wn: string)
    ensures MatchItemsAsWritten(items, wn).Err? <==> exists k :: 0 <= k < |items| && NormalizeText(items[k]).None?
  {
    if items != [] && NormalizeText(items[0]).Some? {
      var t := items[1..];
      MatchItemsAsWrittenFails(t, wn);
      assert MatchItemsAsWritten(items, wn).Err? <==> MatchItemsAsWritten(t, wn).Err?;
      if exists k :: 0 <= k < |t| && NormalizeText(t[k]).None? {
        var k :| 0 <= k < |t| && NormalizeText(t[k]).None?;
        assert items[k + 1] == t[k];
      }
      if exists k :: 0 <= k < |items| && NormalizeText(items[k]).None? {
        var k :| 0 <= k < |items| && NormalizeText(items[k]).None?;
        assert t[k - 1] == items[k];
      }
    }
  }

  /**
   * The completions of the category and tool prompts as written: `q`
   * first when the word is a prefix of it, then the matching items.
   */
  function PrefixCompletionsAsWritten(word: string, items: seq<string>): (r: Result<seq<string>, CompletionError>)
    ensures r.Err? <==> exists k :: 0 <= k < |items| && NormalizeText(items[k]).None?
  {
    var wn := CompletionWord(word);
    MatchItemsAsWrittenFails(items, wn);
    match MatchItemsAsWritten(items, wn)
    case Err(e) => Err(e)
    case Ok(ms) => Ok((if StartsWith("q", wn) then ["q"] else []) + ms)
  }

  /** An item matches when its normal form (or "") starts with the normalised word. */
  predicate ItemMatches(item: string, wn: string) {
    StartsWith(LowerStr(NormalizedOrEmpty(item)), wn)
  }

  /** The item loop with `None` read as "". */
  function MatchItems(items: seq<string>, wn: string): (r: seq<string>)
    ensures |r| <= |items|
  {
    if items == [] then []
    else (if ItemMatches(items[0], wn) then [items[0]] else []) + MatchItems(items[1..], wn)
  }

  /** The completions with items that normalise to None matched as "". */
  function PrefixCompletions(word: string, items: seq<string>): (r: seq<string>)
    ensures |r| <= |items| + 1
  {
    var wn := CompletionWord(word);
    (if StartsWith("q", wn) then ["q"] else []) + MatchItems(items, wn)
  }

  /** The matching items, in their order, and exactly those. */
  lemma {:induction false} MatchItemsSpec(items: seq<string>, wn: string)
    ensures MatchItems(items, wn) == Keep(items, x => ItemMatches(x, wn))
    ensures forall x :: x in MatchItems(items, wn) <==> x in items && ItemMatches(x, wn)
  {
    if items != [] {
      MatchItemsSpec(items[1..], wn);
      assert items == [items[0]] + items[1..];
    }
  }

  /**
   * `q` leads exactly when the normalised word is a prefix of it; then
   * come the items that match, in their order.
   */
  lemma PrefixCompletionsSpec(word: string, items: seq<string>)
    ensures var wn := CompletionWord(word);
            PrefixCompletions(word, items) == (if StartsWith("q", wn) then ["q"] else []) + Keep(items, x => ItemMatches(x, wn))
    ensures var wn := CompletionWord(word);
            forall x :: x != "q" ==> (x in PrefixCompletions(word, items) <==> x in items && ItemMatches(x, wn))
  {
    var wn := CompletionWord(word);
    MatchItemsSpec(items, wn);
  }

  /** Both completers agree wherever the one as written does not fail. */
  lemma {:induction false} MatchItemsAgree(items: seq<string>, wn: string)
    requires MatchItemsAsWritten(items, wn).Ok?
    ensures MatchItemsAsWritten(items, wn).value == MatchItems(items, wn)
  {
    if items != [] {
      MatchItemsAgree(items[1..], wn);
    }
  }

  lemma PrefixCompletionsAgree(word: string, items: seq<string>)
    requires PrefixCompletionsAsWritten(word, items).Ok?
    ensures PrefixCompletionsAsWritten(word, items).value == PrefixCompletions(word, items)
  {
    MatchItemsAgree(items, CompletionWord(word));
  }

  /**
   * `-` is a valid category name, yet with such a category the completer
   * as written fails on every word, the empty one included.
   */
  lemma DashCategoryRaises(word: string)
    ensures SanitizeName("-") == Ok("-")
    ensures PrefixCompletionsAsWritten(word, ["-"]) == Err(AttributeError)
  {
    var f := FoldChars(LowerStr("-"));
    assert LowerStr("-") == "-";
    assert f == "-";
    assert FilterChars(f, Kept) == [];
    assert NormalizeText("-") == None;
    assert Strip("-") == "-";
    assert FilterChars("-", IsNameChar) == "-";
  }
}
