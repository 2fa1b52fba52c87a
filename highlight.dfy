/**
 * `_style_text_with_highlights` of searchCommand/gtfsearch.py: the regular
 * expression matches of the highlight and no-colour patterns are merged
 * into disjoint intervals, the text is cut at every interval end, and
 * each piece gets the highlight style when a highlight interval and no
 * no-colour interval covers its first character.
 *
 * The matches (from `re.finditer`) are inputs; the styles are the two
 * values the function chooses between.
 */
module Highlight {
  import opened Sorting

  /** A half-open match interval `[start, end)`. */
  datatype Span = Span(start: nat, end: nat)

  /** Some span holds position `p`: `any(s <= p < e for s, e in spans)`. */
  predicate Covered(spans: seq<Span>, p: int) {
    exists k :: 0 <= k < |spans| && spans[k].start <= p < spans[k].end
  }

  ghost predicate SameCover(a: seq<Span>, b: seq<Span>) {
    forall p :: Covered(a, p) <==> Covered(b, p)
  }

  /** Every span is ordered and ends within `n`, as matches in a text of length `n` do. */
  predicate WellFormed(spans: seq<Span>, n: nat) {
    forall k :: 0 <= k < |spans| ==> spans[k].start <= spans[k].end <= n
  }

  /** Each span ends strictly before the next begins. */
  predicate Separated(spans: seq<Span>) {
    forall k :: 0 <= k < |spans| - 1 ==> spans[k].end < spans[k + 1].start
  }

  function Max(a: nat, b: nat): nat {
    if a >= b then a else b
  }

  /** `key=lambda x: x[0]` */
  function StartKey(m: Span): real {
    m.start as real
  }

  lemma CoveredPerm(a: seq<Span>, b: seq<Span>)
    requires multiset(a) == multiset(b)
    ensures SameCover(a, b)
  {
    forall p ensures Covered(a, p) ==> Covered(b, p) {
      if Covered(a, p) {
        var k :| 0 <= k < |a| && a[k].start <= p < a[k].end;
        assert a[k] in multiset(b);
        var j :| 0 <= j < |b| && b[j] == a[k];
      }
    }
    forall p ensures Covered(b, p) ==> Covered(a, p) {
      if Covered(b, p) {
        var k :| 0 <= k < |b| && b[k].start <= p < b[k].end;
        assert b[k] in multiset(a);
        var j :| 0 <= j < |a| && a[j] == b[k];
      }
    }
  }

  lemma CoveredSnoc(a: seq<Span>, x: Span, p: int)
    ensures Covered(a + [x], p) <==> Covered(a, p) || x.start <= p < x.end
  {
    if Covered(a, p) {
      var k :| 0 <= k < |a| && a[k].start <= p < a[k].end;
      assert (a + [x])[k] == a[k];
    }
    if Covered(a + [x], p) {
      var k :| 0 <= k < |a + [x]| && (a + [x])[k].start <= p < (a + [x])[k].end;
      if k < |a| {
        assert (a + [x])[k] == a[k];
      }
    }
    if x.start <= p < x.end {
      assert (a + [x])[|a|] == x;
    }
  }

  /** Appending the same span to two lists with the same cover keeps them alike. */
  lemma SameCoverSnoc(a: seq<Span>, b: seq<Span>, x: Span)
    requires SameCover(a, b)
    ensures SameCover(a + [x], b + [x])
  {
    forall p ensures Covered(a + [x], p) <==> Covered(b + [x], p) {
      CoveredSnoc(a, x, p);
      CoveredSnoc(b, x, p);
    }
  }

  /** Stretching the last span over an overlapping or touching `x` covers what appending `x` would. */
  lemma ExtendCover(m: seq<Span>, x: Span)
    requires m != [] && m[|m| - 1].start <= x.start <= m[|m| - 1].end
    ensures SameCover(m[|m| - 1 := Span(m[|m| - 1].start, Max(m[|m| - 1].end, x.end))], m + [x])
  {
    var n := |m| - 1;
    var last := m[n];
    var ext := m[n := Span(last.start, Max(last.end, x.end))];
    forall p ensures Covered(ext, p) <==> Covered(m + [x], p) {
      CoveredSnoc(m, x, p);
      if Covered(ext, p) {
        var k :| 0 <= k < |ext| && ext[k].start <= p < ext[k].end;
        if k < n {
          assert m[k] == ext[k];
        } else if p >= last.end {
          assert x.start <= p < x.end;
        } else {
          assert m[n].start <= p < m[n].end;
        }
      }
      if Covered(m, p) {
        var k :| 0 <= k < |m| && m[k].start <= p < m[k].end;
        if k < n {
          assert m[k] == ext[k];
        } else {
          assert ext[n].start <= p < ext[n].end;
        }
      }
      if x.start <= p < x.end {
        assert ext[n].start <= p < ext[n].end;
      }
    }
  }

  ghost predicate StartsAscending(s: seq<Span>) {
    forall i, j :: 0 <= i < j < |s| ==> s[i].start <= s[j].start
  }

  /** Sorting by start orders the starts and keeps the spans and their cover. */
  lemma SortByStartSpec(ms: seq<Span>, n: nat)
    requires WellFormed(ms, n)
    ensures var sorted := SortAsc(ms, StartKey);
      StartsAscending(sorted) && WellFormed(sorted, n) && SameCover(sorted, ms)
  {
    var sorted := SortAsc(ms, StartKey);
    SortAscSpec(ms, StartKey);
    CoveredPerm(sorted, ms);
    forall k | 0 <= k < |sorted| ensures sorted[k].start <= sorted[k].end <= n {
      assert sorted[k] in multiset(ms);
    }
    forall i, j | 0 <= i < j < |sorted| ensures sorted[i].start <= sorted[j].start {
      assert StartKey(sorted[i]) <= StartKey(sorted[j]);
    }
  }

  /** One pass of the merge loop: append `x`, or stretch the last span when `x` starts within it. */
  function MergeStep(merged: seq<Span>, x: Span): seq<Span> {
    if merged == [] || merged[|merged| - 1].end < x.start then merged + [x]
    else merged[|merged| - 1 := Span(merged[|merged| - 1].start, Max(merged[|merged| - 1].end, x.end))]
  }

  /** What the merge loop keeps after `i` of the sorted spans. */
  ghost predicate MergeInv(merged: seq<Span>, sorted: seq<Span>, i: nat, n: nat) {
    && i <= |sorted|
    && WellFormed(merged, n) && Separated(merged)
    && SameCover(merged, sorted[..i])
    && (merged != [] ==> forall j :: i <= j < |sorted| ==> merged[|merged| - 1].start <= sorted[j].start)
  }

  lemma MergeStepKeeps(merged: seq<Span>, sorted: seq<Span>, i: nat, n: nat)
    requires WellFormed(sorted, n) && StartsAscending(sorted) && i < |sorted|
    requires MergeInv(merged, sorted, i, n)
    ensures MergeInv(MergeStep(merged, sorted[i]), sorted, i + 1, n)
  {
    var x := sorted[i];
    assert sorted[..i + 1] == sorted[..i] + [x];
    SameCoverSnoc(merged, sorted[..i], x);
    if merged != [] && merged[|merged| - 1].end >= x.start {
      ExtendCover(merged, x);
    }
  }

  /**
   * The sort by start and the merge loop: the result is well formed,
   * ordered with a gap between consecutive spans, and covers exactly the
   * positions the matches cover.
   */
  method MergeSpans(ms: seq<Span>, ghost n: nat) returns (merged: seq<Span>)
    requires WellFormed(ms, n)
    ensures WellFormed(merged, n) && Separated(merged)
    ensures SameCover(merged, ms)
  {
    var sorted := SortAsc(ms, StartKey);
    SortByStartSpec(ms, n);
    merged := MergeSorted(sorted, n);
  }

  /** The merge loop over spans sorted by start, updating the last merged span in place. */
  method MergeSorted(sorted: seq<Span>, ghost n: nat) returns (merged: seq<Span>)
    requires WellFormed(sorted, n) && StartsAscending(sorted)
    ensures WellFormed(merged, n) && Separated(merged)
    ensures SameCover(merged, sorted)
  {
    merged := [];
    for i := 0 to |sorted|
      invariant MergeInv(merged, sorted, i, n)
    {
      var x := sorted[i];
      MergeStepKeeps(merged, sorted, i, n);
      if merged == [] || merged[|merged| - 1].end < x.start {
        merged := merged + [x];
      } else {
        var last := merged[|merged| - 1];
        merged := merged[|merged| - 1 := Span(last.start, Max(last.end, x.end))];
      }
    }
    assert sorted[..|sorted|] == sorted;
  }

  // ------------------------------------------------------- boundary points

  predicate Ascending(ps: seq<nat>) {
    forall i, j :: 0 <= i < j < |ps| ==> ps[i] < ps[j]
  }

  /** Adds `x` to an ascending list without repeating it. */
  function InsertPoint(x: nat, s: seq<nat>): (r: seq<nat>)
    requires Ascending(s)
    ensures Ascending(r)
    ensures forall y :: y in r <==> y == x || y in s
  {
    if s == [] then [x]
    else if x < s[0] then [x] + s
    else if x == s[0] then s
    else
      var rest := InsertPoint(x, s[1..]);
      assert forall k :: 0 <= k < |rest| ==> s[0] < rest[k] by {
        forall k | 0 <= k < |rest| ensures s[0] < rest[k] {
          assert rest[k] in rest;
          if rest[k] != x {
            var j :| 0 <= j < |s[1..]| && s[1..][j] == rest[k];
            assert s[j + 1] == rest[k];
          }
        }
      }
      assert Ascending([s[0]] + rest) by {
        forall a, b | 0 <= a < b < |[s[0]] + rest| ensures ([s[0]] + rest)[a] < ([s[0]] + rest)[b] {
          assert ([s[0]] + rest)[b] == rest[b - 1];
          if a > 0 { assert ([s[0]] + rest)[a] == rest[a - 1]; }
        }
      }
      [s[0]] + rest
  }

  /** `sorted(set(ps))` */
  function SortedDistinct(ps: seq<nat>): (r: seq<nat>)
    ensures Ascending(r)
    ensures forall y :: y in r <==> y in ps
  {
    if ps == [] then [] else InsertPoint(ps[0], SortedDistinct(ps[1..]))
  }

  /** The start and end of every span. */
  function EndPoints(spans: seq<Span>): (r: seq<nat>)
    ensures forall k :: 0 <= k < |spans| ==> spans[k].start in r && spans[k].end in r
    ensures forall y :: y in r ==> exists k :: 0 <= k < |spans| && (y == spans[k].start || y == spans[k].end)
  {
    if spans == [] then []
    else
      var rest := EndPoints(spans[1..]);
      assert forall k :: 1 <= k < |spans| ==> spans[k] == spans[1..][k - 1];
      [spans[0].start, spans[0].end] + rest
  }

  /** `points`: zero, the text's length and every end of the merged spans, ascending and without repeats. */
  function Boundaries(n: nat, mh: seq<Span>, mn: seq<Span>): seq<nat> {
    SortedDistinct([0, n] + EndPoints(mh) + EndPoints(mn))
  }

  /**
   * For a non-empty text the points cut `[0, n]`: they ascend from 0 to
   * `n`, and every end of every merged span is one of them.
   */
  lemma BoundariesSpec(n: nat, mh: seq<Span>, mn: seq<Span>)
    requires n > 0 && WellFormed(mh, n) && WellFormed(mn, n)
    ensures var ps := Boundaries(n, mh, mn);
      && |ps| >= 2 && ps[0] == 0 && ps[|ps| - 1] == n && Ascending(ps)
      && (forall k :: 0 <= k < |mh| ==> mh[k].start in ps && mh[k].end in ps)
      && (forall k :: 0 <= k < |mn| ==> mn[k].start in ps && mn[k].end in ps)
  {
    var ps := Boundaries(n, mh, mn);
    var all := [0, n] + EndPoints(mh) + EndPoints(mn);
    assert 0 in all && n in all;
    EndPointsBelow(mh, n);
    EndPointsBelow(mn, n);
    forall y | y in ps ensures y <= n {
      assert y in all;
      assert y in [0, n] || y in EndPoints(mh) || y in EndPoints(mn);
    }
    AscendingEnds(ps, 0, n);
  }

  /** No end of a well-formed span lies past the text. */
  lemma EndPointsBelow(spans: seq<Span>, n: nat)
    requires WellFormed(spans, n)
    ensures forall y :: y in EndPoints(spans) ==> y <= n
  {
    forall y | y in EndPoints(spans) ensures y <= n {
      var k :| 0 <= k < |spans| && (y == spans[k].start || y == spans[k].end);
    }
  }

  /** An ascending list holding its least and its greatest values begins with the one and ends with the other. */
  lemma AscendingEnds(ps: seq<nat>, lo: nat, hi: nat)
    requires Ascending(ps) && lo < hi && lo in ps && hi in ps
    requires forall y :: y in ps ==> lo <= y <= hi
    ensures |ps| >= 2 && ps[0] == lo && ps[|ps| - 1] == hi
  {
    var i :| 0 <= i < |ps| && ps[i] == lo;
    var j :| 0 <= j < |ps| && ps[j] == hi;
    AscendingIndex(ps, i, j);
    assert ps[0] in ps && ps[|ps| - 1] in ps;
    AscendingIndex(ps, 0, i);
    AscendingIndex(ps, j, |ps| - 1);
  }

  /** In an ascending list, order of values is order of positions. */
  lemma AscendingIndex(ps: seq<nat>, a: nat, b: nat)
    requires Ascending(ps) && a < |ps| && b < |ps|
    ensures ps[a] < ps[b] <==> a < b
    ensures ps[a] <= ps[b] <==> a <= b
  {
  }

  /** Between two neighbouring points no span begins or ends, so a span covers all of the piece or none of it. */
  lemma Uniform(spans: seq<Span>, ps: seq<nat>, i: nat, q: int)
    requires Ascending(ps) && i + 1 < |ps|
    requires forall k :: 0 <= k < |spans| ==> spans[k].start in ps && spans[k].end in ps
    requires ps[i] <= q < ps[i + 1]
    ensures Covered(spans, q) <==> Covered(spans, ps[i])
  {
    if Covered(spans, ps[i]) {
      var k :| 0 <= k < |spans| && spans[k].start <= ps[i] < spans[k].end;
      var j :| 0 <= j < |ps| && ps[j] == spans[k].end;
      AscendingIndex(ps, i, j);
      AscendingIndex(ps, i + 1, j);
    }
    if Covered(spans, q) {
      var k :| 0 <= k < |spans| && spans[k].start <= q < spans[k].end;
      var j :| 0 <= j < |ps| && ps[j] == spans[k].start;
      AscendingIndex(ps, j, i + 1);
      AscendingIndex(ps, j, i);
    }
  }

  // ------------------------------------------------------- segments

  /** `base_style` or `CONFIG['HIGHLIGHT_STYLE']`. */
  datatype Style = BaseStyle | HighlightStyle

  /** A piece of text appended to the styled text with its style. */
  datatype Segment = Segment(text: string, style: Style)

  /** The style a character should get: no-colour wins, then highlight, else the base style. */
  function CharStyle(q: int, hl: seq<Span>, nc: seq<Span>): Style {
    if Covered(nc, q) then BaseStyle else if Covered(hl, q) then HighlightStyle else BaseStyle
  }

  /** The plain text of the styled text. */
  function SegmentsText(segs: seq<Segment>): string {
    if segs == [] then [] else SegmentsText(segs[..|segs| - 1]) + segs[|segs| - 1].text
  }

  /** The style of each character of the styled text. */
  function Styles(segs: seq<Segment>): seq<Style> {
    if segs == [] then []
    else Styles(segs[..|segs| - 1]) + seq(|segs[|segs| - 1].text|, _ => segs[|segs| - 1].style)
  }

  /** The first `p` characters of the styled text have the styles the spans call for. */
  ghost predicate StyledUpTo(segs: seq<Segment>, p: nat, hl: seq<Span>, nc: seq<Span>) {
    |Styles(segs)| == p && forall q :: 0 <= q < p ==> Styles(segs)[q] == CharStyle(q, hl, nc)
  }

  lemma AppendStyled(segs: seq<Segment>, seg: Segment, p: nat, hl: seq<Span>, nc: seq<Span>)
    requires StyledUpTo(segs, p, hl, nc)
    requires forall q :: p <= q < p + |seg.text| ==> CharStyle(q, hl, nc) == seg.style
    ensures StyledUpTo(segs + [seg], p + |seg.text|, hl, nc)
  {
    assert (segs + [seg])[..|segs|] == segs;
    var st := Styles(segs + [seg]);
    assert st == Styles(segs) + seq(|seg.text|, _ => seg.style);
    forall q | 0 <= q < p + |seg.text| ensures st[q] == CharStyle(q, hl, nc) {
      if q >= p {
        assert st[q] == seg.style;
      }
    }
  }

  /** Every character of the piece between two neighbouring points calls for the style of its first one. */
  lemma PieceUniform(ps: seq<nat>, i: nat, mh: seq<Span>, mn: seq<Span>)
    requires Ascending(ps) && i + 1 < |ps|
    requires forall k :: 0 <= k < |mh| ==> mh[k].start in ps && mh[k].end in ps
    requires forall k :: 0 <= k < |mn| ==> mn[k].start in ps && mn[k].end in ps
    ensures forall q :: ps[i] <= q < ps[i + 1] ==> CharStyle(q, mh, mn) == CharStyle(ps[i], mh, mn)
  {
    forall q | ps[i] <= q < ps[i + 1] ensures CharStyle(q, mh, mn) == CharStyle(ps[i], mh, mn) {
      Uniform(mn, ps, i, q);
      Uniform(mh, ps, i, q);
    }
  }

  /** Spans with the same cover call for the same style. */
  lemma StyleOfSameCover(hl: seq<Span>, nc: seq<Span>, mh: seq<Span>, mn: seq<Span>, q: int)
    requires SameCover(mh, hl) && SameCover(mn, nc)
    ensures CharStyle(q, mh, mn) == CharStyle(q, hl, nc)
  {
  }

  /**
   * `_style_text_with_highlights` on the matches of the highlight and the
   * no-colour patterns: an empty text gives no pieces; otherwise the
   * pieces are not empty, spell the text, and every character has the
   * style its matches call for.
   */
  method StyleTextWithHighlights(text: string, hlMatches: seq<Span>, ncMatches: seq<Span>) returns (segs: seq<Segment>)
    requires WellFormed(hlMatches, |text|) && WellFormed(ncMatches, |text|)
    ensures text == [] ==> segs == []
    ensures SegmentsText(segs) == text
    ensures forall k :: 0 <= k < |segs| ==> segs[k].text != []
    ensures |Styles(segs)| == |text|
    ensures forall q :: 0 <= q < |text| ==> Styles(segs)[q] == CharStyle(q, hlMatches, ncMatches)
  {
    if text == [] {
      return [];
    }
    var mergedHighlight := MergeSpans(hlMatches, |text|);
    var mergedNoColor := MergeSpans(ncMatches, |text|);
    var points := Boundaries(|text|, mergedHighlight, mergedNoColor);
    BoundariesSpec(|text|, mergedHighlight, mergedNoColor);
    segs := CutAtPoints(text, points, mergedHighlight, mergedNoColor);
    forall q | 0 <= q < |text| ensures Styles(segs)[q] == CharStyle(q, hlMatches, ncMatches) {
      StyleOfSameCover(hlMatches, ncMatches, mergedHighlight, mergedNoColor, q);
    }
  }

  /** The piece between two neighbouring points extends the styled text by exactly that stretch. */
  lemma CutStep(text: string, points: seq<nat>, i: nat, segs: seq<Segment>, mh: seq<Span>, mn: seq<Span>)
    requires i + 1 < |points| && points[|points| - 1] == |text| && Ascending(points)
    requires forall k :: 0 <= k < |mh| ==> mh[k].start in points && mh[k].end in points
    requires forall k :: 0 <= k < |mn| ==> mn[k].start in points && mn[k].end in points
    requires SegmentsText(segs) == text[..points[i]] && StyledUpTo(segs, points[i], mh, mn)
    ensures points[i] < points[i + 1] <= |text|
    ensures var seg := Segment(text[points[i]..points[i + 1]], CharStyle(points[i], mh, mn));
      SegmentsText(segs + [seg]) == text[..points[i + 1]] && StyledUpTo(segs + [seg], points[i + 1], mh, mn)
  {
    AscendingIndex(points, i, i + 1);
    AscendingIndex(points, i + 1, |points| - 1);
    var start, end := points[i], points[i + 1];
    var seg := Segment(text[start..end], CharStyle(start, mh, mn));
    PieceUniform(points, i, mh, mn);
    AppendStyled(segs, seg, start, mh, mn);
    assert (segs + [seg])[..|segs|] == segs;
    assert text[..end] == text[..start] + seg.text;
  }

  /** The loop over neighbouring points: one piece each, styled by its first character. */
  method CutAtPoints(text: string, points: seq<nat>, mergedHighlight: seq<Span>, mergedNoColor: seq<Span>) returns (segs: seq<Segment>)
    requires |points| >= 2 && points[0] == 0 && points[|points| - 1] == |text| && Ascending(points)
    requires forall k :: 0 <= k < |mergedHighlight| ==> mergedHighlight[k].start in points && mergedHighlight[k].end in points
    requires forall k :: 0 <= k < |mergedNoColor| ==> mergedNoColor[k].start in points && mergedNoColor[k].end in points
    ensures SegmentsText(segs) == text
    ensures forall k :: 0 <= k < |segs| ==> segs[k].text != []
    ensures StyledUpTo(segs, |text|, mergedHighlight, mergedNoColor)
  {
    segs := [];
    for i := 0 to |points| - 1
      invariant SegmentsText(segs) == text[..points[i]]
      invariant forall k :: 0 <= k < |segs| ==> segs[k].text != []
      invariant StyledUpTo(segs, points[i], mergedHighlight, mergedNoColor)
    {
      CutStep(text, points, i, segs, mergedHighlight, mergedNoColor);
      var start, end := points[i], points[i + 1];
      var seg := text[start..end];
      var isNoColor := Covered(mergedNoColor, start);
      var isHighlight := Covered(mergedHighlight, start);
      var style := if isNoColor then BaseStyle else if isHighlight then HighlightStyle else BaseStyle;
      assert style == CharStyle(start, mergedHighlight, mergedNoColor);
      segs := segs + [Segment(seg, style)];
    }
  }
}
