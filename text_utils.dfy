/**
 * The text helpers of searchCommand/utils.py: accent- and case-folding
 * normalisation, placeholder substitution, ANSI escape removal and
 * file-name sanitising.
 */
module TextUtils {
  import opened Wrappers
  import opened Chars
  import opened Strings

  /** NFD of a string, character by character. */
  function FoldChars(s: string): (r: string)
  {
    if s == [] then [] else Decompose(s[0]) + FoldChars(s[1..])
  }

  /** The characters `normalize_text` keeps: no combining mark, alphanumeric or whitespace. */
  predicate Kept(c: char) {
    !IsMark(c) && (IsAlnum(c) || IsSpace(c))
  }

  /**
   * `normalize_text`: lower-case, decompose, drop marks and every character
   * that is neither alphanumeric nor whitespace, strip; `None` when nothing
   * is left.
   */
  function NormalizeText(text: string): (r: Option<string>)
  {
    var n := Strip(FilterChars(FoldChars(LowerStr(text)), Kept));
    if n == [] then None else Some(n)
  }

  /** The normalised text, or "" where the program's value is `None`. */
  function NormalizedOrEmpty(text: string): (r: string)
    ensures r == [] <==> NormalizeText(text) == None
  {
    match NormalizeText(text)
    case None => []
    case Some(n) => n
  }

  /** Every non-mark character that folding produces is a fixed point of folding. */
  lemma {:induction false} FoldLowerStable(t: string)
    ensures forall d :: d in FoldChars(LowerStr(t)) && !IsMark(d) ==> Lower(d) == d && Decompose(d) == [d]
  {
    if t != [] {
      FoldedIsStable(t[0]);
      assert LowerStr(t)[1..] == LowerStr(t[1..]);
      FoldLowerStable(t[1..]);
    }
  }

  lemma {:induction false} FoldIdentity(s: string)
    requires forall k :: 0 <= k < |s| ==> Decompose(s[k]) == [s[k]]
    ensures FoldChars(s) == s
  {
    if s != [] {
      FoldIdentity(s[1..]);
    }
  }

  /**
   * `normalize_text` returns None exactly when no alphanumeric character
   * survives folding; otherwise the result is non-empty, lower-case, made of
   * alphanumeric and whitespace characters only, and has no leading or
   * trailing whitespace.
   */
  lemma NormalizeTextSpec(text: string)
    ensures NormalizeText(text).None? <==>
      forall d :: d in FoldChars(LowerStr(text)) ==> !(IsAlnum(d) && !IsMark(d))
    ensures NormalizeText(text).Some? ==> NormalForm(NormalizeText(text).value)
  {
    NormalizeTextNone(text);
    if NormalizeText(text).Some? {
      NormalizeTextShape(text);
    }
  }

  /** Non-empty, lower-case, alphanumerics and whitespace only, no whitespace at either end. */
  predicate NormalForm(r: string) {
    r != [] && !IsSpace(r[0]) && !IsSpace(r[|r| - 1])
    && forall k :: 0 <= k < |r| ==> Kept(r[k]) && Lower(r[k]) == r[k]
  }

  lemma NormalizeTextNone(text: string)
    ensures NormalizeText(text).None? <==>
      forall d :: d in FoldChars(LowerStr(text)) ==> !(IsAlnum(d) && !IsMark(d))
  {
    var f := FoldChars(LowerStr(text));
    var kept := FilterChars(f, Kept);
    StripParts(kept);
    if AllSpace(kept) {
      forall d | d in f && IsAlnum(d) && !IsMark(d) ensures false {
        var i :| 0 <= i < |f| && f[i] == d;
        FilterKeeps(f, i);
        var j :| 0 <= j < |kept| && kept[j] == d;
        SpaceProperties(kept[j]);
      }
    } else {
      var j :| 0 <= j < |kept| && !IsSpace(kept[j]);
      assert kept[j] in f && IsAlnum(kept[j]);
    }
  }

  lemma NormalizeTextShape(text: string)
    requires NormalizeText(text).Some?
    ensures NormalForm(NormalizeText(text).value)
  {
    var f := FoldChars(LowerStr(text));
    var kept := FilterChars(f, Kept);
    var r := Strip(kept);
    assert NormalizeText(text).value == r;
    StripParts(kept);
    FoldLowerStable(text);
    forall k | 0 <= k < |r| ensures Kept(r[k]) && Lower(r[k]) == r[k] {
      var j :| 0 <= j < |kept| && kept[j] == r[k];
      assert kept[j] in f;
    }
  }

  lemma {:induction false} FilterKeeps(s: string, i: int)
    requires 0 <= i < |s| && Kept(s[i])
    ensures s[i] in FilterChars(s, Kept)
  {
    if i > 0 {
      FilterKeeps(s[1..], i - 1);
    }
  }

  /** `normalize_text` is idempotent on the values it returns. */
  lemma NormalizeTextIdempotent(text: string)
    requires NormalizeText(text).Some?
    ensures NormalizeText(NormalizeText(text).value) == NormalizeText(text)
  {
    var f := FoldChars(LowerStr(text));
    var kept := FilterChars(f, Kept);
    var r := Strip(kept);
    assert NormalizeText(text) == Some(r);
    StripParts(kept);
    FoldLowerStable(text);
    forall k | 0 <= k < |r| ensures Kept(r[k]) && Lower(r[k]) == r[k] && Decompose(r[k]) == [r[k]] {
      assert r[k] in kept;
      var j :| 0 <= j < |kept| && kept[j] == r[k];
      assert kept[j] in f;
    }
    LowerIdentity(r);
    FoldIdentity(r);
    FilterCharsAll(r, Kept);
    StripOfTrimmed(r);
    assert Strip(FilterChars(FoldChars(LowerStr(r)), Kept)) == r;
  }

  /** A value is set in the Python sense: not None and not empty. */
  predicate Truthy(v: Option<string>) {
    v.Some? && v.value != []
  }

  /** Length of `https://` or `http://` at the start of `t`, else 0. */
  function SchemeLen(t: string): (n: nat)
    ensures n <= |t|
  {
    if StartsWith(t, "https://") then 8 else if StartsWith(t, "http://") then 7 else 0
  }

  function SlashRun(t: string): (n: nat)
    ensures n <= |t|
    ensures forall k :: 0 <= k < n ==> t[k] == '/'
  {
    if t != [] && t[0] == '/' then 1 + SlashRun(t[1..]) else 0
  }

  /**
   * A match of `(https?://[^/]+)//+` at the start of `t`: the length of
   * the group and of the whole match.
   */
  function UrlSlashMatch(t: string): (m: Option<(nat, nat)>)
    ensures m.Some? ==> 0 < m.value.0 < m.value.1 <= |t|
  {
    var sl := SchemeLen(t);
    if sl == 0 then None
    else
      var h := IndexOf(t[sl..], '/');
      if h == 0 then None
      else
        var k := SlashRun(t[sl + h..]);
        if k < 2 then None else Some((sl + h, sl + h + k))
  }

  /** `re.sub(r'(https?://[^/]+)//+', r'\1/', s)` */
  function CollapseUrlSlashes(s: string): (r: string)
    ensures |r| <= |s|
    decreases |s|
  {
    if s == [] then []
    else match UrlSlashMatch(s)
      case Some((g, n)) => s[..g] + "/" + CollapseUrlSlashes(s[n..])
      case None => [s[0]] + CollapseUrlSlashes(s[1..])
  }

  /** Without a run of slashes after a scheme and host, nothing is collapsed. */
  lemma {:induction false} CollapseWithoutMatch(s: string)
    requires forall i :: 0 <= i < |s| ==> UrlSlashMatch(s[i..]).None?
    ensures CollapseUrlSlashes(s) == s
    decreases |s|
  {
    if s != [] {
      assert s[0..] == s;
      forall i | 0 <= i < |s[1..]| ensures UrlSlashMatch(s[1..][i..]).None? {
        assert s[1..][i..] == s[i + 1..];
      }
      CollapseWithoutMatch(s[1..]);
    }
  }

  /** `replace_variables`: substitute `$IP` and `$URL` when they occur and the value is set. */
  function ReplaceVariables(command: string, ipValue: Option<string>, urlValue: Option<string>): (r: string)
  {
    var withIp := if Contains(command, "$IP") && Truthy(ipValue) then ReplaceAll(command, "$IP", ipValue.value) else command;
    if Contains(withIp, "$URL") && Truthy(urlValue) then
      CollapseUrlSlashes(ReplaceAll(withIp, "$URL", urlValue.value))
    else withIp
  }

  /** With no values set, or with no placeholder in the command, the command is returned unchanged. */
  lemma ReplaceVariablesUnchanged(command: string, ipValue: Option<string>, urlValue: Option<string>)
    requires (!Truthy(ipValue) && !Truthy(urlValue)) || (!Contains(command, "$IP") && !Contains(command, "$URL"))
    ensures ReplaceVariables(command, ipValue, urlValue) == command
  {
  }

  /** With only an IP set, every `$IP` is replaced and nothing else changes. */
  lemma ReplaceVariablesIpOnly(command: string, ip: string)
    requires ip != []
    ensures ReplaceVariables(command, Some(ip), None) == ReplaceAll(command, "$IP", ip)
  {
    if !Contains(command, "$IP") {
      ReplaceAllAbsent(command, "$IP", ip);
    }
  }

  /** Length of an ANSI escape `\033\[[0-9;]*[mK]` at the start of `t`, else 0. */
  function AnsiLen(t: string): (n: nat)
    ensures n <= |t|
    ensures n > 0 ==> n >= 3 && t[0] == '\U{1B}'
  {
    if |t| >= 2 && t[0] == '\U{1B}' && t[1] == '[' then
      var k := ParamRun(t[2..]);
      if 2 + k < |t| && (t[2 + k] == 'm' || t[2 + k] == 'K') then 3 + k else 0
    else 0
  }

  function ParamRun(t: string): (n: nat)
    ensures n <= |t|
  {
    if t != [] && (('0' <= t[0] <= '9') || t[0] == ';') then 1 + ParamRun(t[1..]) else 0
  }

  /** `strip_ansi_codes`: remove every colour/erase escape sequence, left to right. */
  function StripAnsiCodes(s: string): (r: string)
    ensures |r| <= |s|
    decreases |s|
  {
    if s == [] then []
    else if AnsiLen(s) > 0 then StripAnsiCodes(s[AnsiLen(s)..])
    else [s[0]] + StripAnsiCodes(s[1..])
  }

  /** Text without an ESC character is returned unchanged. */
  lemma {:induction false} StripAnsiNoEscape(s: string)
    requires '\U{1B}' !in s
    ensures StripAnsiCodes(s) == s
    decreases |s|
  {
    if s != [] {
      assert s[0] != '\U{1B}';
      assert '\U{1B}' !in s[1..];
      StripAnsiNoEscape(s[1..]);
    }
  }

  /** `[a-zA-Z0-9_-]` */
  predicate IsNameChar(c: char) {
    IsAsciiAlnum(c) || c == '_' || c == '-'
  }

  /** The argument of the ValueError raised by `sanitize_name`. */
  datatype NameError = InvalidName

  /** `sanitize_name`: keep `[a-zA-Z0-9_-]` of the stripped name; 1 to 50 characters, not `.` or `..`. */
  function SanitizeName(name: string): (r: Result<string, NameError>)
  {
    var n := FilterChars(Strip(name), IsNameChar);
    if |n| > 50 || |n| < 1 || n == "." || n == ".." then Err(InvalidName) else Ok(n)
  }

  /**
   * A sanitised name consists of `[a-zA-Z0-9_-]` only and has 1 to 50
   * characters; the error is raised exactly when the filtered name has
   * another length.
   */
  lemma SanitizeNameSpec(name: string)
    ensures SanitizeName(name).Ok? ==>
      var r := SanitizeName(name).value;
      1 <= |r| <= 50 && forall k :: 0 <= k < |r| ==> IsNameChar(r[k])
    ensures SanitizeName(name).Err? <==> var n := FilterChars(Strip(name), IsNameChar); |n| < 1 || |n| > 50
  {
    var n := FilterChars(Strip(name), IsNameChar);
    if 1 <= |n| <= 2 {
      assert IsNameChar(n[0]) && n[0] != '.';
    }
  }

  /** Sanitising a sanitised name returns it unchanged. */
  lemma SanitizeNameIdempotent(name: string)
    requires SanitizeName(name).Ok?
    ensures SanitizeName(SanitizeName(name).value) == SanitizeName(name)
  {
    var r := SanitizeName(name).value;
    SanitizeNameSpec(name);
    StripOfTrimmed(r);
    FilterCharsAll(r, IsNameChar);
  }
}
