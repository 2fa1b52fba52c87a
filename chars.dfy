/**
 * The character classes the programs rely on through Python's `str` and
 * `unicodedata`: lower-casing, canonical decomposition (NFD), the "Mn"
 * general category, `isalnum`, `isspace` and `isprintable`.
 *
 * The tables are exact for ASCII and Latin-1 (U+0000..U+00FF); `IsSpace` is
 * Python's complete whitespace set. Outside Latin-1 characters are caseless,
 * undecomposed and not alphanumeric, and only U+0300..U+036F are marks.
 */
module Chars {
  /** `str.lower()` for one character. */
  function Lower(c: char): (r: char)
    ensures IsUpper(c) ==> r as int == c as int + 32
    ensures !IsUpper(c) ==> r == c
  {
    if IsUpper(c) then (c as int + 32) as char else c
  }

  predicate IsUpper(c: char) {
    ('A' <= c <= 'Z') || ('\U{C0}' <= c <= '\U{DE}' && c != '\U{D7}')
  }

  /** Canonical decomposition (NFD) of one character. */
  function Decompose(c: char): (r: seq<char>)
    ensures 1 <= |r| <= 2
    ensures |r| == 1 ==> r == [c]
    ensures !('\U{C0}' <= c <= '\U{FF}') ==> r == [c]
    ensures |r| == 2 ==> IsMark(r[1]) && IsAsciiLetter(r[0]) && (IsUpper(r[0]) <==> IsUpper(c))
  {
    match c
    case 'À' => "A\U{300}"
    case 'Á' => "A\U{301}"
    case 'Â' => "A\U{302}"
    case 'Ã' => "A\U{303}"
    case 'Ä' => "A\U{308}"
    case 'Å' => "A\U{30A}"
    case 'Ç' => "C\U{327}"
    case 'È' => "E\U{300}"
    case 'É' => "E\U{301}"
    case 'Ê' => "E\U{302}"
    case 'Ë' => "E\U{308}"
    case 'Ì' => "I\U{300}"
    case 'Í' => "I\U{301}"
    case 'Î' => "I\U{302}"
    case 'Ï' => "I\U{308}"
    case 'Ñ' => "N\U{303}"
    case 'Ò' => "O\U{300}"
    case 'Ó' => "O\U{301}"
    case 'Ô' => "O\U{302}"
    case 'Õ' => "O\U{303}"
    case 'Ö' => "O\U{308}"
    case 'Ù' => "U\U{300}"
    case 'Ú' => "U\U{301}"
    case 'Û' => "U\U{302}"
    case 'Ü' => "U\U{308}"
    case 'Ý' => "Y\U{301}"
    case 'à' => "a\U{300}"
    case 'á' => "a\U{301}"
    case 'â' => "a\U{302}"
    case 'ã' => "a\U{303}"
    case 'ä' => "a\U{308}"
    case 'å' => "a\U{30A}"
    case 'ç' => "c\U{327}"
    case 'è' => "e\U{300}"
    case 'é' => "e\U{301}"
    case 'ê' => "e\U{302}"
    case 'ë' => "e\U{308}"
    case 'ì' => "i\U{300}"
    case 'í' => "i\U{301}"
    case 'î' => "i\U{302}"
    case 'ï' => "i\U{308}"
    case 'ñ' => "n\U{303}"
    case 'ò' => "o\U{300}"
    case 'ó' => "o\U{301}"
    case 'ô' => "o\U{302}"
    case 'õ' => "o\U{303}"
    case 'ö' => "o\U{308}"
    case 'ù' => "u\U{300}"
    case 'ú' => "u\U{301}"
    case 'û' => "u\U{302}"
    case 'ü' => "u\U{308}"
    case 'ý' => "y\U{301}"
    case 'ÿ' => "y\U{308}"
    case _ => [c]
  }

  /** General category "Mn" (non-spacing mark). */
  predicate IsMark(c: char) {
    '\U{300}' <= c <= '\U{36F}'
  }

  /** `str.isalnum()` for one character. */
  predicate IsAlnum(c: char) {
    ('a' <= c <= 'z') || ('A' <= c <= 'Z') || ('0' <= c <= '9')
    || c == '\U{AA}' || c == '\U{B2}' || c == '\U{B3}' || c == '\U{B5}'
    || c == '\U{B9}' || c == '\U{BA}' || ('\U{BC}' <= c <= '\U{BE}')
    || ('\U{C0}' <= c <= '\U{FF}' && c != '\U{D7}' && c != '\U{F7}')
  }

  /** `str.isspace()` for one character. */
  predicate IsSpace(c: char) {
    ('\t' <= c <= '\r') || ('\U{1C}' <= c <= ' ')
    || c == '\U{85}' || c == '\U{A0}' || c == '\U{1680}'
    || ('\U{2000}' <= c <= '\U{200A}') || c == '\U{2028}' || c == '\U{2029}'
    || c == '\U{202F}' || c == '\U{205F}' || c == '\U{3000}'
  }

  /** `str.isprintable()` for one character. */
  predicate IsPrintable(c: char) {
    if c <= '\U{FF}' then
      (' ' <= c <= '~') || ('\U{A1}' <= c <= '\U{AC}') || ('\U{AE}' <= c)
    else
      !IsSpace(c) && !('\U{200B}' <= c <= '\U{200F}') && !('\U{202A}' <= c <= '\U{202E}')
      && !('\U{2060}' <= c <= '\U{2064}') && c != '\U{FEFF}' && !('\U{E000}' <= c <= '\U{F8FF}')
  }

  /** ASCII letters and digits, `[a-zA-Z0-9]` in a regular expression. */
  predicate IsAsciiAlnum(c: char) {
    ('a' <= c <= 'z') || ('A' <= c <= 'Z') || ('0' <= c <= '9')
  }

  predicate IsAsciiLetter(c: char) {
    ('a' <= c <= 'z') || ('A' <= c <= 'Z')
  }

  /** Regular-expression `\s` (Unicode mode) is Python's whitespace set. */
  predicate IsRegexSpace(c: char) { IsSpace(c) }

  /** Lower-casing is idempotent. */
  lemma LowerIdempotent(c: char)
    ensures Lower(Lower(c)) == Lower(c)
  {
  }

  /**
   * A character that survives accent folding of a lower-cased character (it
   * is not a mark) is already lower-case and does not decompose further.
   */
  lemma FoldedIsStable(c: char)
    ensures forall d :: d in Decompose(Lower(c)) && !IsMark(d) ==> Lower(d) == d && Decompose(d) == [d]
  {
    var l := Lower(c);
    var r := Decompose(l);
    assert !IsUpper(l);
    if |r| == 2 {
      var b := r[0];
      assert IsAsciiLetter(b) && !IsUpper(b);
      assert Lower(b) == b && Decompose(b) == [b];
      assert forall d :: d in r ==> d == b || IsMark(d);
    }
  }

  /** Whitespace is neither alphanumeric nor a mark and is unchanged by folding. */
  lemma SpaceProperties(c: char)
    requires IsSpace(c)
    ensures !IsAlnum(c) && !IsMark(c) && Lower(c) == c && Decompose(c) == [c]
  {
  }

  /** Printable whitespace is the plain space only. */
  lemma PrintableSpaceIsBlank(c: char)
    requires IsPrintable(c) && IsSpace(c)
    ensures c == ' '
  {
  }
}
