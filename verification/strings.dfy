/**
 * The JavaScript string built-ins the services rely on: `String.prototype.trim`,
 * `startsWith`, the last element of `split("/")`, and decimal `Number(...)` of a
 * digit string.
 */
module Strings {

  /**
   * The code points `trim` removes: ECMAScript's WhiteSpace (tab, vertical tab,
   * form feed, space, no-break space, byte order mark and the space separators)
   * and LineTerminator (line feed, carriage return, line and paragraph
   * separators). Tab to carriage return is the range U+0009..U+000D.
   */
  predicate IsWhite(c: char)
  {
    ('\t' <= c <= '\r') || c == ' ' || c == '\U{00A0}' || c == '\U{1680}'
    || ('\U{2000}' <= c <= '\U{200A}') || c == '\U{2028}' || c == '\U{2029}'
    || c == '\U{202F}' || c == '\U{205F}' || c == '\U{3000}' || c == '\U{FEFF}'
  }

  /** Every character of `s` is white space, so `s.trim() === ""`. */
  predicate Blank(s: string)
  {
    forall i :: 0 <= i < |s| ==> IsWhite(s[i])
  }

  function LeadingWhite(s: string): (n: nat)
    ensures n <= |s| && Blank(s[..n])
    ensures n == |s| || !IsWhite(s[n])
  {
    if s != [] && IsWhite(s[0]) then 1 + LeadingWhite(s[1..]) else 0
  }
  function TrailingWhite(s: string): (n: nat)
    ensures n <= |s| && Blank(s[|s| - n..])
    ensures n == |s| || !IsWhite(s[|s| - n - 1])
  {
    if s != [] && IsWhite(s[|s| - 1]) then 1 + TrailingWhite(s[..|s| - 1]) else 0
  }
  /**
   * `s.trim()`: the piece of `s` left after cutting the white space off both
   * ends; it is empty exactly when `s` is blank, and otherwise starts and ends
   * with a character that is not white space.
   */
  function Trim(s: string): (r: string)
    ensures r == [] <==> Blank(s)
    ensures r == [] || (!IsWhite(r[0]) && !IsWhite(r[|r| - 1]))
  {
    var i := LeadingWhite(s);
    var j := |s| - TrailingWhite(s[i..]);
    TrimSlice(s, i, j);
    s[i..j]
  }

  /** What `trim` removes is white space only: `s` is `Trim(s)` with blank margins. */
  lemma TrimCutsBlankMargins(s: string)
    ensures exists i ::
      && 0 <= i <= |s| - |Trim(s)|
      && s[i..i + |Trim(s)|] == Trim(s) && Blank(s[..i]) && Blank(s[i + |Trim(s)|..])
  {
    var i := LeadingWhite(s);
    var j := |s| - TrailingWhite(s[i..]);
    TrimSlice(s, i, j);
    assert Trim(s) == s[i..j];
  }

  /** The facts about the two cut points that `Trim` promises. */
  lemma TrimSlice(s: string, i: nat, j: nat)
    requires i == LeadingWhite(s) && j == |s| - TrailingWhite(s[i..])
    ensures i <= j <= |s| && Blank(s[..i]) && Blank(s[j..])
    ensures i == j <==> Blank(s)
    ensures i < j ==> !IsWhite(s[i]) && !IsWhite(s[j - 1])
  {
    TrimEnd(s, i, j);
    if i == j {
      BlankJoin(s, i);
    } else {
      NotBlankAt(s, i);
    }
  }

  /** The end cut: what follows `j` is blank, and the character before it is not white. */
  lemma TrimEnd(s: string, i: nat, j: nat)
    requires i <= |s| && j == |s| - TrailingWhite(s[i..])
    ensures i <= j <= |s| && Blank(s[j..])
    ensures i < j ==> !IsWhite(s[j - 1])
  {
    SuffixOfSuffix(s, i, j);
  }

  lemma NotBlankAt(s: string, k: nat)
    requires k < |s| && !IsWhite(s[k])
    ensures !Blank(s)
  {
  }

  lemma SuffixOfSuffix(s: string, i: nat, j: nat)
    requires i <= j <= |s|
    ensures s[j..] == s[i..][j - i..]
    ensures j > i ==> s[j - 1] == s[i..][j - i - 1]
  {
  }

  lemma BlankJoin(s: string, i: nat)
    requires i <= |s| && Blank(s[..i]) && Blank(s[i..])
    ensures Blank(s)
  {
    forall k | 0 <= k < |s| ensures IsWhite(s[k]) {
      if k < i { assert s[k] == s[..i][k]; } else { assert s[k] == s[i..][k - i]; }
    }
  }

  /** A string that is non-empty and neither starts nor ends with white space. */
  predicate IsTrimmedText(s: string)
  {
    s != [] && !IsWhite(s[0]) && !IsWhite(s[|s| - 1])
  }

  /** Trimming a string that is already trimmed changes nothing. */
  lemma TrimOfTrimmed(s: string)
    requires s == [] || (!IsWhite(s[0]) && !IsWhite(s[|s| - 1]))
    ensures Trim(s) == s
  {
    if s != [] {
      assert LeadingWhite(s) == 0;
      assert TrailingWhite(s) == 0;
    }
  }

  /** `s.startsWith(prefix)`: `s` is `prefix` followed by the rest of it. */
  predicate StartsWith(s: string, prefix: string)
    ensures StartsWith(s, prefix) <==> exists rest :: s == prefix + rest
  {
    if |prefix| <= |s| && s[..|prefix|] == prefix then
      assert s == prefix + s[|prefix|..];
      true
    else
      assert forall rest :: s == prefix + rest ==> s[..|prefix|] == prefix;
      false
  }

  /** `path.split("/").at(-1)`: everything after the last slash, or all of `path`. */
  function LastSegment(path: string): (r: string)
    ensures |r| <= |path| && r == path[|path| - |r|..]
    ensures forall i :: 0 <= i < |r| ==> r[i] != '/'
    ensures |r| < |path| ==> path[|path| - |r| - 1] == '/'
  {
    if path == [] || path[|path| - 1] == '/' then []
    else LastSegment(path[..|path| - 1]) + [path[|path| - 1]]
  }

  lemma {:induction false} LastSegmentAfterSlash(prefix: string, seg: string)
    requires forall i :: 0 <= i < |seg| ==> seg[i] != '/'
    ensures LastSegment(prefix + "/" + seg) == seg
  {
    var p := prefix + "/" + seg;
    var r := LastSegment(p);
    assert p[|p| - |seg| - 1] == '/';
  }

  predicate IsDigit(c: char) { '0' <= c <= '9' }

  predicate AllDigits(s: string)
  {
    forall i :: 0 <= i < |s| ==> IsDigit(s[i])
  }

  /** The value of a string of decimal digits (the empty string has value 0, as `Number("")` does). */
  function DecimalValue(s: string): (n: nat)
    requires AllDigits(s)
    ensures n == 0 <==> forall i :: 0 <= i < |s| ==> s[i] == '0'
    ensures n < Pow10(|s|)
  {
    if s == [] then 0 else 10 * DecimalValue(s[..|s| - 1]) + (s[|s| - 1] as int - '0' as int)
  }

  function Pow10(k: nat): (p: nat)
    ensures p >= 1
  {
    if k == 0 then 1 else 10 * Pow10(k - 1)
  }

  /** The decimal digits of `n` without leading zeros, as a template literal `${n}` writes them. */
  function DecimalString(n: nat): (s: string)
    ensures AllDigits(s) && s != []
    ensures s[0] != '0' || n == 0
  {
    if n < 10 then ['0' + n as char] else DecimalString(n / 10) + ['0' + (n % 10) as char]
  }

  lemma {:induction false} DecimalRoundTrip(n: nat)
    ensures DecimalValue(DecimalString(n)) == n
  {
    var s := DecimalString(n);
    if n >= 10 {
      DecimalRoundTrip(n / 10);
      assert s[..|s| - 1] == DecimalString(n / 10);
    }
  }
}
