/** The few JavaScript string operations the bot relies on: `String.prototype.includes`,
    `trim`, and the character classes its regular expressions use. */
module Text {

  datatype Option<T> = None | Some(value: T)

  /** ECMAScript LineTerminator: the characters `.` in a regular expression never matches. */
  predicate IsLineTerminator(c: char) {
    c == '\n' || c == '\r' || c == '\U{2028}' || c == '\U{2029}'
  }

  /** ECMAScript WhiteSpace or LineTerminator: the class `\s`, and what `trim()` removes. */
  predicate IsWhitespace(c: char) {
    || IsLineTerminator(c)
    || c == '\t' || c == '\U{000B}' || c == '\U{000C}' || c == ' '
    || c == '\U{00A0}' || c == '\U{FEFF}' || c == '\U{1680}'
    || ('\U{2000}' <= c <= '\U{200A}')
    || c == '\U{202F}' || c == '\U{205F}' || c == '\U{3000}'
  }

  /** The class `\d` (ASCII digits only). */
  predicate IsDigit(c: char) {
    '0' <= c <= '9'
  }

  /** Case folding of a case-insensitive regular expression without the `u` flag, restricted
      to what matters against an ASCII pattern: only ASCII letters fold. */
  function LowerAscii(c: char): char {
    if 'A' <= c <= 'Z' then (c as int + 32) as char else c
  }

  predicate StartsWith(s: string, p: string) {
    |p| <= |s| && s[..|p|] == p
  }

  predicate OccursAt(s: string, p: string, i: int) {
    0 <= i && i + |p| <= |s| && s[i..i + |p|] == p
  }

  /** `s.includes(p)`, scanning from the left. */
  function Contains(s: string, p: string): bool
    decreases |s|
  {
    StartsWith(s, p) || (|s| > 0 && Contains(s[1..], p))
  }

  /** The scan finds `p` exactly when `p` occurs somewhere in `s`. */
  lemma {:induction false} ContainsIff(s: string, p: string)
    ensures Contains(s, p) <==> exists i :: OccursAt(s, p, i)
    decreases |s|
  {
    if StartsWith(s, p) {
      assert OccursAt(s, p, 0);
    } else if |s| > 0 {
      ContainsIff(s[1..], p);
      forall j | OccursAt(s[1..], p, j) ensures OccursAt(s, p, j + 1) {
        assert s[1..][j..j + |p|] == s[j + 1..j + 1 + |p|];
      }
      forall i | OccursAt(s, p, i) ensures OccursAt(s[1..], p, i - 1) {
        assert s[1..][i - 1..i - 1 + |p|] == s[i..i + |p|];
      }
    }
  }

  predicate AllWhitespace(s: string) {
    forall i :: 0 <= i < |s| ==> IsWhitespace(s[i])
  }

  /** Number of leading whitespace characters. */
  function LeadingSpace(s: string): (n: nat)
    ensures n <= |s| && AllWhitespace(s[..n])
    ensures n < |s| ==> !IsWhitespace(s[n])
    decreases |s|
  {
    if |s| == 0 || !IsWhitespace(s[0]) then 0
    else
      var m := LeadingSpace(s[1..]);
      assert s[..m + 1] == [s[0]] + s[1..][..m];
      m + 1
  }

  /** Number of trailing whitespace characters. */
  function TrailingSpace(s: string): (n: nat)
    ensures n <= |s| && AllWhitespace(s[|s| - n..])
    ensures n < |s| ==> !IsWhitespace(s[|s| - n - 1])
    decreases |s|
  {
    if |s| == 0 || !IsWhitespace(s[|s| - 1]) then 0
    else
      var init := s[..|s| - 1];
      var m := TrailingSpace(init);
      assert s[|s| - (m + 1)..] == init[|init| - m..] + [s[|s| - 1]];
      m + 1
  }

  /** `s.trim()`: the slice of `s` between its leading and its trailing whitespace. */
  function Trim(s: string): (t: string)
    ensures |t| <= |s|
    ensures t != [] ==> !IsWhitespace(t[0]) && !IsWhitespace(t[|t| - 1])
    ensures StartsWith(s[LeadingSpace(s)..], t)
    ensures AllWhitespace(s[LeadingSpace(s) + |t|..])
  {
    var rest := s[LeadingSpace(s)..];
    var t := rest[..|rest| - TrailingSpace(rest)];
    TrimPieces(s, rest, t);
    t
  }

  lemma TrimPieces(s: string, rest: string, t: string)
    requires rest == s[LeadingSpace(s)..] && t == rest[..|rest| - TrailingSpace(rest)]
    ensures t != [] ==> !IsWhitespace(t[0]) && !IsWhitespace(t[|t| - 1])
    ensures StartsWith(rest, t) && AllWhitespace(s[LeadingSpace(s) + |t|..])
  {
    var l := LeadingSpace(s);
    var n := |rest| - TrailingSpace(rest);
    if t != [] {
      assert t[0] == s[l];
      assert t[|t| - 1] == rest[n - 1];
    }
    assert rest[..|t|] == t;
    assert s[l + |t|..] == rest[n..];
  }

  /** Text that neither begins nor ends with whitespace is left alone by `trim()`. */
  lemma TrimTrimmed(s: string)
    requires s != [] ==> !IsWhitespace(s[0]) && !IsWhitespace(s[|s| - 1])
    ensures Trim(s) == s
  {
    assert LeadingSpace(s) == 0;
    assert s[0..] == s;
    assert TrailingSpace(s) == 0;
  }
}
