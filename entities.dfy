/** Repair of bare ampersands in the raw news payload before it is parsed as XML:
    `text.replace(/&(?!(amp;|lt;|gt;|quot;|apos;))/g, "&amp;")`. */
module Entities {
  import opened Text

  /** The lookahead `(amp;|lt;|gt;|quot;|apos;)`: `t` begins with one of the five
      predefined XML entity names and its semicolon. */
  predicate EntityPrefix(t: string) {
    || StartsWith(t, "amp;") || StartsWith(t, "lt;") || StartsWith(t, "gt;")
    || StartsWith(t, "quot;") || StartsWith(t, "apos;")
  }

  /** Every `&` in `s` opens one of the five predefined entities. */
  predicate WellEscaped(s: string) {
    forall i :: 0 <= i < |s| && s[i] == '&' ==> EntityPrefix(s[i + 1..])
  }

  /** The global replacement, one character at a time from the left: an `&` not followed by
      an entity name becomes `&amp;`, every other character is copied. */
  function RepairAmpersands(s: string): string
    decreases |s|
  {
    if |s| == 0 then ""
    else if s[0] == '&' && !EntityPrefix(s[1..]) then "&amp;" + RepairAmpersands(s[1..])
    else [s[0]] + RepairAmpersands(s[1..])
  }

  /** Text that starts with an ampersand-free piece keeps that piece in front. */
  lemma {:induction false} RepairKeepsPlainPrefix(t: string, e: string)
    requires '&' !in e && StartsWith(t, e)
    ensures StartsWith(RepairAmpersands(t), e)
    decreases |e|
  {
    if |e| > 0 {
      assert t[0] == e[0];
      assert StartsWith(t[1..], e[1..]) by {
        assert t[1..][..|e| - 1] == t[..|e|][1..];
      }
      RepairKeepsPlainPrefix(t[1..], e[1..]);
      var r := RepairAmpersands(t[1..]);
      assert RepairAmpersands(t) == [t[0]] + r;
      assert ([t[0]] + r)[..|e|] == [e[0]] + r[..|e| - 1];
    }
  }

  lemma EntityPrefixRepaired(t: string)
    requires EntityPrefix(t)
    ensures EntityPrefix(RepairAmpersands(t))
  {
    if StartsWith(t, "amp;") { RepairKeepsPlainPrefix(t, "amp;"); }
    else if StartsWith(t, "lt;") { RepairKeepsPlainPrefix(t, "lt;"); }
    else if StartsWith(t, "gt;") { RepairKeepsPlainPrefix(t, "gt;"); }
    else if StartsWith(t, "quot;") { RepairKeepsPlainPrefix(t, "quot;"); }
    else { RepairKeepsPlainPrefix(t, "apos;"); }
  }

  /** After the repair every `&` in the text opens a predefined entity. */
  lemma {:induction false} RepairEscapesAll(s: string)
    ensures WellEscaped(RepairAmpersands(s))
    decreases |s|
  {
    if |s| > 0 {
      RepairEscapesAll(s[1..]);
      var r := RepairAmpersands(s[1..]);
      var out := RepairAmpersands(s);
      var h := if s[0] == '&' && !EntityPrefix(s[1..]) then "&amp;" else [s[0]];
      assert out == h + r;
      if h == [s[0]] && s[0] == '&' {
        EntityPrefixRepaired(s[1..]);
      }
      forall i | 0 <= i < |out| && out[i] == '&' ensures EntityPrefix(out[i + 1..]) {
        if i >= |h| {
          assert out[i] == r[i - |h|];
          assert out[i + 1..] == r[i - |h| + 1..];
        } else if h == "&amp;" {
          assert i == 0;
          assert out[1..][..4] == "amp;";
        } else {
          assert out[1..] == r;
        }
      }
    }
  }

  /** Text with no bare ampersand is left unchanged. */
  lemma {:induction false} RepairWellEscaped(s: string)
    requires WellEscaped(s)
    ensures RepairAmpersands(s) == s
    decreases |s|
  {
    if |s| > 0 {
      assert WellEscaped(s[1..]) by {
        forall i | 0 <= i < |s[1..]| && s[1..][i] == '&' ensures EntityPrefix(s[1..][i + 1..]) {
          assert s[i + 1] == '&';
          assert s[1..][i + 1..] == s[i + 2..];
        }
      }
      RepairWellEscaped(s[1..]);
      assert s == [s[0]] + s[1..];
    }
  }

  /** The repair changes the text exactly when the text has a bare ampersand. */
  lemma RepairFixpointIff(s: string)
    ensures RepairAmpersands(s) == s <==> WellEscaped(s)
  {
    RepairEscapesAll(s);
    if WellEscaped(s) { RepairWellEscaped(s); }
  }

  /** Repairing twice is the same as repairing once. */
  lemma RepairIdempotent(s: string)
    ensures RepairAmpersands(RepairAmpersands(s)) == RepairAmpersands(s)
  {
    RepairEscapesAll(s);
    RepairWellEscaped(RepairAmpersands(s));
  }
}
