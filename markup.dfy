/** The clean-up of a news item's HTML body before it becomes an embed description
    (bot.js:150-162): the "Read More" anchor is removed, the rest is trimmed, the remaining
    anchors become Markdown links, and an overlong body is cut to 1000 characters.

    Each regular expression is modelled as the scanner a backtracking engine runs for it.
    Both lazy groups `.*?` are followed by a fixed literal, so the shortest match is the
    first position from which that literal matches, provided no line terminator (which `.`
    refuses) lies before it. */
module Markup {
  import opened Text

  const AnchorOpen: string := "<a href=\""
  const ReadMoreTail: string := "\">Read More"

  /** `t[n..]` begins with the literal tail of `<a href=".*?">Read More.<\/a>`:
      `">Read More`, one character that is not a line terminator, then `</a>`. */
  predicate ReadMoreCloseAt(t: string, n: nat) {
    && n + 16 <= |t|
    && t[n..n + 11] == ReadMoreTail
    && !IsLineTerminator(t[n + 11])
    && t[n + 12..n + 16] == "</a>"
  }

  /** The lazy `.*?` of the "Read More" pattern, started at `n`: the end of the whole match. */
  function ReadMoreEnd(t: string, n: nat): (r: Option<nat>)
    requires n <= |t|
    ensures r.Some? ==> n + 16 <= r.value <= |t|
    decreases |t| - n
  {
    if ReadMoreCloseAt(t, n) then Some(n + 16)
    else if n < |t| && !IsLineTerminator(t[n]) then ReadMoreEnd(t, n + 1)
    else None
  }

  /** `description.replace(/<a href=".*?">Read More.<\/a>/g, "")`. */
  function StripReadMore(s: string): string
    decreases |s|
  {
    if |s| == 0 then ""
    else if StartsWith(s, AnchorOpen) && ReadMoreEnd(s, |AnchorOpen|).Some? then
      StripReadMore(s[ReadMoreEnd(s, |AnchorOpen|).value..])
    else [s[0]] + StripReadMore(s[1..])
  }

  lemma {:induction false} StripReadMorePlainPrefix(pre: string, t: string)
    requires '<' !in pre
    ensures StripReadMore(pre + t) == pre + StripReadMore(t)
    decreases |pre|
  {
    if |pre| == 0 {
      assert pre + t == t;
    } else {
      var s := pre + t;
      assert s[0] == pre[0];
      assert !StartsWith(s, AnchorOpen) by { assert AnchorOpen[0] == '<'; }
      assert s[1..] == pre[1..] + t;
      StripReadMorePlainPrefix(pre[1..], t);
      assert pre == [pre[0]] + pre[1..];
    }
  }

  lemma {:induction false} ReadMoreEndSkips(t: string, n: nat, m: nat)
    requires n <= m && ReadMoreCloseAt(t, m)
    requires forall k :: n <= k < m ==> t[k] != '"' && !IsLineTerminator(t[k])
    ensures ReadMoreEnd(t, n) == Some(m + 16)
    decreases m - n
  {
    if n < m {
      assert !ReadMoreCloseAt(t, n) by { assert t[n..n + 11][0] == t[n]; }
      ReadMoreEndSkips(t, n + 1, m);
    }
  }

  /** The literal tail `">Read More` + c + `</a>` closes the lazy group right where it starts. */
  lemma ReadMoreTailCloses(c: char, post: string)
    requires !IsLineTerminator(c)
    ensures ReadMoreCloseAt(ReadMoreTail + ([c] + ("</a>" + post)), 0)
  {
    var r3 := "</a>" + post;
    var r2 := ReadMoreTail + ([c] + r3);
    assert r2[..11] == ReadMoreTail;
    assert r2[11] == c;
    assert r2[12..16] == r3[..4];
  }

  /** On an anchor whose `href` has no quote and no line terminator, the match ends right after
      its closing tag. */
  lemma ReadMoreAnchorSkipped(href: string, r2: string)
    requires ReadMoreCloseAt(r2, 0)
    requires '"' !in href && forall k :: 0 <= k < |href| ==> !IsLineTerminator(href[k])
    ensures StripReadMore(AnchorOpen + (href + r2)) == StripReadMore(r2[16..])
  {
    var a := AnchorOpen + (href + r2);
    var m := 9 + |href|;
    assert a[..9] == AnchorOpen;
    assert a[m..] == r2;
    assert ReadMoreCloseAt(a, m) by {
      assert a[m..m + 11] == r2[..11];
      assert a[m + 12..m + 16] == r2[12..16];
    }
    forall k | 9 <= k < m ensures a[k] != '"' && !IsLineTerminator(a[k]) {
      assert a[k] == href[k - 9];
    }
    ReadMoreEndSkips(a, 9, m);
    assert a[|href| + 25..] == r2[16..];
  }

  /** Tag-free text has no "Read More" anchor to remove. */
  lemma StripReadMoreTagFree(s: string)
    requires '<' !in s
    ensures StripReadMore(s) == s
  {
    StripReadMorePlainPrefix(s, "");
    assert s + "" == s;
  }

  lemma ReadMoreTailRest(c: char, post: string)
    ensures (ReadMoreTail + ([c] + ("</a>" + post)))[16..] == post
  {
  }

  lemma ReadMoreAnchorAlone(href: string, c: char, post: string)
    requires '<' !in post
    requires '"' !in href && forall k :: 0 <= k < |href| ==> !IsLineTerminator(href[k])
    requires !IsLineTerminator(c)
    ensures StripReadMore(AnchorOpen + (href + (ReadMoreTail + ([c] + ("</a>" + post))))) == post
  {
    var r2 := ReadMoreTail + ([c] + ("</a>" + post));
    ReadMoreTailCloses(c, post);
    ReadMoreAnchorSkipped(href, r2);
    ReadMoreTailRest(c, post);
    StripReadMoreTagFree(post);
  }

  /** A "Read More" anchor between two stretches of tag-free text is cut out, together with
      everything between its `href="` and its `">Read More`. */
  lemma ReadMoreAnchorRemoved(pre: string, href: string, c: char, post: string)
    requires '<' !in pre && '<' !in post
    requires '"' !in href && forall k :: 0 <= k < |href| ==> !IsLineTerminator(href[k])
    requires !IsLineTerminator(c)
    ensures StripReadMore(pre + (AnchorOpen + (href + (ReadMoreTail + ([c] + ("</a>" + post)))))) == pre + post
  {
    ReadMoreAnchorAlone(href, c, post);
    StripReadMorePlainPrefix(pre, AnchorOpen + (href + (ReadMoreTail + ([c] + ("</a>" + post)))));
  }

  /** `\s*` from `i`: the first index at or after `i` that is not whitespace. */
  function SkipSpace(s: string, i: nat): (j: nat)
    requires i <= |s|
    ensures i <= j <= |s| && (j < |s| ==> !IsWhitespace(s[j]))
    ensures forall k :: i <= k < j ==> IsWhitespace(s[k])
    decreases |s| - i
  {
    if i < |s| && IsWhitespace(s[i]) then SkipSpace(s, i + 1) else i
  }

  /** `[^"]+` from `i` stops at the first `"` at or after `i`. */
  function FindQuote(s: string, i: nat): (r: Option<nat>)
    requires i <= |s|
    ensures r.Some? ==> i <= r.value < |s| && s[r.value] == '"'
    ensures r.Some? ==> forall k :: i <= k < r.value ==> s[k] != '"'
    ensures r.None? ==> forall k :: i <= k < |s| ==> s[k] != '"'
    decreases |s| - i
  {
    if i == |s| then None else if s[i] == '"' then Some(i) else FindQuote(s, i + 1)
  }

  /** `<\/a>` under the `i` flag. */
  predicate CloseTagAt(s: string, n: nat) {
    n + 4 <= |s| && s[n] == '<' && s[n + 1] == '/' && LowerAscii(s[n + 2]) == 'a' && s[n + 3] == '>'
  }

  /** The lazy `(.*?)` before `<\/a>`, started at `n`: where the closing tag begins. */
  function CloseTag(s: string, n: nat): (r: Option<nat>)
    requires n <= |s|
    ensures r.Some? ==> n <= r.value && CloseTagAt(s, r.value)
    ensures r.Some? ==> forall k :: n <= k < r.value ==> !IsLineTerminator(s[k])
    decreases |s| - n
  {
    if CloseTagAt(s, n) then Some(n)
    else if n < |s| && !IsLineTerminator(s[n]) then CloseTag(s, n + 1)
    else None
  }

  lemma {:induction false} CloseTagSkips(s: string, n: nat, m: nat)
    requires n <= m && CloseTagAt(s, m)
    requires forall k :: n <= k < m ==> s[k] != '<' && !IsLineTerminator(s[k])
    ensures CloseTag(s, n) == Some(m)
    decreases m - n
  {
    if n < m {
      CloseTagSkips(s, n + 1, m);
    }
  }

  /** `href="` under the `i` flag, at `w`. */
  predicate HrefAt(s: string, w: nat) {
    && w + 6 <= |s|
    && LowerAscii(s[w]) == 'h' && LowerAscii(s[w + 1]) == 'r'
    && LowerAscii(s[w + 2]) == 'e' && LowerAscii(s[w + 3]) == 'f'
    && s[w + 4] == '=' && s[w + 5] == '"'
  }

  /** A match of `<a\s+href="([^"]+)"\s*>(.*?)<\/a>` at the start of a string: its length and
      its two groups. */
  datatype Anchor = Anchor(end: nat, href: string, text: string)

  function AnchorAt(s: string): (r: Option<Anchor>)
    ensures r.Some? ==> 0 < r.value.end <= |s|
  {
    if |s| < 2 || s[0] != '<' || LowerAscii(s[1]) != 'a' then None
    else AnchorAfterTag(s, SkipSpace(s, 2))
  }

  /** The match after `<a` and the whitespace that ends at `w`. */
  function AnchorAfterTag(s: string, w: nat): (r: Option<Anchor>)
    requires 2 <= w <= |s|
    ensures r.Some? ==> 0 < r.value.end <= |s|
  {
    if w == 2 || !HrefAt(s, w) then None
    else match FindQuote(s, w + 6)
      case None => None
      case Some(q) => AnchorAfterHref(s, w, q)
  }

  /** The match once the `href` value runs from `w + 6` to the quote at `q`. */
  function AnchorAfterHref(s: string, w: nat, q: nat): (r: Option<Anchor>)
    requires w + 6 <= q < |s|
    ensures r.Some? ==> 0 < r.value.end <= |s|
  {
    if q == w + 6 then None
    else
      var k := SkipSpace(s, q + 1);
      if k == |s| || s[k] != '>' then None
      else match CloseTag(s, k + 1)
        case None => None
        case Some(m) => Some(Anchor(m + 4, s[w + 6..q], s[k + 1..m]))
  }

  /** The replacement `[$2]($1)`. */
  function MarkdownLink(text: string, href: string): string {
    "[" + text + "](" + href + ")"
  }

  /** `description.replace(/<a\s+href="([^"]+)"\s*>(.*?)<\/a>/gi, "[$2]($1)")`. */
  function AnchorsToMarkdown(s: string): string
    decreases |s|, 1
  {
    if |s| == 0 then ""
    else if s[0] != '<' then [s[0]] + AnchorsToMarkdown(s[1..])  // no match can start here
    else AnchorsAtTag(s)
  }

  /** The global replacement at a `<`: the match there, or the `<` kept as it is. */
  function AnchorsAtTag(s: string): string
    requires |s| > 0
    decreases |s|, 0
  {
    match AnchorAt(s)
    case Some(a) => MarkdownLink(a.text, a.href) + AnchorsToMarkdown(s[a.end..])
    case None => [s[0]] + AnchorsToMarkdown(s[1..])
  }

  lemma ConsAppend(p: string, x: string)
    requires |p| > 0
    ensures [p[0]] + (p[1..] + x) == p + x
  {
    assert p == [p[0]] + p[1..];
  }

  lemma AnchorsPlainStep(s: string)
    requires |s| > 0 && s[0] != '<'
    ensures AnchorsToMarkdown(s) == [s[0]] + AnchorsToMarkdown(s[1..])
  {
  }

  lemma {:induction false} AnchorsPlainPrefix(pre: string, t: string)
    requires '<' !in pre
    ensures AnchorsToMarkdown(pre + t) == pre + AnchorsToMarkdown(t)
    decreases |pre|
  {
    if |pre| == 0 {
      assert pre + t == t;
    } else {
      var s := pre + t;
      var rest := pre[1..];
      assert pre[0] in pre;
      assert s[0] == pre[0] && s[1..] == rest + t;
      assert '<' !in rest by {
        forall k | 0 <= k < |rest| ensures rest[k] != '<' {
          assert rest[k] == pre[k + 1];
        }
      }
      AnchorsPlainPrefix(rest, t);
      AnchorsPlainStep(s);
      calc {
        AnchorsToMarkdown(s);
        [pre[0]] + AnchorsToMarkdown(rest + t);
        [pre[0]] + (rest + AnchorsToMarkdown(t));
        { ConsAppend(pre, AnchorsToMarkdown(t)); }
        pre + AnchorsToMarkdown(t);
      }
    }
  }

  /** Tag-free text has no anchor to convert. */
  lemma AnchorsTagFree(s: string)
    requires '<' !in s
    ensures AnchorsToMarkdown(s) == s
  {
    AnchorsPlainPrefix(s, "");
    assert s + "" == s;
  }

  /** Unfolds the matcher on a string laid out as `<a` whitespace `href="` ... `"` `>` ... */
  lemma AnchorAtUnfold(a: string, q: nat, m: nat)
    requires 9 < q && q + 2 <= |a|
    requires a[0] == '<' && a[1] == 'a' && IsWhitespace(a[2]) && !IsWhitespace(a[3]) && HrefAt(a, 3)
    requires FindQuote(a, 9) == Some(q) && a[q + 1] == '>'
    requires CloseTag(a, q + 2) == Some(m)
    ensures AnchorAt(a) == Some(Anchor(m + 4, a[9..q], a[q + 2..m]))
  {
    AnchorAfterHrefUnfold(a, q, m);
    assert SkipSpace(a, 3) == 3;
    assert SkipSpace(a, 2) == 3;
  }

  lemma AnchorAfterHrefUnfold(a: string, q: nat, m: nat)
    requires 9 < q && q + 2 <= |a| && a[q + 1] == '>'
    requires CloseTag(a, q + 2) == Some(m)
    ensures AnchorAfterHref(a, 3, q) == Some(Anchor(m + 4, a[9..q], a[q + 2..m]))
  {
    assert SkipSpace(a, q + 1) == q + 1;
  }

  /** Where the pieces of `<a href="U">T` followed by `r3` sit. */
  lemma AnchorLayout(href: string, text: string, r3: string)
    ensures var a := AnchorOpen + (href + ("\">" + (text + r3)));
      var q := 9 + |href|;
      && |a| == q + 2 + |text| + |r3|
      && a[..9] == AnchorOpen && a[q] == '"' && a[q + 1] == '>'
      && a[9..q] == href && a[q + 2..q + 2 + |text|] == text && a[q + 2 + |text|..] == r3
  {
    var r2 := "\">" + (text + r3);
    var a := AnchorOpen + (href + r2);
    var q := 9 + |href|;
    assert a[9..] == href + r2;
    assert a[q..] == r2;
    assert a[q + 2..] == text + r3;
  }

  /** The pieces of one anchor `<a href="U">T</a>` followed by `rest` are the match's groups. */
  lemma AnchorMatched(href: string, text: string, r3: string)
    requires CloseTagAt(r3, 0)
    requires href != "" && '"' !in href
    requires '<' !in text && forall k :: 0 <= k < |text| ==> !IsLineTerminator(text[k])
    ensures var a := AnchorOpen + (href + ("\">" + (text + r3)));
      && a[0] == '<'
      && AnchorAt(a) == Some(Anchor(|href| + |text| + 15, href, text)) && a[|href| + |text| + 15..] == r3[4..]
  {
    var a := AnchorOpen + (href + ("\">" + (text + r3)));
    var q := 9 + |href|;
    var m := q + 2 + |text|;
    AnchorLayout(href, text, r3);
    assert a[0] == '<' && a[1] == 'a' && a[2] == ' ' && a[3] == 'h' by {
      assert a[..9][0] == '<' && a[..9][1] == 'a' && a[..9][2] == ' ' && a[..9][3] == 'h';
    }
    assert HrefAt(a, 3) by {
      assert a[..9][4..9] == "ref=\"";
    }
    forall k | 9 <= k < q ensures a[k] != '"' {
      assert a[k] == a[9..q][k - 9];
    }
    assert FindQuote(a, 9) == Some(q);
    forall k | q + 2 <= k < m ensures a[k] != '<' && !IsLineTerminator(a[k]) {
      assert a[k] == a[q + 2..m][k - q - 2];
    }
    assert CloseTagAt(a, m) by {
      assert a[m..] == r3;
    }
    CloseTagSkips(a, q + 2, m);
    AnchorAtUnfold(a, q, m);
    assert a[m + 4..] == a[m..][4..];
  }

  lemma CloseTagRest(post: string)
    ensures CloseTagAt("</a>" + post, 0) && ("</a>" + post)[4..] == post
  {
  }

  /** An anchor matched at the start is replaced and the scan goes on after it. */
  lemma AnchorsAtMatch(s: string, x: Anchor)
    requires |s| > 0 && s[0] == '<' && AnchorAt(s) == Some(x)
    ensures AnchorsToMarkdown(s) == MarkdownLink(x.text, x.href) + AnchorsToMarkdown(s[x.end..])
  {
  }

  /** A match at the start followed only by tag-free text. */
  lemma AnchorThenPlain(a: string, x: Anchor, post: string)
    requires |a| > 0 && a[0] == '<' && AnchorAt(a) == Some(x)
    requires x.end <= |a| && a[x.end..] == post && '<' !in post
    ensures AnchorsToMarkdown(a) == MarkdownLink(x.text, x.href) + post
  {
    AnchorsAtMatch(a, x);
    AnchorsTagFree(post);
  }

  lemma AnchorAlone(href: string, text: string, post: string)
    requires '<' !in post
    requires href != "" && '"' !in href
    requires '<' !in text && forall k :: 0 <= k < |text| ==> !IsLineTerminator(text[k])
    ensures AnchorsToMarkdown(AnchorOpen + (href + ("\">" + (text + ("</a>" + post)))))
         == MarkdownLink(text, href) + post
  {
    var a := AnchorOpen + (href + ("\">" + (text + ("</a>" + post))));
    CloseTagRest(post);
    AnchorMatched(href, text, "</a>" + post);
    AnchorThenPlain(a, Anchor(|href| + |text| + 15, href, text), post);
  }

  /** One anchor `<a href="U">T</a>` between two stretches of tag-free text becomes `[T](U)`. */
  lemma AnchorConverted(pre: string, href: string, text: string, post: string)
    requires '<' !in pre && '<' !in post
    requires href != "" && '"' !in href
    requires '<' !in text && forall k :: 0 <= k < |text| ==> !IsLineTerminator(text[k])
    ensures AnchorsToMarkdown(pre + (AnchorOpen + (href + ("\">" + (text + ("</a>" + post))))))
         == pre + (MarkdownLink(text, href) + post)
  {
    AnchorAlone(href, text, post);
    AnchorsPlainPrefix(pre, AnchorOpen + (href + ("\">" + (text + ("</a>" + post)))));
  }

  const MaxBody: nat := 1000

  /** `if (description.length > 1000) description = description.substring(0, 1000) + "..."`. */
  function Shorten(d: string): (r: string)
    ensures |d| <= MaxBody ==> r == d
    ensures |d| > MaxBody ==> |r| == MaxBody + 3 && r[..MaxBody] == d[..MaxBody] && r[MaxBody..] == "..."
  {
    if |d| > MaxBody then d[..MaxBody] + "..." else d
  }

  /** The body pipeline in the order bot.js:149-162 applies it; truncation comes last, so it
      never splits the Markdown syntax produced by the conversion from the count. */
  function CleanBody(raw: string): (r: string)
    ensures |r| <= MaxBody + 3
  {
    Shorten(AnchorsToMarkdown(Trim(StripReadMore(raw))))
  }

  /** Plain text that is already trimmed only goes through the truncation. */
  lemma CleanPlainBody(s: string)
    requires '<' !in s
    requires s != [] ==> !IsWhitespace(s[0]) && !IsWhitespace(s[|s| - 1])
    ensures CleanBody(s) == Shorten(s)
  {
    StripReadMorePlainPrefix(s, "");
    assert s + "" == s;
    TrimTrimmed(s);
    AnchorsTagFree(s);
  }
}
