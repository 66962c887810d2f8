/** Turning one new news item into the embed that is posted and the record that is stored
    (bot.js:138-178). */
module EntryFormat {
  import opened Text
  import opened Feed
  import opened Markup

  /** `s.split(" ")`: the pieces between single spaces, empty pieces included. */
  function SplitSpaces(s: string): (parts: seq<string>)
    ensures |parts| >= 1
    ensures forall i :: 0 <= i < |parts| ==> ' ' !in parts[i]
    decreases |s|
  {
    if |s| == 0 then [""]
    else if s[0] == ' ' then [""] + SplitSpaces(s[1..])
    else
      var r := SplitSpaces(s[1..]);
      [[s[0]] + r[0]] + r[1..]
  }

  /** `parts.join(" ")`. */
  function JoinSpaces(parts: seq<string>): string
    decreases |parts|
  {
    if |parts| == 0 then ""
    else if |parts| == 1 then parts[0]
    else parts[0] + " " + JoinSpaces(parts[1..])
  }

  lemma JoinConsPrefix(x: string, y: string, rest: seq<string>)
    ensures JoinSpaces([x + y] + rest) == x + JoinSpaces([y] + rest)
  {
    var a := [x + y] + rest;
    var b := [y] + rest;
    assert a[1..] == rest && b[1..] == rest;
    if |rest| > 0 {
      assert (x + y) + " " + JoinSpaces(rest) == x + (y + " " + JoinSpaces(rest));
    }
  }

  /** Joining the pieces of a split gives the text back. */
  lemma {:induction false} JoinSplit(s: string)
    ensures JoinSpaces(SplitSpaces(s)) == s
    decreases |s|
  {
    if |s| > 0 {
      JoinSplit(s[1..]);
      var r := SplitSpaces(s[1..]);
      if s[0] == ' ' {
        assert ([""] + r)[1..] == r;
        assert s == " " + s[1..];
      } else {
        JoinConsPrefix([s[0]], r[0], r[1..]);
        assert [r[0]] + r[1..] == r;
        assert s == [s[0]] + s[1..];
      }
    }
  }

  function SpaceCount(s: string): nat
    decreases |s|
  {
    if |s| == 0 then 0 else (if s[0] == ' ' then 1 else 0) + SpaceCount(s[1..])
  }

  /** The text before the `n`-th space, or all of it when it has fewer spaces. */
  function BeforeNthSpace(s: string, n: nat): (r: string)
    requires n >= 1
    ensures StartsWith(s, r)
    ensures SpaceCount(s) < n ==> r == s
    ensures SpaceCount(s) >= n ==> |r| < |s| && s[|r|] == ' ' && SpaceCount(r) == n - 1
    decreases |s|
  {
    if |s| == 0 then ""
    else if s[0] == ' ' then
      if n == 1 then ""
      else
        var t := BeforeNthSpace(s[1..], n - 1);
        assert (" " + t)[1..] == t;
        assert s[..|t| + 1] == " " + s[1..][..|t|];
        " " + t
    else
      var t := BeforeNthSpace(s[1..], n);
      assert ([s[0]] + t)[1..] == t;
      assert s[..|t| + 1] == [s[0]] + s[1..][..|t|];
      [s[0]] + t
  }

  function Take(parts: seq<string>, n: nat): seq<string> {
    if |parts| <= n then parts else parts[..n]
  }

  /** `pubDateRaw.split(" ").slice(0, 4).join(" ")`, e.g. "Mon, 03 Feb 2025". */
  function ShortDate(raw: string): string {
    JoinSpaces(Take(SplitSpaces(raw), 4))
  }

  lemma {:induction false} JoinTakeSplit(s: string, n: nat)
    requires n >= 1
    ensures JoinSpaces(Take(SplitSpaces(s), n)) == BeforeNthSpace(s, n)
    decreases |s|
  {
    if |s| > 0 {
      if s[0] == ' ' {
        if n > 1 {
          JoinTakeSplit(s[1..], n - 1);
        }
        JoinTakeAtSpace(s, n);
      } else {
        JoinTakeSplit(s[1..], n);
        JoinTakeAtChar(s, n);
      }
    } else {
      assert Take(SplitSpaces(s), n) == [""];
    }
  }

  /** The inductive step of `JoinTakeSplit` at a space. */
  lemma JoinTakeAtSpace(s: string, n: nat)
    requires |s| > 0 && s[0] == ' ' && n >= 1
    requires n > 1 ==> JoinSpaces(Take(SplitSpaces(s[1..]), n - 1)) == BeforeNthSpace(s[1..], n - 1)
    ensures JoinSpaces(Take(SplitSpaces(s), n)) == BeforeNthSpace(s, n)
  {
    var r := SplitSpaces(s[1..]);
    var parts := [""] + r;
    assert SplitSpaces(s) == parts;
    if n == 1 {
      assert Take(parts, n) == [""];
    } else {
      var t := Take(r, n - 1);
      assert Take(parts, n) == [""] + t;
      assert ([""] + t)[1..] == t;
    }
  }

  /** The inductive step of `JoinTakeSplit` at a character other than a space. */
  lemma JoinTakeAtChar(s: string, n: nat)
    requires |s| > 0 && s[0] != ' ' && n >= 1
    requires JoinSpaces(Take(SplitSpaces(s[1..]), n)) == BeforeNthSpace(s[1..], n)
    ensures JoinSpaces(Take(SplitSpaces(s), n)) == BeforeNthSpace(s, n)
  {
    var r := SplitSpaces(s[1..]);
    var parts := [[s[0]] + r[0]] + r[1..];
    assert SplitSpaces(s) == parts;
    var rest := Take(r, n)[1..];
    assert Take(r, n) == [r[0]] + rest;
    assert Take(parts, n) == [[s[0]] + r[0]] + rest;
    JoinConsPrefix([s[0]], r[0], rest);
  }

  /** The short date is the raw date up to (not including) its fourth space; a date with
      fewer than four spaces is kept whole. */
  lemma ShortDateIsPrefix(raw: string)
    ensures ShortDate(raw) == BeforeNthSpace(raw, 4)
    ensures StartsWith(raw, ShortDate(raw))
    ensures SpaceCount(raw) < 4 ==> ShortDate(raw) == raw
    ensures SpaceCount(raw) >= 4 ==> raw[|ShortDate(raw)|] == ' ' && SpaceCount(ShortDate(raw)) == 3
  {
    JoinTakeSplit(raw, 4);
  }

  /** The embed of one news item. The fields titled "Published" and "Category" are
      `published` and `category`; the colour is fixed and not modelled. */
  datatype Embed = Embed(
    title: string,
    url: string,
    description: string,
    published: string,
    category: string,
    thumbnail: Option<string>)

  /** The ledger row for a posted item: `{ title, link }` after defaulting. */
  datatype NewsRecord = NewsRecord(title: string, link: string)

  function TitleOf(it: Item): string { OrDefault(it.title, "No Title") }
  function LinkOf(it: Item): string { OrDefault(it.link, "#") }

  function RecordOf(it: Item): (r: NewsRecord)
    ensures r.title != "" && r.link != ""
  {
    NewsRecord(TitleOf(it), LinkOf(it))
  }

  function ReadMoreFooter(link: string): string {
    "\n\n[Read More](" + link + ")"
  }

  /** The embed for item `it`, whose publication date is `pubDateRaw`; `thumbnail` is the
      feed-wide image, the same for every item of a cycle. */
  function BuildEmbed(it: Item, pubDateRaw: string, thumbnail: Option<string>): (e: Embed)
    ensures e.title == TitleOf(it) && e.url == LinkOf(it) && e.thumbnail == thumbnail
    ensures e.title != "" && e.url != "" && e.category != ""
    ensures e.category == OrDefault(it.category, "General")
    ensures e.published == BeforeNthSpace(pubDateRaw, 4) && StartsWith(pubDateRaw, e.published)
    ensures e.description == CleanBody(OrDefault(it.description, "No Description")) + ReadMoreFooter(e.url)
    ensures exists body :: |body| <= MaxBody + 3 && e.description == body + ReadMoreFooter(e.url)
  {
    ShortDateIsPrefix(pubDateRaw);
    var body := CleanBody(OrDefault(it.description, "No Description"));
    Embed(TitleOf(it), LinkOf(it), body + ReadMoreFooter(LinkOf(it)), ShortDate(pubDateRaw),
          OrDefault(it.category, "General"), thumbnail)
  }
}
