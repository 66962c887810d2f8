/** The X-post cycle of utils/getXPosts.js (`fetchXPosts`): status ids are taken from the
    guids of a mirror feed, checked against the list in posted_x_news.json, announced as
    fixupx.com links to the guilds that enabled X posts, and the list is saved once at the
    end.

    `XCycle` specifies one cycle and `FetchXPosts` is its loop; the lemmas state what the
    cycle promises. */
module XPosts {
  import opened Text
  import opened Feed
  import opened Guilds

  // ---------------------------------------------------------------------------------------
  // The status id of a guid: `guid.match(/status\/(\d+)/)?.[1]` (utils/getXPosts.js:48)
  // ---------------------------------------------------------------------------------------

  const Marker: string := "status/"

  predicate AllDigits(s: string) {
    forall i :: 0 <= i < |s| ==> IsDigit(s[i])
  }

  /** The pattern matches at `p`: `status/` followed by at least one digit. */
  predicate StatusAt(s: string, p: int) {
    && 0 <= p && p + 7 < |s|
    && s[p] == 's' && s[p + 1] == 't' && s[p + 2] == 'a' && s[p + 3] == 't'
    && s[p + 4] == 'u' && s[p + 5] == 's' && s[p + 6] == '/'
    && IsDigit(s[p + 7])
  }

  /** The leftmost match from `i` on. */
  function FindStatus(s: string, i: nat): (r: Option<nat>)
    ensures r.Some? ==> i <= r.value && StatusAt(s, r.value)
    ensures r.Some? ==> forall p :: i <= p < r.value ==> !StatusAt(s, p)
    ensures r.None? ==> forall p :: i <= p < |s| ==> !StatusAt(s, p)
    decreases |s| - i
  {
    if i + 7 >= |s| then None
    else if StatusAt(s, i) then Some(i)
    else FindStatus(s, i + 1)
  }

  /** The length of the run of digits starting at `i`: what the greedy `\d+` takes. */
  function DigitRun(s: string, i: nat): (n: nat)
    requires i <= |s|
    ensures i + n <= |s|
    ensures forall k :: i <= k < i + n ==> IsDigit(s[k])
    ensures i + n == |s| || !IsDigit(s[i + n])
    decreases |s| - i
  {
    if i == |s| || !IsDigit(s[i]) then 0 else 1 + DigitRun(s, i + 1)
  }

  /** The captured group: the whole digit run after the first `status/` that is followed by
      a digit; none when there is no such place. */
  function StatusId(guid: string): Option<string>
  {
    match FindStatus(guid, 0)
    case None => None
    case Some(p) => Some(guid[p + 7..p + 7 + DigitRun(guid, p + 7)])
  }

  /** Both directions of the match: no id exactly when no `status/` is followed by a digit;
      otherwise the id is the whole digit run after the leftmost such `status/`. */
  lemma StatusIdMatch(guid: string)
    ensures var r := StatusId(guid);
      && (r.None? <==> forall p :: 0 <= p < |guid| ==> !StatusAt(guid, p))
      && (r.Some? ==> |r.value| > 0 && AllDigits(r.value))
      && (r.Some? ==> exists p :: && StatusAt(guid, p)
                                  && (forall q :: 0 <= q < p ==> !StatusAt(guid, q))
                                  && p + 7 + |r.value| <= |guid|
                                  && guid[p + 7..p + 7 + |r.value|] == r.value
                                  && (p + 7 + |r.value| == |guid| || !IsDigit(guid[p + 7 + |r.value|])))
  {
    match FindStatus(guid, 0)
    case None =>
    case Some(p) =>
      var n := DigitRun(guid, p + 7);
      var id := guid[p + 7..p + 7 + n];
      assert forall k :: 0 <= k < |id| ==> id[k] == guid[p + 7 + k];
      assert StatusAt(guid, p) && p + 7 + |id| <= |guid| && guid[p + 7..p + 7 + |id|] == id;
  }

  const FixupBase: string := "https://fixupx.com/pathofexile/"

  /** The text sent for status `id` (utils/getXPosts.js:56). */
  function FixupUrl(id: string): string {
    FixupBase + Marker + id
  }

  lemma FixupBaseChar(p: int)
    requires 0 <= p < 31
    ensures p != 4 ==> FixupBase[p] != 's'
    ensures p == 4 ==> FixupBase[10] == 'x'
  {
    var h, b := "http", "://fixupx.com/pathofexile/";
    assert FixupBase == h + "s" + b;
    if p < 4 {
      assert 's' !in h;
      assert FixupBase[p] == h[p];
    } else if p > 4 {
      assert 's' !in b;
      assert FixupBase[p] == b[p - 5];
    } else {
      assert FixupBase[10] == b[5];
    }
  }

  lemma NoStatusInBase(s: string, p: int)
    requires |s| > 38 && s[..31] == FixupBase && 0 <= p < 31
    ensures !StatusAt(s, p)
  {
    FixupBaseChar(p);
    assert s[p] == FixupBase[p] && s[10] == FixupBase[10];
    assert s[p..p + 7][0] == s[p] && s[p..p + 7][6] == s[p + 6];
  }

  /** The link sent for a status id gives that id back: the guid of a fixupx.com link names
      the same status. */
  lemma StatusIdOfFixupUrl(id: string)
    requires |id| > 0 && AllDigits(id)
    ensures StatusId(FixupUrl(id)) == Some(id)
  {
    var s := FixupUrl(id);
    assert s[..31] == FixupBase;
    assert StatusAt(s, 31) by { assert s[31..38] == Marker; }
    forall p | 0 <= p < 31 ensures !StatusAt(s, p) {
      NoStatusInBase(s, p);
    }
    assert FindStatus(s, 0) == Some(31);
    assert s[38..] == id;
    DigitRunToEnd(s, 38);
    assert s[38..38 + DigitRun(s, 38)] == id;
  }

  lemma {:induction false} DigitRunToEnd(s: string, i: nat)
    requires i <= |s| && forall k :: i <= k < |s| ==> IsDigit(s[k])
    ensures DigitRun(s, i) == |s| - i
    decreases |s| - i
  {
    if i < |s| {
      DigitRunToEnd(s, i + 1);
    }
  }

  // ---------------------------------------------------------------------------------------
  // Fan-out of one link (utils/getXPosts.js:59-72)
  // ---------------------------------------------------------------------------------------

  /** A guild receives X posts when its `xposts` flag is set and its channel is cached. */
  predicate XEligible(cfg: GuildConfig, gw: Gateway) {
    cfg.xposts && cfg.channelId in gw.cache
  }

  /** What happens for one guild: nothing unless it is eligible, else one caught send. */
  function XDeliver(gw: Gateway, guildId: string, cfg: GuildConfig, text: string): seq<Event> {
    if XEligible(cfg, gw) then
      [Attempted(guildId, cfg.channelId, TextMessage(text), gw.accepts(cfg.channelId, TextMessage(text)))]
    else []
  }

  /** The events of `for ([guildId, guildData] of Object.entries(guildChannels))`. */
  function XFanOut(guilds: seq<string>, channels: map<string, GuildConfig>, gw: Gateway,
                   text: string): seq<Event>
    requires forall g :: g in guilds ==> g in channels
    decreases |guilds|
  {
    if |guilds| == 0 then []
    else
      var g := guilds[|guilds| - 1];
      XFanOut(guilds[..|guilds| - 1], channels, gw, text) + XDeliver(gw, g, channels[g], text)
  }

  /** The eligible guilds, in visiting order. */
  function Eligible(guilds: seq<string>, channels: map<string, GuildConfig>, gw: Gateway): (e: seq<string>)
    requires forall g :: g in guilds ==> g in channels
    ensures forall g :: g in e <==> g in guilds && XEligible(channels[g], gw)
    decreases |guilds|
  {
    if |guilds| == 0 then []
    else
      var g := guilds[|guilds| - 1];
      var rest := Eligible(guilds[..|guilds| - 1], channels, gw);
      assert forall h :: h in guilds <==> h in guilds[..|guilds| - 1] || h == g;
      if XEligible(channels[g], gw) then rest + [g] else rest
  }

  /** Exactly the eligible guilds get a send, one each, in order, all of the same link. */
  lemma {:induction false} XFanOutEligible(guilds: seq<string>, channels: map<string, GuildConfig>,
                                           gw: Gateway, text: string)
    requires forall g :: g in guilds ==> g in channels
    ensures |XFanOut(guilds, channels, gw, text)| == |Eligible(guilds, channels, gw)|
    ensures forall i :: 0 <= i < |XFanOut(guilds, channels, gw, text)| ==>
      var g := Eligible(guilds, channels, gw)[i];
      XFanOut(guilds, channels, gw, text)[i]
        == Attempted(g, channels[g].channelId, TextMessage(text), gw.accepts(channels[g].channelId, TextMessage(text)))
    decreases |guilds|
  {
    if |guilds| > 0 {
      XFanOutEligible(guilds[..|guilds| - 1], channels, gw, text);
    }
  }

  // ---------------------------------------------------------------------------------------
  // The item loop (utils/getXPosts.js:45-76)
  // ---------------------------------------------------------------------------------------

  /** The in-memory list, the events so far, and whether the loop threw: an item without a
      guid makes `item.guid[0]` throw, which ends the cycle. */
  datatype XRun = XRun(ids: seq<string>, events: seq<Event>, crashed: bool)

  /** Events `sent` happened before `run`. */
  function After(sent: seq<Event>, run: XRun): XRun {
    XRun(run.ids, sent + run.events, run.crashed)
  }

  /** The item loop, in feed order, with `ids` the list so far. */
  function XLoop(items: seq<Item>, ids: seq<string>, reg: Registry, gw: Gateway): XRun
    decreases |items|
  {
    if |items| == 0 then XRun(ids, [], false)
    else match items[0].guid
      case None => XRun(ids, [], true)
      case Some(guid) =>
        match StatusId(guid)
        case None => XLoop(items[1..], ids, reg, gw)
        case Some(n) =>
          if n in ids then XLoop(items[1..], ids, reg, gw)
          else After(XFanOut(reg.order, reg.channels, gw, FixupUrl(n)), XLoop(items[1..], ids + [n], reg, gw))
  }

  /** The status id of an item, if it has a guid that carries one. */
  function ItemStatus(it: Item): Option<string> {
    if it.guid.Some? then StatusId(it.guid.value) else None
  }

  /** The announcements for a sequence of new ids: each one's fan-out, in order. */
  function Announcements(ids: seq<string>, reg: Registry, gw: Gateway): seq<Event>
    decreases |ids|
  {
    if |ids| == 0 then []
    else XFanOut(reg.order, reg.channels, gw, FixupUrl(ids[0])) + Announcements(ids[1..], reg, gw)
  }

  /** The list only grows at its end, by ids it did not hold, each taken from an item. */
  lemma {:induction false} XLoopAppends(items: seq<Item>, ids: seq<string>, reg: Registry, gw: Gateway)
    ensures ids <= XLoop(items, ids, reg, gw).ids
    ensures forall j :: |ids| <= j < |XLoop(items, ids, reg, gw).ids| ==>
      && XLoop(items, ids, reg, gw).ids[j] !in ids
      && exists i :: 0 <= i < |items| && ItemStatus(items[i]) == Some(XLoop(items, ids, reg, gw).ids[j])
    decreases |items|
  {
    if |items| > 0 && items[0].guid.Some? {
      var r := XLoop(items, ids, reg, gw);
      match StatusId(items[0].guid.value)
      case None =>
        XLoopAppends(items[1..], ids, reg, gw);
        ShiftSources(items, ids, r.ids);
      case Some(n) =>
        if n in ids {
          XLoopAppends(items[1..], ids, reg, gw);
          ShiftSources(items, ids, r.ids);
        } else {
          XLoopAppends(items[1..], ids + [n], reg, gw);
          forall j | |ids| <= j < |r.ids|
            ensures r.ids[j] !in ids
            ensures exists i :: 0 <= i < |items| && ItemStatus(items[i]) == Some(r.ids[j])
          {
            if j == |ids| {
              assert r.ids[j] == (ids + [n])[j] == n;
              assert ItemStatus(items[0]) == Some(r.ids[j]);
            } else {
              var i :| 0 <= i < |items[1..]| && ItemStatus(items[1..][i]) == Some(r.ids[j]);
              assert items[i + 1] == items[1..][i];
            }
          }
        }
    }
  }

  lemma ShiftSources(items: seq<Item>, ids: seq<string>, out: seq<string>)
    requires |items| > 0
    requires forall j :: |ids| <= j < |out| ==>
      out[j] !in ids && exists i :: 0 <= i < |items[1..]| && ItemStatus(items[1..][i]) == Some(out[j])
    ensures forall j :: |ids| <= j < |out| ==>
      out[j] !in ids && exists i :: 0 <= i < |items| && ItemStatus(items[i]) == Some(out[j])
  {
    forall j | |ids| <= j < |out|
      ensures out[j] !in ids && exists i :: 0 <= i < |items| && ItemStatus(items[i]) == Some(out[j])
    {
      var i :| 0 <= i < |items[1..]| && ItemStatus(items[1..][i]) == Some(out[j]);
      assert items[i + 1] == items[1..][i];
    }
  }

  /** The status ids of the items, in feed order. */
  function Statuses(items: seq<Item>): seq<Option<string>>
    decreases |items|
  {
    if |items| == 0 then [] else [ItemStatus(items[0])] + Statuses(items[1..])
  }

  lemma {:induction false} StatusesAt(items: seq<Item>)
    ensures |Statuses(items)| == |items|
    ensures forall i :: 0 <= i < |items| ==> Statuses(items)[i] == ItemStatus(items[i])
    decreases |items|
  {
    if |items| > 0 {
      StatusesAt(items[1..]);
      assert forall i :: 0 < i < |items| ==> items[i] == items[1..][i - 1];
    }
  }

  /** Reference walk: the ids of `st` not in `seen`, each at its first occurrence, in order. */
  function FirstSeen(st: seq<Option<string>>, seen: seq<string>): seq<string>
    decreases |st|
  {
    if |st| == 0 then []
    else if st[0].Some? && st[0].value !in seen then [st[0].value] + FirstSeen(st[1..], seen + [st[0].value])
    else FirstSeen(st[1..], seen)
  }

  /** The position of the first occurrence of `n` in `st`. */
  function FirstIn(st: seq<Option<string>>, n: string): Option<nat>
    decreases |st|
  {
    if |st| == 0 then None
    else if st[0] == Some(n) then Some(0)
    else Later(FirstIn(st[1..], n))
  }

  /** A position one further on. */
  function Later(p: Option<nat>): (r: Option<nat>)
    ensures r.Some? <==> p.Some?
    ensures r.Some? ==> r.value == p.value + 1
  {
    if p.None? then None else Some(p.value + 1)
  }

  /** `FirstIn` finds the first occurrence, and none exactly when there is none. */
  lemma {:induction false} FirstInIsFirst(st: seq<Option<string>>, n: string)
    ensures var r := FirstIn(st, n);
      && (r.Some? ==> r.value < |st| && st[r.value] == Some(n))
      && (r.Some? ==> forall i :: 0 <= i < r.value ==> st[i] != Some(n))
      && (r.None? ==> forall i :: 0 <= i < |st| ==> st[i] != Some(n))
    decreases |st|
  {
    if |st| > 0 && st[0] != Some(n) {
      FirstInIsFirst(st[1..], n);
      assert forall i :: 0 < i < |st| ==> st[i] == st[1..][i - 1];
    }
  }

  /** `s` lists ids that occur in `st`, in the order of their first occurrences. */
  predicate InFirstOrder(st: seq<Option<string>>, s: seq<string>) {
    && (forall j :: 0 <= j < |s| ==> FirstIn(st, s[j]).Some?)
    && (forall j1, j2 :: 0 <= j1 < j2 < |s| ==> FirstIn(st, s[j1]).value < FirstIn(st, s[j2]).value)
  }

  lemma {:induction false} FirstSeenFresh(st: seq<Option<string>>, seen: seq<string>)
    ensures forall x :: x in FirstSeen(st, seen) ==> x !in seen
    decreases |st|
  {
    if |st| > 0 {
      if st[0].Some? && st[0].value !in seen {
        FirstSeenFresh(st[1..], seen + [st[0].value]);
      } else {
        FirstSeenFresh(st[1..], seen);
      }
    }
  }

  /** Putting back an occurrence in front that none of `s` is shifts every first occurrence
      by one. */
  lemma ShiftFirst(st: seq<Option<string>>, s: seq<string>)
    requires |st| > 0 && InFirstOrder(st[1..], s)
    requires forall j :: 0 <= j < |s| ==> st[0] != Some(s[j])
    ensures InFirstOrder(st, s)
    ensures forall j :: 0 <= j < |s| ==> FirstIn(st, s[j]).value > 0
  {
    forall j | 0 <= j < |s|
      ensures FirstIn(st, s[j]).Some? && FirstIn(st, s[j]).value == FirstIn(st[1..], s[j]).value + 1
    {
      FirstInTail(st, s[j]);
    }
    forall j1, j2 | 0 <= j1 < j2 < |s|
      ensures FirstIn(st, s[j1]).value < FirstIn(st, s[j2]).value
    {
      assert FirstIn(st[1..], s[j1]).value < FirstIn(st[1..], s[j2]).value;
    }
  }

  lemma FirstInTail(st: seq<Option<string>>, n: string)
    requires |st| > 0 && st[0] != Some(n) && FirstIn(st[1..], n).Some?
    ensures FirstIn(st, n) == Some(FirstIn(st[1..], n).value + 1)
  {
    assert FirstIn(st, n) == Later(FirstIn(st[1..], n));
  }

  /** The reference walk keeps the order of first occurrences: not reversed. */
  lemma {:induction false} FirstSeenOrder(st: seq<Option<string>>, seen: seq<string>)
    ensures InFirstOrder(st, FirstSeen(st, seen))
    decreases |st|
  {
    if |st| > 0 {
      var r := FirstSeen(st, seen);
      if st[0].Some? && st[0].value !in seen {
        var n := st[0].value;
        var rest := FirstSeen(st[1..], seen + [n]);
        FirstSeenOrder(st[1..], seen + [n]);
        FirstSeenFresh(st[1..], seen + [n]);
        assert forall j :: 0 <= j < |rest| ==> rest[j] in rest;
        ShiftFirst(st, rest);
        assert forall j :: 0 < j < |r| ==> r[j] == rest[j - 1];
        assert FirstIn(st, r[0]) == Some(0);
      } else {
        FirstSeenOrder(st[1..], seen);
        FirstSeenFresh(st[1..], seen);
        assert forall j :: 0 <= j < |r| ==> r[j] in r;
        ShiftFirst(st, r);
      }
    }
  }

  /** A loop that does not throw appends exactly the reference walk over the items' ids. */
  lemma {:induction false} XLoopFirstSeen(items: seq<Item>, ids: seq<string>, reg: Registry, gw: Gateway)
    ensures !XLoop(items, ids, reg, gw).crashed ==>
      XLoop(items, ids, reg, gw).ids == ids + FirstSeen(Statuses(items), ids)
    decreases |items|
  {
    if |items| == 0 {
      assert ids + [] == ids;
    } else if items[0].guid.Some? {
      var st := Statuses(items);
      assert st[0] == ItemStatus(items[0]) && st[1..] == Statuses(items[1..]);
      match StatusId(items[0].guid.value)
      case None => XLoopFirstSeen(items[1..], ids, reg, gw);
      case Some(n) =>
        if n in ids {
          XLoopFirstSeen(items[1..], ids, reg, gw);
        } else {
          XLoopFirstSeen(items[1..], ids + [n], reg, gw);
          assert ids + ([n] + FirstSeen(st[1..], ids + [n])) == (ids + [n]) + FirstSeen(st[1..], ids + [n]);
        }
    }
  }

  predicate Distinct(s: seq<string>) {
    forall i, j :: 0 <= i < j < |s| ==> s[i] != s[j]
  }

  /** A list without repeats stays without repeats. */
  lemma {:induction false} XLoopDistinct(items: seq<Item>, ids: seq<string>, reg: Registry, gw: Gateway)
    requires Distinct(ids)
    ensures Distinct(XLoop(items, ids, reg, gw).ids)
    decreases |items|
  {
    if |items| > 0 && items[0].guid.Some? {
      match StatusId(items[0].guid.value)
      case None => XLoopDistinct(items[1..], ids, reg, gw);
      case Some(n) =>
        if n in ids {
          XLoopDistinct(items[1..], ids, reg, gw);
        } else {
          XLoopDistinct(items[1..], ids + [n], reg, gw);
        }
    }
  }

  /** The events are the announcements of the new ids, in the order they were appended. */
  lemma {:induction false} XLoopEvents(items: seq<Item>, ids: seq<string>, reg: Registry, gw: Gateway)
    ensures ids <= XLoop(items, ids, reg, gw).ids
    ensures XLoop(items, ids, reg, gw).events
         == Announcements(XLoop(items, ids, reg, gw).ids[|ids|..], reg, gw)
    decreases |items|
  {
    XLoopAppends(items, ids, reg, gw);
    if |items| == 0 || items[0].guid.None? {
      assert XLoop(items, ids, reg, gw).ids[|ids|..] == [];
    } else {
      match StatusId(items[0].guid.value)
      case None => XLoopEvents(items[1..], ids, reg, gw);
      case Some(n) =>
        if n in ids {
          XLoopEvents(items[1..], ids, reg, gw);
        } else {
          var ids' := ids + [n];
          var rest := XLoop(items[1..], ids', reg, gw);
          XLoopEvents(items[1..], ids', reg, gw);
          XLoopAppends(items[1..], ids', reg, gw);
          var tail := rest.ids[|ids|..];
          assert tail[0] == n;
          assert tail[1..] == rest.ids[|ids'|..];
        }
    }
  }

  /** A loop that does not throw leaves every item's status id in the list. */
  lemma {:induction false} XLoopCover(items: seq<Item>, ids: seq<string>, reg: Registry, gw: Gateway)
    ensures !XLoop(items, ids, reg, gw).crashed ==>
      forall i :: 0 <= i < |items| && ItemStatus(items[i]).Some? ==>
        ItemStatus(items[i]).value in XLoop(items, ids, reg, gw).ids
    decreases |items|
  {
    if |items| > 0 && items[0].guid.Some? {
      var r := XLoop(items, ids, reg, gw);
      var ids' := match StatusId(items[0].guid.value)
        case None => ids
        case Some(n) => if n in ids then ids else ids + [n];
      XLoopCover(items[1..], ids', reg, gw);
      XLoopAppends(items[1..], ids', reg, gw);
      if !r.crashed {
        forall i | 0 <= i < |items| && ItemStatus(items[i]).Some?
          ensures ItemStatus(items[i]).value in r.ids
        {
          if i > 0 {
            assert items[i] == items[1..][i - 1];
          } else {
            assert ItemStatus(items[0]).value in ids';
          }
        }
      }
    }
  }

  /** A loop over items whose guids are all present and whose ids are all listed changes
      nothing and sends nothing. */
  lemma {:induction false} XLoopSettled(items: seq<Item>, ids: seq<string>, reg: Registry, gw: Gateway)
    requires forall i :: 0 <= i < |items| ==> items[i].guid.Some?
    requires forall i :: 0 <= i < |items| && ItemStatus(items[i]).Some? ==> ItemStatus(items[i]).value in ids
    ensures XLoop(items, ids, reg, gw) == XRun(ids, [], false)
    decreases |items|
  {
    if |items| > 0 {
      assert forall i :: 0 <= i < |items[1..]| ==> items[1..][i] == items[i + 1];
      XLoopSettled(items[1..], ids, reg, gw);
    }
  }

  /** An item without a guid at position `c`, after items that all have one, ends the loop
      with exactly the list and the sends of the items before it. */
  lemma {:induction false} XLoopCrashPrefix(items: seq<Item>, ids: seq<string>, reg: Registry, gw: Gateway, c: nat)
    requires c < |items| && items[c].guid.None?
    requires forall i :: 0 <= i < c ==> items[i].guid.Some?
    ensures var before := XLoop(items[..c], ids, reg, gw);
      XLoop(items, ids, reg, gw) == XRun(before.ids, before.events, true)
    decreases c
  {
    if c > 0 {
      var ids' := match StatusId(items[0].guid.value)
        case None => ids
        case Some(n) => if n in ids then ids else ids + [n];
      assert forall i :: 0 <= i < c - 1 ==> items[1..][i] == items[i + 1];
      XLoopCrashPrefix(items[1..], ids', reg, gw, c - 1);
      assert items[..c][1..] == items[1..][..c - 1];
    } else {
      assert XLoop(items[..c], ids, reg, gw) == XRun(ids, [], false);
    }
  }

  /** A loop that throws met an item without a guid. */
  lemma {:induction false} XLoopCrashCause(items: seq<Item>, ids: seq<string>, reg: Registry, gw: Gateway)
    ensures XLoop(items, ids, reg, gw).crashed ==> exists i :: 0 <= i < |items| && items[i].guid.None?
    decreases |items|
  {
    if |items| > 0 && items[0].guid.Some? {
      var ids' := match StatusId(items[0].guid.value)
        case None => ids
        case Some(n) => if n in ids then ids else ids + [n];
      XLoopCrashCause(items[1..], ids', reg, gw);
      if XLoop(items[1..], ids', reg, gw).crashed {
        var i :| 0 <= i < |items[1..]| && items[1..][i].guid.None?;
        assert items[i + 1] == items[1..][i];
      }
    }
  }

  /** A loop that does not throw met no item without a guid. */
  lemma {:induction false} XLoopNoCrash(items: seq<Item>, ids: seq<string>, reg: Registry, gw: Gateway)
    ensures !XLoop(items, ids, reg, gw).crashed ==> forall i :: 0 <= i < |items| ==> items[i].guid.Some?
    decreases |items|
  {
    if |items| > 0 && items[0].guid.Some? {
      var ids' := match StatusId(items[0].guid.value)
        case None => ids
        case Some(n) => if n in ids then ids else ids + [n];
      XLoopNoCrash(items[1..], ids', reg, gw);
      if !XLoop(items, ids, reg, gw).crashed {
        assert forall i :: 0 < i < |items| ==> items[i] == items[1..][i - 1];
      }
    }
  }

  // ---------------------------------------------------------------------------------------
  // One whole cycle (utils/getXPosts.js:8-84)
  // ---------------------------------------------------------------------------------------

  /** posted_x_news.json as loaded: a JSON array of ids, or any other value (a missing file
      loads as `{}`). */
  datatype XFile = NotAList | IdList(ids: seq<string>)

  /** `if (!Array.isArray(postedXNews)) postedXNews = []`. */
  function LoadedIds(f: XFile): seq<string> {
    if f.IdList? then f.ids else []
  }

  datatype XOutcome =
    | XNoGuilds     // no guild configured (utils/getXPosts.js:15-18)
    | XFetchFailed  // the request threw (utils/getXPosts.js:81-83)
    | XBlocked      // challenge page (utils/getXPosts.js:35-38)
    | XCrashed      // the parser or a property access threw (utils/getXPosts.js:41-47, 81-83)
    | XCompleted    // the loop ran to its end and the list was saved

  /** The items of `parsedData.rss.channel[0].item`; none when any step of that path is
      missing, which makes the access throw. */
  function XItems(p: ParseOutcome): Option<seq<Item>> {
    if p.ParseThrew? || p.rss.None? || p.rss.value.channel.None? || p.rss.value.channel.value.items.None? then None
    else Some(p.rss.value.channel.value.items.value)
  }

  /** The sends made and the list saved, if it was (`saved` is `None` when the file is not
      written). */
  datatype XResult = XResult(outcome: XOutcome, events: seq<Event>, saved: Option<seq<string>>)

  /** `fetchXPosts` against the guild table `reg` read from guild_channels.json and the
      content `file` of posted_x_news.json. */
  function XCycle(reg: Registry, file: XFile, fetched: FetchResult, parse: string -> ParseOutcome,
                  gw: Gateway): (r: XResult)
    ensures r.saved.Some? <==> r.outcome == XCompleted
    ensures r.outcome == XNoGuilds <==> |reg.order| == 0
    ensures r.outcome in {XNoGuilds, XFetchFailed, XBlocked} ==> r.events == []
    ensures r.outcome == XBlocked <==> |reg.order| > 0 && fetched.Response? && IsBlockPage(fetched.body)
    ensures r.saved.Some? ==> LoadedIds(file) <= r.saved.value
  {
    if |reg.order| == 0 then XResult(XNoGuilds, [], None)
    else match fetched
      case NetworkError => XResult(XFetchFailed, [], None)
      case Response(body) =>
        if IsBlockPage(body) then XResult(XBlocked, [], None)
        else match XItems(parse(body))
          case None => XResult(XCrashed, [], None)
          case Some(items) =>
            var run := XLoop(items, LoadedIds(file), reg, gw);
            XLoopAppends(items, LoadedIds(file), reg, gw);
            if run.crashed then XResult(XCrashed, run.events, None)
            else XResult(XCompleted, run.events, Some(run.ids))
  }

  /** What a completed cycle saves and sends: the loaded list followed by the new ids, each
      taken from an item of the feed and not listed before, without repeats when the loaded
      list had none, covering every item's id; and, for each new id in order, one send of
      its link to every eligible guild. */
  lemma XCycleCompleted(reg: Registry, file: XFile, fetched: FetchResult, parse: string -> ParseOutcome,
                        gw: Gateway, items: seq<Item>)
    requires |reg.order| > 0 && fetched.Response? && !IsBlockPage(fetched.body)
    requires XItems(parse(fetched.body)) == Some(items)
    requires XCycle(reg, file, fetched, parse, gw).outcome == XCompleted
    ensures var r := XCycle(reg, file, fetched, parse, gw);
      r.saved.Some? && SavedAsSpecified(items, LoadedIds(file), r.saved.value, r.events, reg, gw)
  {
    XLoopCompleted(items, LoadedIds(file), reg, gw);
  }

  /** What a completed cycle promises about the list `saved` it writes, given the list
      `old_` it loaded, and the sends `events` it made. */
  ghost predicate SavedAsSpecified(items: seq<Item>, old_: seq<string>, saved: seq<string>,
                                   events: seq<Event>, reg: Registry, gw: Gateway) {
    && old_ <= saved
    && (forall j :: |old_| <= j < |saved| ==> saved[j] !in old_)
    && (forall j :: |old_| <= j < |saved| ==>
          exists i :: 0 <= i < |items| && ItemStatus(items[i]) == Some(saved[j]))
    && (forall i :: 0 <= i < |items| && ItemStatus(items[i]).Some? ==> ItemStatus(items[i]).value in saved)
    && (Distinct(old_) ==> Distinct(saved))
    && saved == old_ + FirstSeen(Statuses(items), old_)
    && InFirstOrder(Statuses(items), saved[|old_|..])
    && events == Announcements(saved[|old_|..], reg, gw)
  }

  /** The item loop, when it does not throw, does what a completed cycle promises. */
  lemma XLoopCompleted(items: seq<Item>, ids: seq<string>, reg: Registry, gw: Gateway)
    requires !XLoop(items, ids, reg, gw).crashed
    ensures var run := XLoop(items, ids, reg, gw);
      SavedAsSpecified(items, ids, run.ids, run.events, reg, gw)
  {
    var run := XLoop(items, ids, reg, gw);
    XLoopAppends(items, ids, reg, gw);
    XLoopFirstSeen(items, ids, reg, gw);
    FirstSeenOrder(Statuses(items), ids);
    assert run.ids[|ids|..] == FirstSeen(Statuses(items), ids);
    XLoopCover(items, ids, reg, gw);
    XLoopEvents(items, ids, reg, gw);
    if Distinct(ids) {
      XLoopDistinct(items, ids, reg, gw);
    }
  }

  /** A cycle that throws saves nothing. When the feed cannot be read no link is sent; when
      the throw happens at an item without a guid, the sends already made for the items
      before it stand: they are the announcements of the ids those items added to the list.
      Since the file is not written, the next cycle starts from the same list again. */
  lemma XCycleCrashed(reg: Registry, file: XFile, fetched: FetchResult, parse: string -> ParseOutcome,
                      gw: Gateway)
    requires XCycle(reg, file, fetched, parse, gw).outcome == XCrashed
    ensures var r := XCycle(reg, file, fetched, parse, gw);
      && r.saved.None?
      && fetched.Response?
      && (XItems(parse(fetched.body)).None? ==> r.events == [])
      && (XItems(parse(fetched.body)).Some? ==>
            var items := XItems(parse(fetched.body)).value;
            exists c :: 0 <= c < |items| && items[c].guid.None?
              && (forall i :: 0 <= i < c ==> items[i].guid.Some?)
              && var before := XLoop(items[..c], LoadedIds(file), reg, gw);
                 && LoadedIds(file) <= before.ids
                 && r.events == before.events == Announcements(before.ids[|LoadedIds(file)|..], reg, gw))
  {
    var r := XCycle(reg, file, fetched, parse, gw);
    if XItems(parse(fetched.body)).Some? {
      var items := XItems(parse(fetched.body)).value;
      var ids := LoadedIds(file);
      assert XLoop(items, ids, reg, gw).crashed;
      XLoopCrashCause(items, ids, reg, gw);
      var c := FirstGuidless(items);
      XLoopCrashPrefix(items, ids, reg, gw, c);
      XLoopEvents(items[..c], ids, reg, gw);
    }
  }

  /** The position of the first item without a guid, in a feed that has one. */
  function FirstGuidless(items: seq<Item>): (c: nat)
    requires exists i :: 0 <= i < |items| && items[i].guid.None?
    ensures c < |items| && items[c].guid.None? && forall i :: 0 <= i < c ==> items[i].guid.Some?
    decreases |items|
  {
    if items[0].guid.None? then 0
    else
      var i :| 0 <= i < |items| && items[i].guid.None?;
      assert items[1..][i - 1] == items[i];
      1 + FirstGuidless(items[1..])
  }

  /** Running the cycle again on the same feed with the list it saved sends nothing and
      saves the same list. */
  lemma XCycleIdempotent(reg: Registry, file: XFile, fetched: FetchResult, parse: string -> ParseOutcome,
                         gw: Gateway)
    requires XCycle(reg, file, fetched, parse, gw).outcome == XCompleted
    ensures var r := XCycle(reg, file, fetched, parse, gw);
      XCycle(reg, IdList(r.saved.value), fetched, parse, gw) == XResult(XCompleted, [], r.saved)
  {
    var items := XItems(parse(fetched.body)).value;
    var ids := LoadedIds(file);
    var r := XLoop(items, ids, reg, gw);
    XLoopCover(items, ids, reg, gw);
    XLoopNoCrash(items, ids, reg, gw);
    XLoopSettled(items, r.ids, reg, gw);
  }

  // ---------------------------------------------------------------------------------------
  // The cycle as utils/getXPosts.js runs it
  // ---------------------------------------------------------------------------------------

  /** `fetchXPosts`: returns the outcome, the sends made and the list written to
      posted_x_news.json, if any. */
  method FetchXPosts(guildChannels: Registry, file: XFile, fetched: FetchResult,
                     parse: string -> ParseOutcome, gw: Gateway)
    returns (outcome: XOutcome, events: seq<Event>, saved: Option<seq<string>>)
    ensures XResult(outcome, events, saved) == XCycle(guildChannels, file, fetched, parse, gw)
  {
    events := [];
    saved := None;
    if |guildChannels.order| == 0 {
      return XNoGuilds, events, saved;
    }
    var postedXNews := if file.IdList? then file.ids else [];
    if fetched.NetworkError? {
      return XFetchFailed, events, saved;
    }
    var text := fetched.body;
    if Contains(text, "<html") || Contains(text, "Cloudflare") {
      return XBlocked, events, saved;
    }
    var found := XItems(parse(text));
    if found.None? {
      return XCrashed, events, saved;
    }
    var crashed;
    events, postedXNews, crashed := ProcessItems(found.value, postedXNews, guildChannels, gw);
    if crashed {
      return XCrashed, events, saved;
    }
    saved := Some(postedXNews);
    return XCompleted, events, saved;
  }

  /** The item loop (utils/getXPosts.js:45-76): the sends made, the list as it stands at the
      end of the loop, and whether an item without a guid made it throw. */
  method ProcessItems(items: seq<Item>, ids: seq<string>, guildChannels: Registry, gw: Gateway)
    returns (events: seq<Event>, postedXNews: seq<string>, crashed: bool)
    ensures XRun(postedXNews, events, crashed) == XLoop(items, ids, guildChannels, gw)
  {
    events, postedXNews, crashed := [], ids, false;
    ghost var goal := XLoop(items, ids, guildChannels, gw);
    var i := 0;
    while i < |items|
      invariant 0 <= i <= |items|
      invariant goal == After(events, XLoop(items[i..], postedXNews, guildChannels, gw))
      decreases |items| - i
    {
      var item := items[i];
      XLoopUnfold(items, i, postedXNews, guildChannels, gw);
      if item.guid.None? {
        crashed := true;
        return;
      }
      var guidNumber := StatusId(item.guid.value);
      i := i + 1;
      if guidNumber.None? {
        continue;
      }
      if guidNumber.value in postedXNews {
        continue;
      }
      var fixupUrl := FixupUrl(guidNumber.value);
      var sent := SendToXGuilds(guildChannels, gw, fixupUrl);
      events := events + sent;
      postedXNews := postedXNews + [guidNumber.value];
    }
    assert items[i..] == [];
  }

  /** One turn of the item loop at position `i`. */
  lemma XLoopUnfold(items: seq<Item>, i: int, ids: seq<string>, reg: Registry, gw: Gateway)
    requires 0 <= i < |items|
    ensures items[i].guid.None? ==> XLoop(items[i..], ids, reg, gw) == XRun(ids, [], true)
    ensures items[i].guid.Some? && (StatusId(items[i].guid.value).None? || StatusId(items[i].guid.value).value in ids)
            ==> XLoop(items[i..], ids, reg, gw) == XLoop(items[i + 1..], ids, reg, gw)
    ensures items[i].guid.Some? && StatusId(items[i].guid.value).Some? && StatusId(items[i].guid.value).value !in ids
            ==> var n := StatusId(items[i].guid.value).value;
                XLoop(items[i..], ids, reg, gw)
                  == After(XFanOut(reg.order, reg.channels, gw, FixupUrl(n)), XLoop(items[i + 1..], ids + [n], reg, gw))
  {
    assert items[i..][0] == items[i] && items[i..][1..] == items[i + 1..];
  }

  /** The guild loop for one link. */
  method SendToXGuilds(guildChannels: Registry, gw: Gateway, fixupUrl: string) returns (sent: seq<Event>)
    ensures sent == XFanOut(guildChannels.order, guildChannels.channels, gw, fixupUrl)
  {
    sent := [];
    var j := 0;
    while j < |guildChannels.order|
      invariant 0 <= j <= |guildChannels.order|
      invariant sent == XFanOut(guildChannels.order[..j], guildChannels.channels, gw, fixupUrl)
      decreases |guildChannels.order| - j
    {
      assert guildChannels.order[..j + 1][..j] == guildChannels.order[..j];
      var guildId := guildChannels.order[j];
      var guildData := guildChannels.channels[guildId];
      j := j + 1;
      if !guildData.xposts {
        continue;
      }
      if guildData.channelId in gw.cache {
        var delivered := gw.accepts(guildData.channelId, TextMessage(fixupUrl));
        sent := sent + [Attempted(guildId, guildData.channelId, TextMessage(fixupUrl), delivered)];
      }
    }
    assert guildChannels.order[..j] == guildChannels.order;
  }
}
