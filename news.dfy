/** The news cycle of bot.js (`fetchAndPostNews`, bot.js:94-203) and the `!setpoechannel`
    update of the guild table (bot.js:73-85).

    The cycle is specified by `Cycle`, a function of the guild table, the ledger read from
    posted_news.json, the outcome of the HTTP request, the XML parser and the Discord
    gateway. `NewsBot.FetchAndPostNews` is the loop of bot.js, proved to do what `Cycle`
    says; the lemmas state what `Cycle` promises. */
module News {
  import opened Text
  import opened Feed
  import opened Entities
  import opened EntryFormat
  import opened Guilds

  /** posted_news.json: raw publication date to `{ title, link }`. */
  type Ledger = map<string, NewsRecord>

  /** `item.pubDate?.[0]` as a ledger key; an absent or empty date is falsy and has none. */
  function PubDateKey(it: Item): (k: Option<string>)
    ensures k.Some? <==> it.pubDate.Some? && it.pubDate.value != ""
    ensures k.Some? ==> k.value == it.pubDate.value && k.value != ""
  {
    if it.pubDate.Some? && it.pubDate.value != "" then it.pubDate else None
  }

  // ---------------------------------------------------------------------------------------
  // Fan-out of one entry to every configured guild (bot.js:181-193)
  // ---------------------------------------------------------------------------------------

  /** What happens for one guild: its channel is looked up in the client's cache; a found
      channel gets one send, whose failure is caught; a missing one is only logged. */
  function Deliver(gw: Gateway, guildId: string, cfg: GuildConfig, msg: Message): Event {
    if cfg.channelId in gw.cache then
      Attempted(guildId, cfg.channelId, msg, gw.accepts(cfg.channelId, msg))
    else
      ChannelMissing(guildId, cfg.channelId)
  }

  /** The events of `for (guildId in guildChannels)`, one per guild in visiting order. */
  function FanOut(guilds: seq<string>, channels: map<string, GuildConfig>, gw: Gateway,
                  msg: Message): (out: seq<Event>)
    requires forall g :: g in guilds ==> g in channels
    ensures |out| == |guilds|
    decreases |guilds|
  {
    if |guilds| == 0 then []
    else
      var g := guilds[|guilds| - 1];
      FanOut(guilds[..|guilds| - 1], channels, gw, msg) + [Deliver(gw, g, channels[g], msg)]
  }

  /** Guild `i` gets exactly the outcome of its own lookup and send: a missing channel or a
      failed send elsewhere does not change it, and no guild is skipped. */
  lemma {:induction false} FanOutAt(guilds: seq<string>, channels: map<string, GuildConfig>,
                                    gw: Gateway, msg: Message, i: int)
    requires forall g :: g in guilds ==> g in channels
    requires 0 <= i < |guilds|
    ensures FanOut(guilds, channels, gw, msg)[i] == Deliver(gw, guilds[i], channels[guilds[i]], msg)
    decreases |guilds|
  {
    if i < |guilds| - 1 {
      FanOutAt(guilds[..|guilds| - 1], channels, gw, msg, i);
    }
  }

  /** The fan-out over the first `j + 1` guilds is the one over the first `j` followed by
      guild `j`'s outcome. */
  lemma FanOutSnoc(guilds: seq<string>, channels: map<string, GuildConfig>, gw: Gateway, msg: Message, j: int)
    requires forall g :: g in guilds ==> g in channels
    requires 0 <= j < |guilds|
    ensures FanOut(guilds[..j + 1], channels, gw, msg)
         == FanOut(guilds[..j], channels, gw, msg) + [Deliver(gw, guilds[j], channels[guilds[j]], msg)]
  {
    assert guilds[..j + 1][..j] == guilds[..j];
  }

  // ---------------------------------------------------------------------------------------
  // The item loop (bot.js:137-199)
  // ---------------------------------------------------------------------------------------

  /** One posted entry: its key, the feed item it was built from, the record stored for it,
      the message sent, the outcome for each guild and the ledger written to the file right
      after. */
  datatype EntryLog = EntryLog(key: string, item: Item, record: NewsRecord, message: Message,
                               outcomes: seq<Event>, saved: Ledger)

  datatype NewsState = NewsState(ledger: Ledger, log: seq<EntryLog>)

  /** One turn of the item loop: an item with a date not yet in the ledger is formatted,
      offered to every guild, then recorded and the ledger saved; any other item changes
      nothing. */
  function PostItem(st: NewsState, it: Item, reg: Registry, thumbnail: Option<string>,
                    gw: Gateway): NewsState
  {
    match PubDateKey(it)
    case None => st
    case Some(k) =>
      if k in st.ledger then st
      else
        var msg := EmbedMessage(BuildEmbed(it, k, thumbnail));
        var rec := RecordOf(it);
        var ledger := st.ledger[k := rec];
        NewsState(ledger, st.log + [EntryLog(k, it, rec, msg, FanOut(reg.order, reg.channels, gw, msg), ledger)])
  }

  /** `for (item of items.reverse())`: the last item of the feed is handled first. */
  function PostOldestFirst(items: seq<Item>, st: NewsState, reg: Registry,
                           thumbnail: Option<string>, gw: Gateway): NewsState
    decreases |items|
  {
    if |items| == 0 then st
    else
      PostOldestFirst(items[..|items| - 1], PostItem(st, items[|items| - 1], reg, thumbnail, gw),
                      reg, thumbnail, gw)
  }

  function Reversed<T>(s: seq<T>): (r: seq<T>)
    ensures |r| == |s|
    decreases |s|
  {
    if |s| == 0 then [] else [s[|s| - 1]] + Reversed(s[..|s| - 1])
  }

  lemma {:induction false} ReversedAt<T>(s: seq<T>, i: int)
    requires 0 <= i < |s|
    ensures Reversed(s)[i] == s[|s| - 1 - i]
    decreases |s|
  {
    if i > 0 {
      ReversedAt(s[..|s| - 1], i - 1);
    }
  }

  /** The dates carried by the items of `s`. */
  function DatesOf(s: seq<Item>): set<string>
    decreases |s|
  {
    if |s| == 0 then {}
    else (if PubDateKey(s[0]).Some? then {PubDateKey(s[0]).value} else {}) + DatesOf(s[1..])
  }

  lemma {:induction false} DatesOfIff(s: seq<Item>, k: string)
    ensures k in DatesOf(s) <==> exists i :: 0 <= i < |s| && PubDateKey(s[i]) == Some(k)
    decreases |s|
  {
    if |s| > 0 {
      DatesOfIff(s[1..], k);
      if k in DatesOf(s[1..]) {
        var i :| 0 <= i < |s[1..]| && PubDateKey(s[1..][i]) == Some(k);
        assert s[i + 1] == s[1..][i];
      }
      forall i | 0 < i < |s| && PubDateKey(s[i]) == Some(k) ensures k in DatesOf(s[1..]) {
        assert s[1..][i - 1] == s[i];
      }
    }
  }

  lemma DatesOfSnoc(s: seq<Item>, x: Item)
    ensures DatesOf(s + [x]) == DatesOf(s) + DatesOf([x])
    decreases |s|
  {
    if |s| > 0 {
      assert (s + [x])[1..] == s[1..] + [x];
      DatesOfSnoc(s[1..], x);
    }
  }

  lemma {:induction false} DatesOfReversed(s: seq<Item>)
    ensures DatesOf(Reversed(s)) == DatesOf(s)
    decreases |s|
  {
    if |s| > 0 {
      var init, last := s[..|s| - 1], s[|s| - 1];
      DatesOfReversed(init);
      assert ([last] + Reversed(init))[1..] == Reversed(init);
      DatesOfSnoc(init, last);
      assert init + [last] == s;
    }
  }

  /** Reference definition of which dates get posted: walk `s` from the front and keep each
      date that is neither in `seen` nor kept already. */
  function NewKeys(s: seq<Item>, seen: set<string>): seq<string>
    decreases |s|
  {
    if |s| == 0 then []
    else match PubDateKey(s[0])
      case None => NewKeys(s[1..], seen)
      case Some(k) => if k in seen then NewKeys(s[1..], seen) else [k] + NewKeys(s[1..], seen + {k})
  }

  /** The kept dates are new, pairwise distinct, and each is the date of an item of `s`. */
  lemma {:induction false} NewKeysFresh(s: seq<Item>, seen: set<string>)
    ensures forall j :: 0 <= j < |NewKeys(s, seen)| ==>
      NewKeys(s, seen)[j] !in seen && NewKeys(s, seen)[j] in DatesOf(s)
    ensures forall i, j :: 0 <= i < j < |NewKeys(s, seen)| ==> NewKeys(s, seen)[i] != NewKeys(s, seen)[j]
    decreases |s|
  {
    if |s| > 0 {
      var seen' := if PubDateKey(s[0]).Some? && PubDateKey(s[0]).value !in seen then seen + {PubDateKey(s[0]).value} else seen;
      NewKeysFresh(s[1..], seen');
      if PubDateKey(s[0]).Some? && PubDateKey(s[0]).value !in seen {
        var k := PubDateKey(s[0]).value;
        var rest := NewKeys(s[1..], seen');
        var ks := [k] + rest;
        assert NewKeys(s, seen) == ks;
        assert DatesOf(s) == {k} + DatesOf(s[1..]);
        forall j | 0 <= j < |ks| ensures ks[j] !in seen && ks[j] in DatesOf(s) {
          if j > 0 {
            assert ks[j] == rest[j - 1];
          }
        }
        forall i, j | 0 <= i < j < |ks| ensures ks[i] != ks[j] {
          assert ks[j] == rest[j - 1];
          if i > 0 {
            assert ks[i] == rest[i - 1];
          }
        }
      }
    }
  }

  /** No date is missed: each date of `s` was already seen or is kept. */
  lemma {:induction false} NewKeysCover(s: seq<Item>, seen: set<string>)
    ensures forall k :: k in DatesOf(s) ==> k in seen || k in NewKeys(s, seen)
    decreases |s|
  {
    if |s| > 0 {
      var seen' := if PubDateKey(s[0]).Some? && PubDateKey(s[0]).value !in seen then seen + {PubDateKey(s[0]).value} else seen;
      NewKeysCover(s[1..], seen');
    }
  }

  /** When every date is already seen, nothing is kept. */
  lemma {:induction false} NewKeysAllSeen(s: seq<Item>, seen: set<string>)
    requires DatesOf(s) <= seen
    ensures NewKeys(s, seen) == []
    decreases |s|
  {
    if |s| > 0 {
      NewKeysAllSeen(s[1..], seen);
    }
  }

  function KeysOf(log: seq<EntryLog>): (ks: seq<string>)
    ensures |ks| == |log|
  {
    seq(|log|, i requires 0 <= i < |log| => log[i].key)
  }

  /** The two cases of one turn of the item loop. */
  lemma PostItemCases(st: NewsState, it: Item, reg: Registry, thumbnail: Option<string>, gw: Gateway)
    ensures var r := PostItem(st, it, reg, thumbnail, gw);
      || (r == st && (PubDateKey(it).None? || PubDateKey(it).value in st.ledger))
      || (&& PubDateKey(it).Some? && PubDateKey(it).value !in st.ledger
          && var e := EntryLog(PubDateKey(it).value, it, RecordOf(it), EmbedMessage(BuildEmbed(it, PubDateKey(it).value, thumbnail)),
                              FanOut(reg.order, reg.channels, gw, EmbedMessage(BuildEmbed(it, PubDateKey(it).value, thumbnail))),
                              st.ledger[PubDateKey(it).value := RecordOf(it)]);
             r == NewsState(e.saved, st.log + [e]))
  {
  }

  /** The two cases of one turn of the item loop, leaving the message aside: `r` is `st`,
      or `st` with one entry recorded for `it`. */
  predicate StepShape(st: NewsState, it: Item, r: NewsState) {
    || (r == st && (PubDateKey(it).None? || PubDateKey(it).value in st.ledger))
    || (&& PubDateKey(it).Some? && PubDateKey(it).value !in st.ledger
        && r.ledger == st.ledger[PubDateKey(it).value := RecordOf(it)]
        && |r.log| == |st.log| + 1 && st.log <= r.log
        && r.log[|st.log|].key == PubDateKey(it).value && r.log[|st.log|].item == it
        && r.log[|st.log|].record == RecordOf(it) && r.log[|st.log|].saved == r.ledger)
  }

  lemma PostItemShape(st: NewsState, it: Item, reg: Registry, thumbnail: Option<string>, gw: Gateway)
    ensures StepShape(st, it, PostItem(st, it, reg, thumbnail, gw))
  {
    PostItemCases(st, it, reg, thumbnail, gw);
  }

  lemma NewKeysCons(x: Item, rest: seq<Item>, seen: set<string>)
    ensures PubDateKey(x).None? || PubDateKey(x).value in seen ==> NewKeys([x] + rest, seen) == NewKeys(rest, seen)
    ensures PubDateKey(x).Some? && PubDateKey(x).value !in seen ==>
      NewKeys([x] + rest, seen) == [PubDateKey(x).value] + NewKeys(rest, seen + {PubDateKey(x).value})
  {
    assert ([x] + rest)[0] == x && ([x] + rest)[1..] == rest;
  }

  lemma KeysStep(st: NewsState, it: Item, st': NewsState, rest: seq<Item>)
    requires StepShape(st, it, st')
    ensures KeysOf(st'.log) + NewKeys(rest, st'.ledger.Keys) == KeysOf(st.log) + NewKeys([it] + rest, st.ledger.Keys)
  {
    NewKeysCons(it, rest, st.ledger.Keys);
    if st' != st {
      var k := PubDateKey(it).value;
      assert st'.log == st.log + [st'.log[|st.log|]];
      assert KeysOf(st'.log) == KeysOf(st.log) + [k];
      assert st'.ledger.Keys == st.ledger.Keys + {k};
    }
  }

  /** The entries posted by the loop are exactly the new dates, in reverse feed order. */
  lemma {:induction false} PostKeys(items: seq<Item>, st: NewsState, reg: Registry,
                                    thumbnail: Option<string>, gw: Gateway)
    ensures KeysOf(PostOldestFirst(items, st, reg, thumbnail, gw).log)
         == KeysOf(st.log) + NewKeys(Reversed(items), st.ledger.Keys)
    decreases |items|
  {
    if |items| > 0 {
      var init, last := items[..|items| - 1], items[|items| - 1];
      var st' := PostItem(st, last, reg, thumbnail, gw);
      PostItemShape(st, last, reg, thumbnail, gw);
      PostKeys(init, st', reg, thumbnail, gw);
      KeysStep(st, last, st', Reversed(init));
    }
  }

  // ---------------------------------------------------------------------------------------
  // The ledger file across a cycle
  // ---------------------------------------------------------------------------------------

  /** The ledger as it stood before entry `j` was recorded. */
  function Before(ledger0: Ledger, log: seq<EntryLog>, j: nat): Ledger
    requires j <= |log|
  {
    if j == 0 then ledger0 else log[j - 1].saved
  }

  /** Starting from `ledger0`, each entry wrote the file with exactly its own key added to
      what the file held before it, the key being new at that point; `ledger` is the last
      content written. */
  predicate Chained(ledger0: Ledger, log: seq<EntryLog>, ledger: Ledger)
    decreases |log|
  {
    if |log| == 0 then ledger == ledger0
    else
      var n := |log| - 1;
      var prev := Before(ledger0, log, n);
      && log[n].saved == ledger
      && log[n].key !in prev
      && ledger == prev[log[n].key := log[n].record]
      && Chained(ledger0, log[..n], prev)
  }

  lemma ChainedLast(ledger0: Ledger, log: seq<EntryLog>, ledger: Ledger)
    requires Chained(ledger0, log, ledger)
    ensures Before(ledger0, log, |log|) == ledger
  {
  }

  lemma ChainedSnoc(ledger0: Ledger, log: seq<EntryLog>, ledger: Ledger, e: EntryLog)
    requires Chained(ledger0, log, ledger)
    requires e.key !in ledger && e.saved == ledger[e.key := e.record]
    ensures Chained(ledger0, log + [e], e.saved)
  {
    assert (log + [e])[..|log|] == log;
    if |log| > 0 {
      assert (log + [e])[|log| - 1] == log[|log| - 1];
    }
  }

  lemma {:induction false} ChainedPrefix(ledger0: Ledger, log: seq<EntryLog>, ledger: Ledger, n: nat)
    requires Chained(ledger0, log, ledger) && n <= |log|
    ensures Chained(ledger0, log[..n], Before(ledger0, log, n))
    decreases |log|
  {
    if n == |log| {
      assert log[..n] == log;
    } else {
      var m := |log| - 1;
      var p := log[..m];
      ChainedPrefix(ledger0, p, Before(ledger0, log, m), n);
      assert p[..n] == log[..n];
      if n > 0 {
        assert p[n - 1] == log[n - 1];
      }
    }
  }

  /** The keys of a chain of writes: the old rows plus one row per entry. */
  lemma {:induction false} ChainedKeys(ledger0: Ledger, log: seq<EntryLog>, ledger: Ledger)
    requires Chained(ledger0, log, ledger)
    ensures forall k :: k in ledger <==> k in ledger0 || k in KeysOf(log)
    decreases |log|
  {
    if |log| > 0 {
      var n := |log| - 1;
      ChainedKeys(ledger0, log[..n], Before(ledger0, log, n));
      assert KeysOf(log) == KeysOf(log[..n]) + [log[n].key];
    }
  }

  /** A chain of writes never changes a row it started with, and each entry's row holds the
      entry's record; no key is posted twice. */
  lemma {:induction false} ChainedRows(ledger0: Ledger, log: seq<EntryLog>, ledger: Ledger)
    requires Chained(ledger0, log, ledger)
    ensures forall k :: k in ledger0 ==> k in ledger && ledger[k] == ledger0[k]
    ensures forall j :: 0 <= j < |log| ==>
      log[j].key !in ledger0 && log[j].key in ledger && ledger[log[j].key] == log[j].record
    decreases |log|
  {
    if |log| > 0 {
      var n := |log| - 1;
      var prev := Before(ledger0, log, n);
      ChainedRows(ledger0, log[..n], prev);
      forall j | 0 <= j < n
        ensures log[j].key !in ledger0 && log[j].key in prev && prev[log[j].key] == log[j].record
      {
        assert log[j] == log[..n][j];
      }
    }
  }

  lemma ChainedDistinct(ledger0: Ledger, log: seq<EntryLog>, ledger: Ledger)
    requires Chained(ledger0, log, ledger)
    ensures forall i, j :: 0 <= i < j < |log| ==> log[i].key != log[j].key
  {
    forall i, j | 0 <= i < j < |log| ensures log[i].key != log[j].key {
      ChainedPrefix(ledger0, log, ledger, j + 1);
      var p := log[..j + 1];
      ChainedRows(ledger0, p[..j], Before(ledger0, p, j));
      assert p[..j][i] == log[i] && p[j] == log[j];
    }
  }

  /** What a chain of writes leaves in the file: the old rows untouched, one new row per
      entry holding that entry's record, and no key posted twice. */
  lemma ChainedFacts(ledger0: Ledger, log: seq<EntryLog>, ledger: Ledger)
    requires Chained(ledger0, log, ledger)
    ensures forall k :: k in ledger <==> k in ledger0 || k in KeysOf(log)
    ensures forall k :: k in ledger0 ==> ledger[k] == ledger0[k]
    ensures forall j :: 0 <= j < |log| ==>
      log[j].key !in ledger0 && log[j].key in ledger && ledger[log[j].key] == log[j].record
    ensures forall i, j :: 0 <= i < j < |log| ==> log[i].key != log[j].key
  {
    ChainedKeys(ledger0, log, ledger);
    ChainedRows(ledger0, log, ledger);
    ChainedDistinct(ledger0, log, ledger);
  }

  /** Entry `j`'s write holds the old rows and the keys of entries `0..j`, and no later one:
      the ledger is saved after every entry, oldest entry first. */
  lemma SnapshotAfterEntry(ledger0: Ledger, log: seq<EntryLog>, ledger: Ledger, j: int)
    requires Chained(ledger0, log, ledger) && 0 <= j < |log|
    ensures forall k :: k in log[j].saved <==> k in ledger0 || k in KeysOf(log)[..j + 1]
    ensures forall i :: j < i < |log| ==> log[i].key !in log[j].saved
  {
    var p := log[..j + 1];
    assert KeysOf(p) == KeysOf(log)[..j + 1];
    assert forall k :: k in log[j].saved <==> k in ledger0 || k in KeysOf(p) by {
      ChainedPrefix(ledger0, log, ledger, j + 1);
      ChainedKeys(ledger0, p, log[j].saved);
    }
    forall i | j < i < |log| ensures log[i].key !in log[j].saved {
      ChainedRows(ledger0, log, ledger);
      ChainedDistinct(ledger0, log, ledger);
      assert forall m :: 0 <= m <= j ==> KeysOf(log)[m] == log[m].key != log[i].key;
    }
  }

  /** The loop only appends to the log. */
  lemma {:induction false} PostExtends(items: seq<Item>, st: NewsState, reg: Registry,
                                       thumbnail: Option<string>, gw: Gateway)
    ensures st.log <= PostOldestFirst(items, st, reg, thumbnail, gw).log
    decreases |items|
  {
    if |items| > 0 {
      var st' := PostItem(st, items[|items| - 1], reg, thumbnail, gw);
      PostItemCases(st, items[|items| - 1], reg, thumbnail, gw);
      PostExtends(items[..|items| - 1], st', reg, thumbnail, gw);
    }
  }

  /** The item loop keeps the chain of writes going. */
  lemma {:induction false} PostChained(ledger0: Ledger, items: seq<Item>, st: NewsState,
                                       reg: Registry, thumbnail: Option<string>, gw: Gateway)
    requires Chained(ledger0, st.log, st.ledger)
    ensures Chained(ledger0, PostOldestFirst(items, st, reg, thumbnail, gw).log,
                    PostOldestFirst(items, st, reg, thumbnail, gw).ledger)
    decreases |items|
  {
    if |items| > 0 {
      var init, last := items[..|items| - 1], items[|items| - 1];
      var st' := PostItem(st, last, reg, thumbnail, gw);
      PostItemCases(st, last, reg, thumbnail, gw);
      if st' != st {
        ChainedSnoc(ledger0, st.log, st.ledger, st'.log[|st.log|]);
      }
      PostChained(ledger0, init, st', reg, thumbnail, gw);
    }
  }

  /** Every entry of the loop was offered to every guild, in the table's order. */
  lemma {:induction false} PostFanOut(items: seq<Item>, st: NewsState, reg: Registry,
                                      thumbnail: Option<string>, gw: Gateway)
    ensures var r := PostOldestFirst(items, st, reg, thumbnail, gw);
      forall j :: |st.log| <= j < |r.log| ==>
        r.log[j].outcomes == FanOut(reg.order, reg.channels, gw, r.log[j].message)
    decreases |items|
  {
    if |items| > 0 {
      var init, last := items[..|items| - 1], items[|items| - 1];
      var st' := PostItem(st, last, reg, thumbnail, gw);
      PostItemCases(st, last, reg, thumbnail, gw);
      PostFanOut(init, st', reg, thumbnail, gw);
      PostExtends(init, st', reg, thumbnail, gw);
    }
  }

  /** Item `i` is the last item of `items` dated `k`: the one the reversed walk meets first. */
  predicate LatestWithKey(items: seq<Item>, i: int, k: string) {
    && 0 <= i < |items|
    && PubDateKey(items[i]) == Some(k)
    && forall j :: i < j < |items| ==> PubDateKey(items[j]) != Some(k)
  }

  /** Entry `e` is its item's embed and its record is the item's `{ title, link }`. */
  predicate BuiltFrom(e: EntryLog, thumbnail: Option<string>) {
    e.message == EmbedMessage(BuildEmbed(e.item, e.key, thumbnail)) && e.record == RecordOf(e.item)
  }

  /** Every entry of the loop carries the embed and the record of its item. */
  lemma {:induction false} PostBuilt(items: seq<Item>, st: NewsState, reg: Registry,
                                     thumbnail: Option<string>, gw: Gateway)
    ensures forall j :: |st.log| <= j < |PostOldestFirst(items, st, reg, thumbnail, gw).log| ==>
      BuiltFrom(PostOldestFirst(items, st, reg, thumbnail, gw).log[j], thumbnail)
    decreases |items|
  {
    if |items| > 0 {
      var init, last := items[..|items| - 1], items[|items| - 1];
      var st' := PostItem(st, last, reg, thumbnail, gw);
      PostItemCases(st, last, reg, thumbnail, gw);
      PostBuilt(init, st', reg, thumbnail, gw);
      PostExtends(init, st', reg, thumbnail, gw);
    }
  }

  /** Each entry is new to the ledger the loop started from. */
  lemma {:induction false} PostFresh(items: seq<Item>, st: NewsState, reg: Registry,
                                     thumbnail: Option<string>, gw: Gateway)
    ensures var r := PostOldestFirst(items, st, reg, thumbnail, gw);
      && st.ledger.Keys <= r.ledger.Keys
      && forall j :: |st.log| <= j < |r.log| ==> r.log[j].key !in st.ledger
    decreases |items|
  {
    if |items| > 0 {
      var init, last := items[..|items| - 1], items[|items| - 1];
      var st' := PostItem(st, last, reg, thumbnail, gw);
      PostItemCases(st, last, reg, thumbnail, gw);
      PostFresh(init, st', reg, thumbnail, gw);
      PostExtends(init, st', reg, thumbnail, gw);
    }
  }

  /** Each posted entry comes from the last feed item carrying its date. */
  lemma {:induction false} PostSources(items: seq<Item>, st: NewsState, reg: Registry,
                                       thumbnail: Option<string>, gw: Gateway)
    ensures var r := PostOldestFirst(items, st, reg, thumbnail, gw);
      forall j :: |st.log| <= j < |r.log| ==>
        exists i :: LatestWithKey(items, i, r.log[j].key) && r.log[j].item == items[i]
    decreases |items|
  {
    if |items| > 0 {
      var n := |items| - 1;
      var init, last := items[..n], items[n];
      var st' := PostItem(st, last, reg, thumbnail, gw);
      var r := PostOldestFirst(init, st', reg, thumbnail, gw);
      PostItemCases(st, last, reg, thumbnail, gw);
      PostSources(init, st', reg, thumbnail, gw);
      PostExtends(init, st', reg, thumbnail, gw);
      PostFresh(init, st', reg, thumbnail, gw);
      SourcesStep(items, init, st, st', r, thumbnail);
    }
  }

  /** The inductive step of `PostSources`, on its own. */
  lemma SourcesStep(items: seq<Item>, init: seq<Item>, st: NewsState, st': NewsState, r: NewsState,
                    thumbnail: Option<string>)
    requires |items| > 0 && init == items[..|items| - 1]
    requires var n := |items| - 1; var k := PubDateKey(items[n]);
      || (st' == st && (k.None? || k.value in st.ledger))
      || (k.Some? && k.value in st'.ledger && |st'.log| == |st.log| + 1 && st.log <= st'.log
          && st'.log[|st.log|].key == k.value && st'.log[|st.log|].item == items[n])
    requires st'.log <= r.log && st.ledger.Keys <= st'.ledger.Keys
    requires forall j :: |st'.log| <= j < |r.log| ==> r.log[j].key !in st'.ledger
    requires forall j :: |st'.log| <= j < |r.log| ==>
      exists i :: LatestWithKey(init, i, r.log[j].key) && r.log[j].item == init[i]
    ensures forall j :: |st.log| <= j < |r.log| ==>
      exists i :: LatestWithKey(items, i, r.log[j].key) && r.log[j].item == items[i]
  {
    var n := |items| - 1;
    forall j | |st.log| <= j < |r.log|
      ensures exists i :: LatestWithKey(items, i, r.log[j].key) && r.log[j].item == items[i]
    {
      if j < |st'.log| {
        assert r.log[j] == st'.log[j];
        assert LatestWithKey(items, n, r.log[j].key);
      } else {
        var i :| LatestWithKey(init, i, r.log[j].key) && r.log[j].item == init[i];
        LatestKept(items, init, i, r.log[j].key);
      }
    }
  }

  lemma LatestKept(items: seq<Item>, init: seq<Item>, i: int, k: string)
    requires |items| > 0 && init == items[..|items| - 1]
    requires LatestWithKey(init, i, k) && PubDateKey(items[|items| - 1]) != Some(k)
    ensures LatestWithKey(items, i, k) && items[i] == init[i]
  {
  }

  // ---------------------------------------------------------------------------------------
  // One whole cycle (bot.js:94-203)
  // ---------------------------------------------------------------------------------------

  datatype CycleOutcome =
    | NoGuilds     // no guild configured: nothing fetched (bot.js:98-101)
    | FetchFailed  // the request or reading its body threw (bot.js:200-202)
    | Blocked      // the body is a challenge page (bot.js:118-121)
    | ParseFailed  // the XML parser threw (bot.js:127, bot.js:200-202)
    | Malformed    // no rss, no channel or no item list (bot.js:128-131)
    | Completed    // the item loop ran to its end

  datatype FeedRead = Failed(why: CycleOutcome) | Read(items: seq<Item>, thumbnail: Option<string>)

  /** `image?.[0].url?.[0] || null`: the feed image, if present and non-empty. */
  function Thumbnail(ch: Channel): (t: Option<string>)
    ensures t.Some? <==> ch.imageUrl.Some? && ch.imageUrl.value != ""
    ensures t.Some? ==> ch.imageUrl == t
  {
    if ch.imageUrl.Some? && ch.imageUrl.value != "" then ch.imageUrl else None
  }

  /** `!parsedData.rss || !parsedData.rss.channel || !parsedData.rss.channel[0].item`. */
  predicate ShapeMissing(doc: Option<Rss>) {
    doc.None? || doc.value.channel.None? || doc.value.channel.value.items.None?
  }

  /** Fetch, challenge-page check, ampersand repair, parse and shape check (bot.js:105-134). */
  function ReadFeed(fetched: FetchResult, parse: string -> ParseOutcome): (r: FeedRead)
    ensures r.Failed? ==> r.why in {FetchFailed, Blocked, ParseFailed, Malformed}
    ensures r == Failed(FetchFailed) <==> fetched.NetworkError?
    ensures r == Failed(Blocked) <==> fetched.Response? && IsBlockPage(fetched.body)
    ensures r.Read? || r.why == ParseFailed || r.why == Malformed ==>
      fetched.Response? && !IsBlockPage(fetched.body)
    ensures fetched.Response? && !IsBlockPage(fetched.body) ==>
      var p := parse(RepairAmpersands(fetched.body));
      && (r == Failed(ParseFailed) <==> p.ParseThrew?)
      && (r == Failed(Malformed) <==> p.Parsed? && ShapeMissing(p.rss))
      && (r.Read? ==> p.Parsed? && !ShapeMissing(p.rss)
                      && r.items == p.rss.value.channel.value.items.value
                      && r.thumbnail == Thumbnail(p.rss.value.channel.value))
  {
    match fetched
    case NetworkError => Failed(FetchFailed)
    case Response(body) =>
      if IsBlockPage(body) then Failed(Blocked)
      else match parse(RepairAmpersands(body))
        case ParseThrew => Failed(ParseFailed)
        case Parsed(doc) =>
          if ShapeMissing(doc) then Failed(Malformed)
          else
            var ch := doc.value.channel.value;
            Read(ch.items.value, Thumbnail(ch))
  }

  datatype CycleResult = CycleResult(outcome: CycleOutcome, log: seq<EntryLog>, ledger: Ledger)

  /** `fetchAndPostNews` run against guild table `reg` and the ledger `ledger` loaded from
      posted_news.json. */
  function Cycle(reg: Registry, ledger: Ledger, fetched: FetchResult, parse: string -> ParseOutcome,
                 gw: Gateway): (r: CycleResult)
    ensures r.outcome == NoGuilds <==> |reg.order| == 0
    ensures r.outcome != Completed ==> r.log == [] && r.ledger == ledger
    ensures |reg.order| > 0 && fetched.Response? && IsBlockPage(fetched.body) ==> r.outcome == Blocked
    ensures r.outcome == Completed ==> fetched.Response? && !IsBlockPage(fetched.body)
  {
    if |reg.order| == 0 then CycleResult(NoGuilds, [], ledger)
    else match ReadFeed(fetched, parse)
      case Failed(why) => CycleResult(why, [], ledger)
      case Read(items, thumbnail) =>
        var st := PostOldestFirst(items, NewsState(ledger, []), reg, thumbnail, gw);
        CycleResult(Completed, st.log, st.ledger)
  }

  /** A response whose repaired text the parser rejects, or parses to a document without
      `rss`, `channel` or `item`, aborts the cycle: nothing is posted or saved. */
  lemma ParseAborts(reg: Registry, ledger: Ledger, fetched: FetchResult, parse: string -> ParseOutcome,
                    gw: Gateway)
    requires |reg.order| > 0 && fetched.Response? && !IsBlockPage(fetched.body)
    requires var p := parse(RepairAmpersands(fetched.body)); p.ParseThrew? || ShapeMissing(p.rss)
    ensures var p := parse(RepairAmpersands(fetched.body));
      Cycle(reg, ledger, fetched, parse, gw)
        == CycleResult(if p.ParseThrew? then ParseFailed else Malformed, [], ledger)
  {
    var r := ReadFeed(fetched, parse);
    assert r.Failed?;
  }

  /** With no guild configured the feed and the gateway are never consulted. */
  lemma NoGuildsIgnoresFeed(reg: Registry, ledger: Ledger, f1: FetchResult, p1: string -> ParseOutcome,
                            g1: Gateway, f2: FetchResult, p2: string -> ParseOutcome, g2: Gateway)
    requires |reg.order| == 0
    ensures Cycle(reg, ledger, f1, p1, g1) == Cycle(reg, ledger, f2, p2, g2) == CycleResult(NoGuilds, [], ledger)
  {
  }

  /** What a completed cycle `r` did with the feed `items`, starting from `ledger`:
      - the posted dates are the new dates of the reversed feed, each once, oldest first;
      - the ledger file was written after every entry, each time with one new row;
      - every entry was offered to every guild;
      - each entry is the embed and the record of the last feed item of its date. */
  ghost predicate PostedAsSpecified(reg: Registry, ledger: Ledger, items: seq<Item>, thumbnail: Option<string>,
                              gw: Gateway, r: CycleResult) {
    && r.outcome == Completed
    && KeysOf(r.log) == NewKeys(Reversed(items), ledger.Keys)
    && Chained(ledger, r.log, r.ledger)
    && (forall j :: 0 <= j < |r.log| ==> r.log[j].outcomes == FanOut(reg.order, reg.channels, gw, r.log[j].message))
    && (forall j :: 0 <= j < |r.log| ==> BuiltFrom(r.log[j], thumbnail))
    && (forall j :: 0 <= j < |r.log| ==>
          exists i :: LatestWithKey(items, i, r.log[j].key) && r.log[j].item == items[i])
  }

  lemma CompletedCycle(reg: Registry, ledger: Ledger, fetched: FetchResult, parse: string -> ParseOutcome,
                       gw: Gateway, items: seq<Item>, thumbnail: Option<string>)
    requires |reg.order| > 0 && ReadFeed(fetched, parse) == Read(items, thumbnail)
    ensures PostedAsSpecified(reg, ledger, items, thumbnail, gw, Cycle(reg, ledger, fetched, parse, gw))
  {
    PostedFromLedger(reg, ledger, items, thumbnail, gw);
  }

  /** The item loop started from the ledger with an empty log does what a completed cycle
      promises. */
  lemma PostedFromLedger(reg: Registry, ledger: Ledger, items: seq<Item>, thumbnail: Option<string>, gw: Gateway)
    ensures var st := PostOldestFirst(items, NewsState(ledger, []), reg, thumbnail, gw);
      PostedAsSpecified(reg, ledger, items, thumbnail, gw, CycleResult(Completed, st.log, st.ledger))
  {
    var st0 := NewsState(ledger, []);
    PostedFrom(reg, items, thumbnail, gw, st0, PostOldestFirst(items, st0, reg, thumbnail, gw));
  }

  lemma PostedFrom(reg: Registry, items: seq<Item>, thumbnail: Option<string>, gw: Gateway,
                   st0: NewsState, st: NewsState)
    requires st0.log == [] && st == PostOldestFirst(items, st0, reg, thumbnail, gw)
    ensures PostedAsSpecified(reg, st0.ledger, items, thumbnail, gw, CycleResult(Completed, st.log, st.ledger))
  {
    PostedKeysFrom(reg, items, thumbnail, gw, st0, st);
    PostedEntriesFrom(reg, items, thumbnail, gw, st0, st);
  }

  /** The keys and the chain of writes of a loop started with an empty log. */
  lemma PostedKeysFrom(reg: Registry, items: seq<Item>, thumbnail: Option<string>, gw: Gateway,
                       st0: NewsState, st: NewsState)
    requires st0.log == [] && st == PostOldestFirst(items, st0, reg, thumbnail, gw)
    ensures KeysOf(st.log) == NewKeys(Reversed(items), st0.ledger.Keys)
    ensures Chained(st0.ledger, st.log, st.ledger)
  {
    PostKeys(items, st0, reg, thumbnail, gw);
    assert KeysOf([]) == [];
    PostChained(st0.ledger, items, st0, reg, thumbnail, gw);
  }

  /** The entries of a loop started with an empty log: fan-out, contents and source item. */
  lemma PostedEntriesFrom(reg: Registry, items: seq<Item>, thumbnail: Option<string>, gw: Gateway,
                          st0: NewsState, st: NewsState)
    requires st0.log == [] && st == PostOldestFirst(items, st0, reg, thumbnail, gw)
    ensures forall j :: 0 <= j < |st.log| ==> st.log[j].outcomes == FanOut(reg.order, reg.channels, gw, st.log[j].message)
    ensures forall j :: 0 <= j < |st.log| ==> BuiltFrom(st.log[j], thumbnail)
    ensures forall j :: 0 <= j < |st.log| ==> exists i :: LatestWithKey(items, i, st.log[j].key) && st.log[j].item == items[i]
  {
    PostFanOut(items, st0, reg, thumbnail, gw);
    PostBuilt(items, st0, reg, thumbnail, gw);
    PostSources(items, st0, reg, thumbnail, gw);
  }

  /** The ledger after a completed cycle: its old rows unchanged, plus a row for every date
      of the feed, and nothing else. */
  lemma CompletedLedger(reg: Registry, ledger: Ledger, fetched: FetchResult,
                        parse: string -> ParseOutcome, gw: Gateway)
    requires |reg.order| > 0 && ReadFeed(fetched, parse).Read?
    ensures var items := ReadFeed(fetched, parse).items;
      var r := Cycle(reg, ledger, fetched, parse, gw);
      && (forall k :: k in r.ledger <==> k in ledger || k in DatesOf(items))
      && (forall k :: k in ledger ==> r.ledger[k] == ledger[k])
  {
    var feed := ReadFeed(fetched, parse);
    var items := feed.items;
    var r := Cycle(reg, ledger, fetched, parse, gw);
    CompletedCycle(reg, ledger, fetched, parse, gw, items, feed.thumbnail);
    ChainedFacts(ledger, r.log, r.ledger);
    NewKeysFresh(Reversed(items), ledger.Keys);
    NewKeysCover(Reversed(items), ledger.Keys);
    DatesOfReversed(items);
  }

  /** Running the cycle again on the same feed, with the ledger it left, posts nothing and
      leaves the ledger as it is. */
  lemma CycleIdempotent(reg: Registry, ledger: Ledger, fetched: FetchResult,
                        parse: string -> ParseOutcome, gw: Gateway)
    requires Cycle(reg, ledger, fetched, parse, gw).outcome == Completed
    ensures var r := Cycle(reg, ledger, fetched, parse, gw);
      var again := Cycle(reg, r.ledger, fetched, parse, gw);
      again.outcome == Completed && again.log == [] && again.ledger == r.ledger
  {
    var items := ReadFeed(fetched, parse).items;
    var r := Cycle(reg, ledger, fetched, parse, gw);
    CompletedLedger(reg, ledger, fetched, parse, gw);
    DatesOfReversed(items);
    NewKeysAllSeen(Reversed(items), r.ledger.Keys);
    CompletedCycle(reg, r.ledger, fetched, parse, gw, items, ReadFeed(fetched, parse).thumbnail);
    var again := Cycle(reg, r.ledger, fetched, parse, gw);
    assert |KeysOf(again.log)| == 0;
  }

  // ---------------------------------------------------------------------------------------
  // The bot's state and its two entry points
  // ---------------------------------------------------------------------------------------

  /** The process state of bot.js: the in-memory guild table, the two JSON files, and the
      events produced so far. */
  class NewsBot {
    var guilds: Registry
    var guildFile: Registry
    var newsFile: Ledger
    var trace: seq<Event>

    /** Start-up: the guild table is loaded from guild_channels.json (bot.js:45). */
    constructor (savedGuilds: Registry, savedNews: Ledger)
      ensures guilds == savedGuilds && guildFile == savedGuilds
      ensures newsFile == savedNews && trace == []
    {
      guilds := savedGuilds;
      guildFile := savedGuilds;
      newsFile := savedNews;
      trace := [];
    }

    /** `!setpoechannel` from an administrator of guild `guildId`; `mentioned` is the first
        channel mentioned in the message. Returns whether the channel was set. */
    method SetPoeChannel(guildId: string, mentioned: Option<string>) returns (changed: bool)
      modifies this
      ensures changed <==> mentioned.Some?
      ensures mentioned.None? ==> guilds == old(guilds) && guildFile == old(guildFile)
      ensures mentioned.Some? ==> guilds == SetChannel(old(guilds), guildId, mentioned.value)
      ensures mentioned.Some? ==> guildFile == guilds
      ensures newsFile == old(newsFile) && trace == old(trace)
    {
      if mentioned.None? {
        return false;
      }
      guilds := SetChannel(guilds, guildId, mentioned.value);
      guildFile := guilds;
      return true;
    }

    /** The guild loop of one entry (bot.js:181-193): the message is offered to every
        configured guild in turn, and each outcome is recorded. */
    method Announce(msg: Message, gw: Gateway)
      modifies this`trace
      ensures trace == old(trace) + FanOut(guilds.order, guilds.channels, gw, msg)
    {
      var order := guilds.order;
      var channels := guilds.channels;
      var j := 0;
      while j < |order|
        invariant 0 <= j <= |order|
        invariant trace == old(trace) + FanOut(order[..j], channels, gw, msg)
        decreases |order| - j
      {
        var guildId := order[j];
        var event := SendToGuild(gw, guildId, channels[guildId], msg);
        FanOutSnoc(order, channels, gw, msg, j);
        trace := trace + [event];
        j := j + 1;
      }
      assert order[..j] == order;
    }

    /** One guild of the fan-out: the channel lookup in the cache and, when it is there,
        the send. */
    method SendToGuild(gw: Gateway, guildId: string, cfg: GuildConfig, msg: Message) returns (event: Event)
      ensures event == Deliver(gw, guildId, cfg, msg)
    {
      var channelId := cfg.channelId;
      if channelId in gw.cache {
        var delivered := gw.accepts(channelId, msg);
        event := Attempted(guildId, channelId, msg, delivered);
      } else {
        event := ChannelMissing(guildId, channelId);
      }
    }

    /** The item loop (bot.js:137-199): the items are walked from the last to the first; an
        item with a date not yet in the ledger is announced, then recorded and the ledger
        saved. */
    method PostItems(items: seq<Item>, thumbnail: Option<string>, gw: Gateway)
      modifies this
      ensures var r := PostOldestFirst(items, NewsState(old(newsFile), []), old(guilds), thumbnail, gw);
        newsFile == r.ledger && trace == old(trace) + EventsOf(r.log)
      ensures guilds == old(guilds) && guildFile == old(guildFile)
    {
      var postedNews := newsFile;
      ghost var st := NewsState(postedNews, []);
      ghost var goal := PostOldestFirst(items, st, guilds, thumbnail, gw);
      var i := |items|;
      assert items[..i] == items;
      while i > 0
        invariant 0 <= i <= |items|
        invariant PostOldestFirst(items[..i], st, guilds, thumbnail, gw) == goal
        invariant postedNews == st.ledger && newsFile == st.ledger
        invariant trace == old(trace) + EventsOf(st.log)
        invariant guilds == old(guilds) && guildFile == old(guildFile)
        decreases i
      {
        assert items[..i][..i - 1] == items[..i - 1];
        i := i - 1;
        postedNews, st := PostOne(postedNews, items[i], thumbnail, gw, old(trace), st);
      }
    }

    /** One turn of the item loop (bot.js:138-198), from the in-memory ledger `postedNews`. */
    method PostOne(postedNews: Ledger, item: Item, thumbnail: Option<string>, gw: Gateway,
                   ghost t0: seq<Event>, ghost st: NewsState)
      returns (posted: Ledger, ghost st': NewsState)
      modifies this
      requires postedNews == st.ledger && newsFile == st.ledger && trace == t0 + EventsOf(st.log)
      ensures st' == PostItem(st, item, guilds, thumbnail, gw)
      ensures posted == st'.ledger && newsFile == st'.ledger && trace == t0 + EventsOf(st'.log)
      ensures guilds == old(guilds) && guildFile == old(guildFile)
    {
      posted, st' := postedNews, st;
      PostItemCases(st, item, guilds, thumbnail, gw);
      var pubDateRaw := item.pubDate;
      if pubDateRaw.Some? && pubDateRaw.value != "" && pubDateRaw.value !in posted {
        var key := pubDateRaw.value;
        var msg := EmbedMessage(BuildEmbed(item, key, thumbnail));
        ghost var before := trace;
        Announce(msg, gw);
        posted := posted[key := RecordOf(item)];
        newsFile := posted;
        trace := trace + [NewsSaved(posted)];
        ghost var e := EntryLog(key, item, RecordOf(item), msg, FanOut(guilds.order, guilds.channels, gw, msg), posted);
        TraceGrows(t0, st.log, e, before, trace);
        st' := NewsState(posted, st.log + [e]);
      }
    }

    /** `fetchAndPostNews`: one news cycle. */
    method FetchAndPostNews(fetched: FetchResult, parse: string -> ParseOutcome, gw: Gateway)
      returns (outcome: CycleOutcome)
      modifies this
      ensures var r := Cycle(old(guilds), old(newsFile), fetched, parse, gw);
        outcome == r.outcome && newsFile == r.ledger && trace == old(trace) + EventsOf(r.log)
      ensures guilds == old(guilds) && guildFile == old(guildFile)
    {
      if |guilds.order| == 0 {
        return NoGuilds;
      }
      if fetched.NetworkError? {
        return FetchFailed;
      }
      var text := fetched.body;
      if Contains(text, "<html") || Contains(text, "Cloudflare") {
        return Blocked;
      }
      text := RepairAmpersands(text);
      var parsed := parse(text);
      if parsed.ParseThrew? {
        return ParseFailed;
      }
      var doc := parsed.rss;
      if ShapeMissing(doc) {
        return Malformed;
      }
      var items := doc.value.channel.value.items.value;
      var thumbnail := Thumbnail(doc.value.channel.value);

      PostItems(items, thumbnail, gw);
      return Completed;
    }
  }

  /** The observable events of a log: each entry's guild outcomes followed by its save. */
  function EventsOf(log: seq<EntryLog>): seq<Event>
    decreases |log|
  {
    if |log| == 0 then []
    else EventsOf(log[..|log| - 1]) + log[|log| - 1].outcomes + [NewsSaved(log[|log| - 1].saved)]
  }

  /** Appending an entry's events to a trace that ends with a log's events gives a trace
      that ends with the events of the longer log. */
  lemma TraceGrows(t0: seq<Event>, log: seq<EntryLog>, e: EntryLog, before: seq<Event>, after: seq<Event>)
    requires before == t0 + EventsOf(log)
    requires after == before + e.outcomes + [NewsSaved(e.saved)]
    ensures after == t0 + EventsOf(log + [e])
  {
    EventsOfSnoc(log, e);
  }

  lemma EventsOfSnoc(log: seq<EntryLog>, e: EntryLog)
    ensures EventsOf(log + [e]) == EventsOf(log) + e.outcomes + [NewsSaved(e.saved)]
  {
    assert (log + [e])[..|log|] == log;
  }
}
