# Path of Exile announcement bot — a verified model of its core

This project models the Discord bot that relays Path of Exile news. The model has three
parts.

- **The news cycle** (`fetchAndPostNews` in bot.js) and the `!setpoechannel` command. It
  fetches the news RSS feed and rejects a challenge page. It repairs bare ampersands, parses
  the feed and walks the items oldest first. It skips items whose publication date is
  missing or already in the ledger (posted_news.json). For each new item it builds an
  embed, offers it to every configured guild, and writes the ledger.
- **The X-post cycle** (`fetchXPosts` in utils/getXPosts.js). It reads status ids from the
  guids of a mirror feed and checks them against posted_x_news.json. It sends a fixupx.com
  link to the guilds that enabled X posts, and saves the list once per cycle.
- **The poll cadence** of utils/polling.js. The interval depends on the hour of the day.
  `setupPolling` arms a timer that re-arms itself at most once.

The outside world enters as parameters:

- The HTTP request is a `FetchResult`: a network error or a body.
- The XML parser is a function from text to a `ParseOutcome`. Its documents have optional
  fields for absent elements.
- The Discord client is a `Gateway`: the set of channel ids its cache resolves, and a
  function saying whether a send to a channel succeeds.
- The clock is the hour handed to each timer firing.

The JSON files are fields of the `News.NewsBot` class, or inputs and outputs of the X-post
cycle.

Modules follow the program:

- `Text`: the JavaScript string operations used.
- `Entities`: the ampersand repair.
- `Markup`: the description clean-up.
- `EntryFormat`: the short date, the field defaults and the embed.
- `Feed`: the inputs.
- `Guilds`: the guild table, the gateway and the events.
- `News`: the news cycle.
- `XPosts`: the X-post cycle.
- `Polling`: the cadence.

Each cycle is specified by a function: `News.Cycle` and `XPosts.XCycle`. The loops of
bot.js and utils/getXPosts.js are methods proved equal to those functions. The lemmas
state what the functions promise.

In utils/getXPosts.js an item without a guid makes `item.guid[0]` throw in the middle of
the item loop (utils/getXPosts.js:47). The catch at utils/getXPosts.js:81 then skips the
save at utils/getXPosts.js:79, but the links already sent for earlier items stand.
`XPosts.XCycleCrashed` states this: nothing is saved, and the sends are the announcements
of the ids the earlier items added. The next cycle starts from the same list, so while such
an item stays in the feed those links are sent again on every cycle.

The two source files disagree on the shape of a guild's entry in guild_channels.json:

- bot.js:81 stores a bare channel id.
- utils/getXPosts.js:61-63 reads an object `{ channelId, xposts }`.

Both are modelled by one record, `GuildConfig(channelId, xposts)`. A bare string has no
`xposts` property, so `!setpoechannel` stores the flag as false. A guild set by that command
therefore never receives X posts.

## Model

| member | source | states |
|---|---|---|
| Text.ContainsIff | bot.js:118 | `includes` holds exactly when the pattern occurs at some position of the text |
| Text.Trim | bot.js:150 | `trim()` keeps one piece of the text: everything between its leading and its trailing whitespace; that piece neither starts nor ends with whitespace |
| Text.TrimTrimmed | bot.js:150 | text that neither begins nor ends with whitespace is left unchanged by `trim()` |
| Entities.RepairAmpersands | bot.js:124 | the global replacement of a bare `&` by `&amp;`, as a left-to-right scan; what it guarantees is stated by the four lemmas below |
| Entities.RepairEscapesAll | bot.js:124 | after the repair, every `&` opens one of `amp;`, `lt;`, `gt;`, `quot;` or `apos;` |
| Entities.RepairWellEscaped | bot.js:124 | text without a bare `&` is unchanged by the repair |
| Entities.RepairFixpointIff | bot.js:124 | the repair leaves text unchanged exactly when the text has no bare `&` |
| Entities.RepairIdempotent | bot.js:124 | repairing twice equals repairing once |
| Markup.StripReadMore | bot.js:150 | the global replacement of the lazy `<a href=".*?">Read More.<\/a>` pattern by nothing; its behaviour is stated by the two lemmas below |
| Markup.StripReadMoreTagFree | bot.js:150 | text without `<` has no "Read More" anchor to remove |
| Markup.ReadMoreAnchorRemoved | bot.js:150 | a "Read More" anchor between two tag-free stretches is cut out whole: the anchor goes, both stretches stay |
| Markup.AnchorsToMarkdown | bot.js:157 | the global anchor-to-Markdown replacement as a left-to-right scan; its behaviour is stated by the two lemmas below |
| Markup.AnchorsTagFree | bot.js:157 | text without `<` has no anchor to convert |
| Markup.AnchorConverted | bot.js:152-157 | an anchor `<a href="U">T</a>` between two tag-free stretches becomes `[T](U)` and the rest is kept, as in the example beside the code |
| Markup.Shorten | bot.js:160-162 | a body longer than 1000 characters becomes its first 1000 characters followed by `...`; a shorter one is kept |
| Markup.CleanBody | bot.js:149-162 | the cleaned description is at most 1003 characters long |
| Markup.CleanPlainBody | bot.js:149-162 | plain, trimmed text is only truncated |
| Feed.IsBlockPage | bot.js:118 | the challenge-page test: the body contains `<html` or `Cloudflare` (occurrence characterised by `Text.ContainsIff`) |
| Feed.OrDefault | bot.js:138-142 | a present, non-empty field gives its value; an absent or empty one gives the default; the result is never empty when the default is not |
| EntryFormat.JoinSplit | bot.js:147 | joining the pieces of a split on `" "` gives the text back |
| EntryFormat.ShortDate | bot.js:147 | `split(" ").slice(0, 4).join(" ")`; what it yields is stated by the lemma below |
| EntryFormat.ShortDateIsPrefix | bot.js:147 | the display date is the raw date up to its fourth space; a date with fewer than four spaces is kept whole |
| EntryFormat.RecordOf | bot.js:196 | the stored record is the title and link after defaulting, so neither is empty |
| EntryFormat.BuildEmbed | bot.js:138-178 | the embed carries the defaulted title and link, the item's category or "General", the raw date up to its fourth space, the feed image, and the cleaned description (item's or "No Description", at most 1003 characters) followed by the "Read More" footer with the link |
| Guilds.SetChannel | bot.js:81 | the guild gets the new channel with the X-post flag off; every other guild is unchanged; a new guild is visited last and a known one keeps its place |
| News.PubDateKey | bot.js:141-145 | an item has a ledger key exactly when it has a non-empty publication date; the key is that date |
| News.Deliver | bot.js:182-191 | the outcome for one guild: its channel is missing from the cache, or one send was attempted, succeeding or caught |
| News.FanOut | bot.js:181-193 | one event per configured guild |
| News.FanOutAt | bot.js:181-193 | guild `i` gets exactly the outcome of its own lookup and send, so a missing channel or a failed send affects only that guild |
| News.ReversedAt | bot.js:137 | the reversed feed holds item `n-1-i` at position `i` |
| News.DatesOfIff | bot.js:145 | a date belongs to a feed exactly when some item carries it |
| News.DatesOfReversed | bot.js:137 | reversing the feed keeps its set of dates |
| News.NewKeysFresh | bot.js:145 | the dates the reference walk keeps are new to the ledger, pairwise distinct, and each belongs to an item |
| News.NewKeysCover | bot.js:145 | every date of the feed was already in the ledger or is kept |
| News.NewKeysAllSeen | bot.js:145 | when every date is already in the ledger nothing is kept |
| News.PostItem | bot.js:138-198 | one turn of the item loop: an item without a new date changes nothing; otherwise one entry is announced, recorded and saved; its properties are stated by the Post lemmas below |
| News.PostOldestFirst | bot.js:137-199 | the item loop over the reversed feed as a fold of `PostItem`; the Post lemmas below state what it does |
| News.PostKeys | bot.js:137-198 | the entries posted are exactly the reference walk's dates over the reversed feed, in that order: oldest first, with later duplicates skipped |
| News.ChainedKeys | bot.js:196-197 | after a chain of writes, a date is in the ledger exactly when it was there before or an entry posted it |
| News.ChainedRows | bot.js:196-197 | a chain of writes never changes an old row, and each entry's row holds that entry's record |
| News.ChainedDistinct | bot.js:145-196 | no date is posted twice |
| News.SnapshotAfterEntry | bot.js:196-197 | the file written after entry `j` holds the old rows and the dates of entries `0..j`, and no later date |
| News.PostExtends | bot.js:137-199 | the item loop only appends entries |
| News.PostChained | bot.js:195-197 | each entry's write adds exactly its own date to the ledger read before it |
| News.PostFanOut | bot.js:180-193 | every entry's message was offered to every guild, in table order |
| News.PostBuilt | bot.js:138-178 | every entry carries its item's embed and its item's record |
| News.PostFresh | bot.js:145 | every entry's date was absent from the ledger the loop started with |
| News.PostSources | bot.js:137-145 | every entry comes from the last feed item carrying its date: the one the reversed walk meets first |
| News.Thumbnail | bot.js:134 | there is a thumbnail exactly when the feed image is present and non-empty, and then it is that image |
| News.ReadFeed | bot.js:105-134 | a network error fails the fetch and a challenge page blocks, both exactly; otherwise the parser is given the repaired body, a throw fails the parse and a document without rss, channel or item list is malformed, both exactly, and the items and image read are the document's |
| News.ParseAborts | bot.js:127-131 | a parse that throws, or gives no rss, channel or item list, ends the cycle with nothing posted and the ledger as it was |
| News.Cycle | bot.js:94-131 | no guild means nothing happens, exactly; every early exit leaves the ledger untouched and posts nothing; a challenge page always blocks |
| News.NoGuildsIgnoresFeed | bot.js:98-101 | with no guild configured, the feed and the gateway are never consulted |
| News.CompletedCycle | bot.js:94-203 | a completed cycle posts the new dates oldest first; it chains the writes, offers each entry to every guild, builds each entry from the last item with its date |
| News.CompletedLedger | bot.js:137-198 | after a completed cycle a date is in the ledger exactly when it was there before or some item carries it; old rows are unchanged |
| News.CycleIdempotent | bot.js:145 | a second cycle on the same feed, with the ledger the first left, posts nothing and changes nothing |
| News.NewsBot.SetPoeChannel | bot.js:73-85 | without a mentioned channel nothing changes; otherwise the table becomes `SetChannel` of the old one and is saved to the file; the news file and events are untouched |
| News.NewsBot.Announce | bot.js:181-193 | the guild loop appends exactly `FanOut` of the table to the events and changes nothing else |
| News.NewsBot.SendToGuild | bot.js:182-191 | the lookup and send for one guild produce exactly `Deliver`'s outcome |
| News.NewsBot.PostOne | bot.js:138-198 | one turn of the item loop leaves the news file and events that `PostItem` gives, and the guild table untouched |
| News.NewsBot.PostItems | bot.js:133-199 | the item loop leaves the news file and the events that `PostOldestFirst` gives |
| News.NewsBot.FetchAndPostNews | bot.js:94-203 | the method's outcome, news file and events are those of `Cycle`; the guild table and its file are untouched |
| XPosts.FindStatus | utils/getXPosts.js:48 | the scan finds the leftmost `status/` followed by a digit, or reports that there is none |
| XPosts.DigitRun | utils/getXPosts.js:48 | `\d+` takes the longest run of digits |
| XPosts.StatusIdMatch | utils/getXPosts.js:48 | a guid has no id exactly when no `status/` is followed by a digit; otherwise the id is the whole digit run after the leftmost such `status/` |
| XPosts.StatusIdOfFixupUrl | utils/getXPosts.js:48-56 | the link sent for an id names that same id |
| XPosts.XDeliver | utils/getXPosts.js:61-71 | for one guild: nothing unless its flag is set and its channel cached, else one caught send of the link |
| XPosts.XFanOut | utils/getXPosts.js:59-72 | the guild loop for one link, in table order; characterised by `XFanOutEligible` |
| XPosts.Eligible | utils/getXPosts.js:59-64 | a guild is eligible exactly when its X-post flag is set and its channel is in the cache |
| XPosts.XFanOutEligible | utils/getXPosts.js:59-72 | exactly the eligible guilds get a send, one each, in table order, all of the same link |
| XPosts.XLoop | utils/getXPosts.js:45-76 | the item loop in feed order, throwing at an item without a guid; the XLoop lemmas below state what it does |
| XPosts.XLoopAppends | utils/getXPosts.js:45-76 | the list only grows at its end, by ids it did not hold, each the status id of some item |
| XPosts.FirstInIsFirst | utils/getXPosts.js:45-53 | the position found is the first occurrence of the id, and none is found exactly when the id never occurs |
| XPosts.FirstSeenOrder | utils/getXPosts.js:45-75 | the reference walk of first occurrences lists each id once, in the order the feed first carries it, not reversed |
| XPosts.XLoopFirstSeen | utils/getXPosts.js:45-76 | a loop that does not throw appends exactly the reference walk of first occurrences |
| XPosts.XLoopCompleted | utils/getXPosts.js:45-76 | a loop that does not throw meets every promise of a completed cycle (`SavedAsSpecified`) |
| XPosts.XLoopDistinct | utils/getXPosts.js:53-75 | a list without repeats stays without repeats |
| XPosts.XLoopEvents | utils/getXPosts.js:53-75 | the sends are, for each new id in the order it was appended, its link's fan-out |
| XPosts.XLoopCover | utils/getXPosts.js:45-76 | a loop that does not throw leaves every item's status id in the list |
| XPosts.XLoopSettled | utils/getXPosts.js:45-53 | over items whose ids are all listed, the loop changes nothing and sends nothing |
| XPosts.XLoopNoCrash | utils/getXPosts.js:47 | a loop that does not throw met no item without a guid |
| XPosts.XLoopCrashCause | utils/getXPosts.js:47 | a loop that throws met an item without a guid |
| XPosts.XLoopCrashPrefix | utils/getXPosts.js:45-47 | a throw at the first guid-less item keeps exactly the list and sends of the items before it |
| XPosts.LoadedIds | utils/getXPosts.js:20-23 | a loaded value that is not an array is replaced by the empty list |
| XPosts.XItems | utils/getXPosts.js:41-42 | the items of the parsed document; none when the parser throws or a step of `rss.channel[0].item` is missing, which throws |
| XPosts.XCycle | utils/getXPosts.js:8-84 | the list is saved exactly when the cycle completes; no guild means nothing is done, exactly; the exits before the parse send nothing; a challenge page blocks, exactly; a saved list extends the loaded one |
| XPosts.XCycleCompleted | utils/getXPosts.js:20-79 | a completed cycle's list is the loaded one plus new ids, each from an item, none listed before, covering every item, without repeats when the loaded list had none, in the order the feed first carries them; the sends announce the new ids in that order |
| XPosts.XCycleCrashed | utils/getXPosts.js:45-83 | a cycle that throws saves nothing; a throw before the loop sends nothing; a throw at a guid-less item keeps the sends for the ids the items before it added |
| XPosts.XCycleIdempotent | utils/getXPosts.js:50-53 | a second cycle on the same feed, with the list the first saved, sends nothing and saves the same list |
| XPosts.XLoopUnfold | utils/getXPosts.js:45-75 | one turn of the item loop: a missing guid throws, no id or a listed id skips, a new id is announced and appended |
| XPosts.FetchXPosts | utils/getXPosts.js:8-84 | the method's outcome, sends and saved list are those of `XCycle` |
| XPosts.ProcessItems | utils/getXPosts.js:45-76 | the method's loop over the items yields exactly the list, sends and throw of `XLoop` |
| XPosts.SendToXGuilds | utils/getXPosts.js:59-72 | the guild loop for one link produces exactly `XFanOut` |
| Polling.PollInterval | utils/polling.js:1-13 | two hours exactly when the hour is 22 or later or before 5, and ten minutes exactly when it is 5 to 21; night is twelve times day |
| Polling.Setup | utils/polling.js:15-17 | the first timer runs at the current interval with the recheck callback |
| Polling.Tick | utils/polling.js:17-31 | each firing fetches first; the timer is replaced exactly when it rechecks and the new interval differs; a replacement runs at the new interval, only fetches, and follows a clear of the old timer |
| Polling.FirstChange | utils/polling.js:21-22 | the first firing whose hour gives another interval |
| Polling.RunValid | utils/polling.js:16-29 | the timer always runs at `interval`, which is always one of the two values |
| Polling.FetchOnlyIsFinal | utils/polling.js:27-29 | once the replacement timer is armed, interval and timer never change again |
| Polling.AtMostOneSwap | utils/polling.js:22-30 | any run replaces the timer at most once, and never after the replacement |
| Polling.RunFromRecheck | utils/polling.js:17-31 | while every hour gives the current interval the timer is kept; at the first hour that does not, the run ends on a fetch-only timer at that hour's interval |
| Polling.OneFetchPerFiring | utils/polling.js:17-29 | every firing fetches exactly once |
| Polling.Poller.Fire | utils/polling.js:17-31 | a firing of the timer updates `interval`, `timer` and the event log as `Tick` says |

## Left out

- File and JSON I/O (utils/helpers.js and bot.js:27-42) are not modelled. A file is a value: guild_channels.json and posted_news.json are fields of `News.NewsBot`, posted_x_news.json is the input `XFile` and the output list. A file that fails to parse or write is not modelled.
- The HTTP request and its headers are not modelled: the response is the input `FetchResult`. The code never checks the HTTP status, so an error page that is not a challenge page is parsed like any other body. The model follows the code here.
- The xml2js parser is a parameter. Its documents are modelled only as far as the bot reads them: the first text of each element, the channel's image url and the item guid. An element with attributes, which xml2js turns into an object instead of text (with `mergeAttrs` in bot.js:127 the attributes become its properties, as for `<category domain="…">` or `<guid isPermaLink="false">`), is not modelled: every field the bot reads is text or absent.
- discord.js is not modelled. The channel cache is a set of ids, a send's success is an oracle, and the embed is a plain record. `EmbedBuilder`'s own validation (length limits, a URL of `#`) and the embed colour are left out. Replies to the administrator and the `!poenewshelp` command are left out too.
- The admin and bot-author checks and the command parsing (bot.js:52-70) are not modelled: `SetPoeChannel` receives the guild id and the mentioned channel.
- News.Deliver: a guild stored in the object form is looked up by its `channelId`. bot.js:182-183 would instead pass the whole object to the cache and find nothing. The model reads both files through the one `GuildConfig` record.
- Timers, `async`/`await` and the clock are not modelled. Each firing is a call of `Poller.Fire` or a step of `Tick`, with the hour read after its fetch. Firings that overlap because a fetch outlasts the interval, and a `!setpoechannel` that arrives while a cycle awaits, are left out.
- The fixed 15-minute timer of bot.js:210 and the start-up fetch at bot.js:212-215 are not modelled. polling.js and getXPosts.js are not wired into bot.js, and the model does not wire them either.
- Lengths are counted in characters, not in UTF-16 code units. `substring(0, 1000)` can therefore differ from the model on text beyond the Basic Multilingual Plane.
- The case-insensitive flag of the anchor pattern folds ASCII letters only.
- Guild ids and dates that collide with keys inherited by every JavaScript object (`__proto__`, `constructor`) are not modelled: the table and the ledger are plain maps.
- Guild ids that are array-index keys (such as `"42"`) are not modelled: JavaScript visits those keys first, in numeric order, while the model's key order is insertion order. Discord guild ids are snowflakes above the array-index range.
- XPosts.XFile: a list holding non-string values is not modelled. The ids are strings, as getXPosts.js writes them.
- Console logging and locale time formatting are left out.
