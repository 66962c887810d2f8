/** The per-guild configuration shared by both cycles, the `!setpoechannel` update of it,
    and the Discord client as the cycles see it: a channel cache to look channels up in and a
    send that either succeeds or throws.

    bot.js stores a bare channel id per guild (bot.js:81) while utils/getXPosts.js reads an
    object `{ channelId, xposts }` (utils/getXPosts.js:61-63); both are modelled with one
    record. */
module Guilds {
  import opened Text
  import opened EntryFormat

  datatype GuildConfig = GuildConfig(channelId: string, xposts: bool)

  /** The `guildChannels` object: a map from guild id to configuration together with the
      order in which `for ... in` and `Object.entries` visit its keys (insertion order; guild
      ids are snowflakes too large to count as array indices). */
  datatype GuildTable = GuildTable(channels: map<string, GuildConfig>, order: seq<string>) {
    predicate WellFormed() {
      && (forall i, j :: 0 <= i < j < |order| ==> order[i] != order[j])
      && (forall g :: g in channels ==> g in order)
      && (forall g :: g in order ==> g in channels)
    }
  }

  type Registry = t: GuildTable | t.WellFormed() witness GuildTable(map[], [])

  /** `guildChannels[guildId] = channelId`. The stored value is a bare string, which has no
      `xposts` property, so the guild's X-post flag reads as false afterwards. A guild seen for
      the first time is visited last; a known guild keeps its place. */
  function SetChannel(reg: Registry, guildId: string, channelId: string): (r: Registry)
    ensures r.channels.Keys == reg.channels.Keys + {guildId}
    ensures r.channels[guildId] == GuildConfig(channelId, false)
    ensures forall g :: g in reg.channels && g != guildId ==> r.channels[g] == reg.channels[g]
    ensures reg.order <= r.order && |r.order| <= |reg.order| + 1
  {
    var order := if guildId in reg.channels then reg.order else reg.order + [guildId];
    GuildTable(reg.channels[guildId := GuildConfig(channelId, false)], order)
  }

  /** A message as handed to `channel.send`: an embed (news) or plain text (X posts). */
  datatype Message = EmbedMessage(embed: Embed) | TextMessage(text: string)

  /** The Discord client as an oracle: the ids of the channels its cache resolves, and
      whether a send of a message to a channel succeeds (`false`: the send threw). */
  datatype Gateway = Gateway(cache: set<string>, accepts: (string, Message) -> bool)

  /** What a cycle does that can be observed from outside: a send attempt and its outcome,
      a channel that could not be resolved, or a write of the news ledger file. */
  datatype Event =
    | Attempted(guildId: string, channelId: string, message: Message, delivered: bool)
    | ChannelMissing(guildId: string, channelId: string)
    | NewsSaved(ledger: map<string, NewsRecord>)
}
