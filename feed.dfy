/** What the two RSS cycles receive from the outside world. The HTTP request and the XML
    parser are not modelled: a cycle is given the outcome of the request and a parser
    function, and sees the parsed document as optional fields (an absent element of the
    parser's output is `None`). Both cycles read each field as element `[0]`. */
module Feed {
  import opened Text

  /** One `<item>` of a feed: `title`, `description`, `link`, `pubDate` and `category` are read
      by the news cycle, `guid` by the X-post cycle. */
  datatype Item = Item(
    title: Option<string>,
    description: Option<string>,
    link: Option<string>,
    pubDate: Option<string>,
    category: Option<string>,
    guid: Option<string>)

  /** `rss.channel[0]`: its `item` list and the url of its `image` element. */
  datatype Channel = Channel(items: Option<seq<Item>>, imageUrl: Option<string>)

  datatype Rss = Rss(channel: Option<Channel>)

  /** The parser either throws or yields a document whose root may lack `rss`. */
  datatype ParseOutcome = ParseThrew | Parsed(rss: Option<Rss>)

  /** The request either rejects (a network failure) or yields a response body. The response
      status is not consulted by either cycle. */
  datatype FetchResult = NetworkError | Response(body: string)

  /** The body is a challenge page rather than a feed (bot.js:118, utils/getXPosts.js:35). */
  predicate IsBlockPage(body: string) {
    Contains(body, "<html") || Contains(body, "Cloudflare")
  }

  /** JavaScript's `x || fallback` on an optional string: absent and empty both fall back. */
  function OrDefault(v: Option<string>, fallback: string): (r: string)
    ensures v.Some? && v.value != "" ==> r == v.value
    ensures v.None? || v.value == "" ==> r == fallback
    ensures fallback != "" ==> r != ""
  {
    if v.Some? && v.value != "" then v.value else fallback
  }
}
