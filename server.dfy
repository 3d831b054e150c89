/**
 * The HTTP side (server.rs): the routing decision of `send_rss` over a
 * read-only view of the feeds, and `build_rss`, which turns one feed's
 * snapshot into an RSS channel.
 */
module Server {
  import opened Wrappers
  import opened State
  import opened Rss
  import Text
  import PercentCoding

  // ---------------------------------------------------------------------
  // build_rss
  // ---------------------------------------------------------------------

  /** `env!("CARGO_PKG_NAME")`. */
  const Generator := "matrix-to-rss"
  const Docs := "https://cyber.harvard.edu/rss/rss.html"
  const Language := "en-US"
  const Ttl := "60"
  const ProtocolCategory := Category("Matrix", None)

  /** The item one message becomes. */
  function ItemFor(m: Message, homeserverUrl: string): Item
  {
    EmptyItem.(
      title := Some(if m.pageName.Some? then m.pageName.value else m.content),
      author := Some(m.sender),
      link := Some(m.link),
      source := Some(Source(homeserverUrl, Some(homeserverUrl))),
      pubDate := Some(Rfc2822(m.time)),
      description := Some(m.content),
      content := Some(m.content))
  }

  /**
   * What a feed reader can reconstruct from an item: everything but a page
   * title that happens to equal the message body, which reads as no title.
   */
  function MessageOf(item: Item): Option<Message>
  {
    if item.author.Some? && item.description.Some? && item.link.Some? && item.title.Some?
       && item.pubDate.Some?
    then
      var content := item.description.value;
      Some(Message(item.author.value, content,
                   if item.title.value == content then None else Some(item.title.value),
                   item.link.value, item.pubDate.value.instant))
    else None
  }

  /** An item carries its message: sender, body, link, time, and a page title unless it equals the body. */
  lemma ItemRoundTrip(m: Message, homeserverUrl: string)
    requires m.pageName != Some(m.content)
    ensures MessageOf(ItemFor(m, homeserverUrl)) == Some(m)
    ensures ItemFor(m, homeserverUrl).content == Some(m.content)
    ensures ItemFor(m, homeserverUrl).source == Some(Source(homeserverUrl, Some(homeserverUrl)))
  {
  }

  /** The title falls back to the body: an untitled message renders like one titled with its own body. */
  lemma TitleFallback(m: Message, homeserverUrl: string)
    ensures ItemFor(m.(pageName := None), homeserverUrl) == ItemFor(m.(pageName := Some(m.content)), homeserverUrl)
  {
  }

  /** `channel` is the RSS rendering of feed `name` holding `messages`, built at `now`. */
  predicate RendersFeed(channel: Channel, name: string, messages: seq<Message>, homeserverUrl: string, now: Instant)
  {
    && channel.title == name + " messages"
    && channel.link == ""
    && channel.description == "An RSS feed for " + name + " matrix channel messages"
    && channel.language == Some(Language)
    && channel.generator == Some(Generator)
    && channel.docs == Some(Docs)
    && channel.ttl == Some(Ttl)
    && channel.categories == [ProtocolCategory]
    && channel.pubDate == Some(Rfc2822(now))
    && channel.lastBuildDate == channel.pubDate
    && |channel.items| == |messages|
    && forall k :: 0 <= k < |messages| ==> channel.items[k] == ItemFor(messages[k], homeserverUrl)
  }

  /** `build_rss`: fixed channel fields, then one item per message pushed in order, then the dates. */
  method BuildRss(name: string, messages: seq<Message>, homeserverUrl: string, now: Instant)
    returns (channel: Channel)
    ensures RendersFeed(channel, name, messages, homeserverUrl, now)
  {
    channel := EmptyChannel.(
      title := name + " messages",
      description := "An RSS feed for " + name + " matrix channel messages",
      language := Some(Language),
      generator := Some(Generator),
      ttl := Some(Ttl),
      docs := Some(Docs),
      categories := [ProtocolCategory]);
    var items: seq<Item> := [];
    for i := 0 to |messages|
      invariant |items| == i
      invariant forall k :: 0 <= k < i ==> items[k] == ItemFor(messages[k], homeserverUrl)
    {
      items := items + [ItemFor(messages[i], homeserverUrl)];
    }
    channel := channel.(items := items);
    var date := Rfc2822(now);
    channel := channel.(pubDate := Some(date));
    channel := channel.(lastBuildDate := Some(date));
  }

  // ---------------------------------------------------------------------
  // send_rss
  // ---------------------------------------------------------------------

  datatype Request = Request(verb: string, path: string)

  datatype Body = Empty | Rss(channel: Channel)

  /** A response, or none at all when the handler panics (the connection is dropped). */
  datatype Response = Served(status: nat, headers: seq<(string, string)>, body: Body) | Aborted

  const StatusOk: nat := 200
  const StatusNotFound: nat := 404
  const StatusMethodNotAllowed: nat := 405

  const RssHeaders := [("Content-Type", "text/xml; charset=utf-8"), ("Access-Control-Allow-Origin", "*")]

  /** What `send_rss` decides before any rendering. */
  datatype Decision = WrongMethod | Panics | NoSuchFeed | Feed(name: string)

  /**
   * The routing decision, given the names the feed map holds. The method
   * is checked first; then the path is split on `/`, segment 1 is decoded
   * (indexing a missing segment 1, or a decoding error, panics), and only
   * then are the segment count and the name checked.
   */
  function Route(request: Request, names: set<string>): (d: Decision)
    ensures d == WrongMethod <==> request.verb != "GET"
    ensures d.Feed? ==> d.name in names
    ensures d.Feed? ==> var segments := Text.Split(request.path, '/');
              |segments| == 2 && PercentCoding.DecodeSegment(segments[1]) == Some(d.name)
    ensures request.verb == "GET" && |Text.Split(request.path, '/')| < 2 ==> d == Panics
    ensures request.verb == "GET" && |Text.Split(request.path, '/')| >= 2 ==>
              (d == Panics <==> PercentCoding.DecodeSegment(Text.Split(request.path, '/')[1]).None?)
    ensures request.verb == "GET" && |Text.Split(request.path, '/')| == 2
            && PercentCoding.DecodeSegment(Text.Split(request.path, '/')[1]).Some? ==>
              var name := PercentCoding.DecodeSegment(Text.Split(request.path, '/')[1]).value;
              d == if name in names then Feed(name) else NoSuchFeed
  {
    if request.verb != "GET" then WrongMethod
    else
      var segments := Text.Split(request.path, '/');
      if |segments| < 2 then Panics
      else match PercentCoding.DecodeSegment(segments[1])
        case None => Panics
        case Some(name) => if |segments| != 2 || name !in names then NoSuchFeed else Feed(name)
  }

  /** Every feed is served at `/` followed by its percent-encoded name, and an unknown name gets 404. */
  lemma RouteEncodedName(name: string, names: set<string>)
    ensures Route(Request("GET", "/" + PercentCoding.EncodeSegment(name)), names)
              == if name in names then Feed(name) else NoSuchFeed
  {
    var segment := PercentCoding.EncodeSegment(name);
    Text.SplitNoSeparator(segment, '/');
    Text.SplitLeadingSeparator(segment, '/');
    assert Text.Split("/" + segment, '/') == ["", segment];
    PercentCoding.DecodeEncodeSegment(name);
  }

  /** A deeper path is never served, whatever its segments decode to. */
  lemma RouteDeepPath(request: Request, names: set<string>)
    requires request.verb == "GET"
    requires Text.Count(request.path, '/') >= 2
    ensures !Route(request, names).Feed?
  {
    Text.SplitCount(request.path, '/');
  }

  /** `/` asks for the feed with the empty name. */
  lemma RouteRoot(names: set<string>)
    ensures Route(Request("GET", "/"), names) == if "" in names then Feed("") else NoSuchFeed
  {
    Text.SplitLeadingSeparator("", '/');
    assert Text.Split("/", '/') == ["", ""];
    PercentCoding.DecodeSegmentPlain("");
  }

  /**
   * `send_rss`: answers from the store without changing it. The document is
   * rendered from the feed found under the decoded name as it is now.
   */
  method SendRss(store: Store, request: Request, now: Instant) returns (response: Response)
    ensures match Route(request, store.feeds.Keys)
      case WrongMethod => response == Served(StatusMethodNotAllowed, [], Empty)
      case Panics => response == Aborted
      case NoSuchFeed => response == Served(StatusNotFound, [], Empty)
      case Feed(name) =>
        && response.Served? && response.status == StatusOk && response.headers == RssHeaders
        && response.body.Rss?
        && RendersFeed(response.body.channel, name, store.feeds[name], store.homeserverUrl, now)
  {
    if request.verb != "GET" {
      return Served(StatusMethodNotAllowed, [], Empty);
    }
    var path := Text.Split(request.path, '/');
    var snapshot := store.feeds;
    if |path| < 2 {
      return Aborted;
    }
    var decoded := PercentCoding.DecodeSegment(path[1]);
    if decoded.None? {
      return Aborted;
    }
    if |path| != 2 || decoded.value !in snapshot {
      return Served(StatusNotFound, [], Empty);
    }
    var name := decoded.value;
    var messages := snapshot[name];
    var channel := BuildRss(name, messages, store.homeserverUrl, now);
    response := Served(StatusOk, RssHeaders, Rss(channel));
  }
}
