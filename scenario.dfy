/**
 * A client of the handlers' contracts: one room goes through subscribe,
 * a message with a link, a feed request and unsubscribe, and every outcome
 * follows from the specifications alone.
 */
module Scenario {
  import opened Wrappers
  import opened State
  import opened Bot
  import opened Server
  import Text
  import PercentCoding

  const Room := "!abc:example.org"
  const Homeserver := "https://matrix.example.org"
  const Alice := "@alice:example.org"
  const Body := "see https://ex.com hi"
  const Page := "<title>Hi</title>"
  const NewsItem := Message(Alice, Body, Some("Hi"), "https://ex.com", Instant(1))

  /** The title of a page whose only markup is `<title>Hi</title>`. */
  lemma HiTitle()
    ensures PageTitle(Page) == Some("Hi")
  {
    assert TitleMatch(Page, 0, 9);
    var found := FindTitle(Page, 0);
    assert found == Some((0, 9));
    assert Page[7..9] == "Hi";
  }

  /** `/news` names the feed `news`. */
  lemma NewsPath(names: set<string>)
    ensures Route(Request("GET", "/news"), names) == if "news" in names then Feed("news") else NoSuchFeed
  {
    assert '/' !in "news";
    Text.SplitNoSeparator("news", '/');
    Text.SplitLeadingSeparator("news", '/');
    assert "/news" == ['/'] + "news";
    PercentCoding.DecodeSegmentPlain("news");
  }

  method NewsRoom()
  {
    var store := new Store(Homeserver);
    assert FeedName("#news") == "news";
    var reply := HandleCommand(store, Room, Some("#news"), ["!rss", "subscribe"], []);
    assert reply == Sent("Successfully subscribed to room \"news\"");
    assert store.feeds == map["news" := []];
    Post(store);
    Serve(store);
    reply := HandleCommand(store, Room, Some("#news"), ["!rss", "unsubscribe"], [Room]);
    assert reply == Sent("Successfully subscribed to room \"news\"");
    assert store.feeds == map[];
    NewsPath(store.feeds.Keys);
    var response := SendRss(store, Request("GET", "/news"), Instant(4));
    assert response == Served(404, [], Empty);
  }

  method Post(store: Store)
    requires store.Valid() && store.feeds == map["news" := []] && store.subs == map[Room := "news"]
    modifies store
    ensures store.Valid() && store.feeds == map["news" := [NewsItem]] && store.subs == map[Room := "news"]
  {
    assert Body[4..18] == "https://ex.com";
    HiTitle();
    assert FeedName("#news") == "news";
    assert Ingested([], NewsItem) == [NewsItem];
    var reply := HandleMessage(store, Some("#news"), Alice, Body, Some(Span(4, 18)), Some(Page), Instant(1));
    assert reply == NoReply;
  }

  method Serve(store: Store)
    requires store.feeds == map["news" := [NewsItem]] && store.homeserverUrl == Homeserver
  {
    assert "news" in store.feeds.Keys && store.feeds["news"] == [NewsItem];
    NewsPath(store.feeds.Keys);
    assert Route(Request("GET", "/news"), store.feeds.Keys) == Feed("news");
    var response := SendRss(store, Request("GET", "/news"), Instant(2));
    assert response.Served? && response.status == 200 && response.body.Rss?;
    assert RendersFeed(response.body.channel, "news", [NewsItem], Homeserver, Instant(2));
    assert response.body.channel.title == "news" + " messages";
    assert response.body.channel.items == [ItemFor(NewsItem, Homeserver)];
    assert response.body.channel.items[0].title == Some("Hi");
  }
}
