/**
 * The records of the `rss` crate that server.rs fills in: a channel and its
 * items, with the elements RSS 2.0 defines for `<item>` ("Elements of
 * <item>" in the RSS 2.0 specification), plus `content:encoded`. The XML
 * text these records serialise to is not modelled.
 */
module Rss {
  import opened Wrappers
  import opened State

  /** The RFC 2822 (section 3.3) date text that `to_rfc2822` produces for an instant. */
  datatype DateText = Rfc2822(instant: Instant)

  datatype Category = Category(name: string, domain: Option<string>)

  datatype Source = Source(url: string, title: Option<string>)

  datatype Enclosure = Enclosure(url: string, length: string, mimeType: string)

  datatype Guid = Guid(value: string, permalink: bool)

  datatype Item = Item(
    title: Option<string>,
    link: Option<string>,
    description: Option<string>,
    author: Option<string>,
    categories: seq<Category>,
    comments: Option<string>,
    enclosure: Option<Enclosure>,
    guid: Option<Guid>,
    pubDate: Option<DateText>,
    source: Option<Source>,
    content: Option<string>)

  datatype Channel = Channel(
    title: string,
    link: string,
    description: string,
    language: Option<string>,
    generator: Option<string>,
    docs: Option<string>,
    ttl: Option<string>,
    categories: seq<Category>,
    pubDate: Option<DateText>,
    lastBuildDate: Option<DateText>,
    items: seq<Item>)

  /** What `ItemBuilder::default()` starts from. */
  const EmptyItem := Item(None, None, None, None, [], None, None, None, None, None, None)

  /** What `ChannelBuilder::default()` starts from. */
  const EmptyChannel := Channel("", "", "", None, None, None, None, [], None, None, [])
}
