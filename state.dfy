/**
 * The process-wide state of main.rs: the subscription map (room id to feed
 * name), the feed map (feed name to its messages, newest first) and the
 * homeserver URL, which is fixed once at start-up.
 */
module State {
  import opened Wrappers

  /**
   * A point in time, as `chrono::DateTime<Utc>`, to the whole second: the
   * program only ever shows a time through `to_rfc2822`, which prints whole
   * seconds. Only equality matters here.
   */
  datatype Instant = Instant(seconds: int)

  /** One captured chat message: who sent it, its body, the page title (if any), the link and the capture time. */
  datatype Message = Message(
    sender: string,
    content: string,
    pageName: Option<string>,
    link: string,
    time: Instant)

  /** A feed is cut to this many messages before each new one goes in front. */
  const TruncateLength: nat := 50

  /** Hence the longest a feed can get. */
  const MaxFeedLength: nat := TruncateLength + 1

  class Store {
    /** `HOMESERVER_URL`: set before any handler runs and never changed. */
    const homeserverUrl: string
    /** `SUBSCRIBED_CHANNELS`: room id to feed name. */
    var subs: map<string, string>
    /** `CHANNEL_MESSAGES`: feed name to its messages, newest first. */
    var feeds: map<string, seq<Message>>

    /**
     * The one invariant the handlers keep. Note what it does not say: a feed
     * name in `subs` need not be a key of `feeds`, nor the other way round.
     */
    ghost predicate Valid()
      reads this
    {
      forall name :: name in feeds ==> |feeds[name]| <= MaxFeedLength
    }

    constructor (homeserverUrl: string)
      ensures Valid()
      ensures this.homeserverUrl == homeserverUrl
      ensures subs == map[] && feeds == map[]
    {
      this.homeserverUrl := homeserverUrl;
      subs := map[];
      feeds := map[];
    }
  }
}
