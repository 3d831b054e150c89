# matrix-to-rss: a Dafny model of the subscription and feed store

matrix-to-rss is a Matrix bot that turns chat rooms into RSS feeds. Users send
`!rss subscribe` in a room. The bot then keeps the last messages that carry a
link, together with the title of the linked page. An HTTP server publishes each
room's messages as an RSS 2.0 channel at `GET /<room name>`.

This project models the in-memory state the two sides share and every handler
that reads or changes it:

- **State** (`state.dfy`, src/main.rs). Class `Store` holds two maps. `subs` maps a
  room id to a feed name. `feeds` maps a feed name to its messages, newest first.
  The homeserver URL is a constant field. `Valid()` is the one invariant the
  handlers keep: no feed is longer than 51. Nothing ties the two maps together,
  because the source does not either.
- **Bot** (`bot.dfy`, src/bot.rs). `HandleCommand` handles subscribe, unsubscribe,
  list and usage. `ListSubscriptions` is the `push_str` loop behind `list`.
  `HandleMessage` handles ingestion: names are gated on `feeds`, a feed is cut
  to 50 and the new message goes in front. `PageTitle` is the `<title>` regex with
  leftmost-first, greedy, single-line semantics. `OnRoomMessage` dispatches on
  the `!rss` prefix. `AutoJoin` is the join retry loop.
- **Server** (`server.dfy`, src/server.rs). `Route` is the decision `send_rss`
  makes on the method, the path segments and the decoded name. `SendRss` answers
  from the store and never changes it. `BuildRss` is the item loop of
  `build_rss`. Its records (`rss.dfy`) carry the elements RSS 2.0 defines for
  `<item>`, not XML text.
- **Support**. `text.dfy` holds `str::split` with the same piece count.
  `utf8.dfy` holds UTF-8 (RFC 3629) and the strict decoder behind
  `String::from_utf8`. `percent.dfy` holds the `urlencoding` crate's lenient
  percent-decoding (section 2.1 of RFC 3986) and an encoder, which serves as its
  inverse.
- **Scenario** (`scenario.dfy`). One room goes through subscribe, a message with a
  link, `GET /news` and unsubscribe. Every outcome is derived from the contracts.

Each handler is one atomic step. Inputs stand for what the source gets from
outside:
- the room id, its optional display name, the sender and the body;
- where the URL pattern matched in the body (`Span`);
- the fetched page (`None` when the request failed);
- the current time (`Instant`);
- the HashMap's iteration order (`order`: each room id exactly once);
- for joining, the outcome of each attempt.

Replies are `Sent` when the source awaits `room.send`. They are `Discarded` when
the send future is dropped without being awaited (src/bot.rs:76, 86, 144).

Easily missed behaviour of the code, which the model keeps:
- A feed holds up to 51 messages, because `truncate(50)` runs before the insert.
- A successful unsubscribe replies `Successfully subscribed to room "<name>"`.
- Unsubscribe deletes the feed named after the room's *current* display name.
- Ingestion is gated on the derived name being a key of `feeds`, whether or not the room is in `subs`.
- Subscribe overwrites an existing feed of the same name with an empty one.
- The `list` entries follow one another with no separator.
- The title runs from the first `<title>` that has a `</title>` later on its line up to the *last* `</title>` on that line.
- A path whose segment 1 does not decode to UTF-8 panics, and so does a path with no segment 1; either way no response is sent. Segment 1 is decoded before the segment count is checked.
- The feed check (src/bot.rs:149) and the update (src/bot.rs:153-189) each take the lock separately. The write lock is held through the fetch.

## Model

| member | source | states |
|---|---|---|
| State.Store.constructor | src/main.rs:16-18 | The store starts with no subscriptions and no feeds; the homeserver URL is fixed from then on. |
| Bot.FeedName | src/bot.rs:83-84 | The feed name is the display name minus its first character: one shorter, and the first character plus it gives back the display name. |
| Bot.HandleCommand | src/bot.rs:72-131 | Its effect and reply are `CommandDone`: If there are not exactly 2 tokens, the usage reply is discarded and nothing changes. With no display name, the "set a room name" reply is discarded and nothing changes. `subscribe` on a new room maps room→name and sets `feeds[name] := []`, overwriting any feed of that name, and replies `Successfully subscribed to room "name"`. `subscribe` on a known room changes nothing and replies `Already subscribed…`. `unsubscribe` on a known room removes exactly `subs[room]` and `feeds[name]` for the current name, with the "Successfully subscribed" wording. `unsubscribe` on an unknown room changes nothing and replies `Already unsubscribed from room "name"`. `list` replies with the listing and changes nothing. Any other second token replies with the usage text. Token 0 never matters. Other rooms' subscriptions and other names' feeds are untouched. The cap invariant is kept. |
| Bot.ListSubscriptions | src/bot.rs:118-126 | The reply is `"Subscribed to:\n"` followed by `\t- name (room)` for each subscription in iteration order, with no separator. |
| Bot.ListShowsSubscription | src/bot.rs:120-124 | Every subscribed room's entry appears in the listing, after the entries of the rooms before it in the iteration order. |
| Bot.FindTitle | src/bot.rs:170-172 | The match found is a `<title>`…`</title>` pair on one line. Its opening tag is the leftmost that has any match, and its closing tag is the rightmost for that opening tag. None exactly when no pair exists. |
| Bot.PageTitle | src/bot.rs:170-178 | `page_name` is None exactly when no `<title>`/`</title>` pair shares a line. Otherwise it is the text between the leftmost-first, greedy pair, and it holds no newline. |
| Bot.HandleMessage | src/bot.rs:134-190 | Its effect and reply are `MessageDone`: With no display name, the reply is discarded and nothing changes. If the derived name is not a key of `feeds`, or no URL matched, nothing changes. Otherwise the feed under that name becomes the new message followed by the first min(n, 50) old ones, in order, so its length is at most 51. The message holds the unmodified body, the matched link, the page title (None if the fetch failed) and the current time. No other feed and no subscription changes. |
| Bot.ReplayKeepsNewest | src/bot.rs:181-189 | After any sequence of ingestions, including none, a feed is the arrivals newest-first followed by its old contents, cut to 51. |
| Bot.OnRoomMessage | src/bot.rs:54-69 | A body starting with `!rss` has exactly the effect and reply of HandleCommand on its tokens split on single spaces. Any other body has exactly the effect and reply of HandleMessage. A non-command never changes the subscriptions. A command never adds a message to any feed. |
| Bot.Pow2WithinCeiling | src/bot.rs:43-45 | A delay of 2^n stays within the 3600 s ceiling exactly when n ≤ 11. |
| Bot.SumSchedule | src/bot.rs:42-43 | Sleeping 2, 4, …, 2^n s in turn adds up to 2^(n+1) − 2 s. |
| Bot.AutoJoin | src/bot.rs:37-49 | After the k-th failed attempt the loop sleeps 2^k s. It stops at the first success or after 11 failures. It joins exactly when one of the first 11 attempts succeeds. The sleeps total 2^(failures+1) − 2 ≤ 4094 s. |
| Text.SplitCount | src/bot.rs:64 | Splitting on a space gives one more token than there are spaces, so a double space adds an empty token. |
| Text.SplitPiecesFree | src/bot.rs:64 | No token contains the separator. |
| Text.JoinSplit | src/server.rs:43 | Splitting loses nothing: the pieces joined with the separator give back the path or body. |
| PercentCoding.DecodeEncodeSegment | src/server.rs:46 | Percent-decoding segment 1 and then decoding UTF-8 gives back any name a client percent-encoded. |
| PercentCoding.DecodeSegmentPlain | src/server.rs:46 | A segment without `%` decodes to itself. |
| Utf8.DecodeEncode | src/server.rs:46 | Every string decodes from its own UTF-8 encoding. |
| Utf8.EncodeDecode | src/server.rs:46 | Bytes that decode are exactly the encoding of what they decode to. |
| Utf8.DecodeSucceedsIff | src/server.rs:46 | Decoding fails, which makes the handler panic, exactly on bytes that encode no string. |
| Server.Route | src/server.rs:37-52 | The method is refused exactly when it is not GET, whatever the store holds. For a GET with no segment 1 the handler panics. For a GET with a segment 1, it panics exactly when that segment does not decode. A feed is chosen exactly when the path has two segments, segment 1 decodes to the name, and the name is a key of `feeds`. A decodable two-segment path with an unknown name gets 404. |
| Server.RouteEncodedName | src/server.rs:43-52 | `GET /<percent-encoded name>` selects that feed when it exists, else 404. This holds for every name, including ones containing `/`, which the encoder writes as `%2F`. |
| Server.RouteDeepPath | src/server.rs:43-48 | A path with two or more `/` (`/a/b`, `/a/`) is never served. |
| Server.RouteRoot | src/server.rs:43-48 | `/` looks up the feed with the empty name. |
| Server.SendRss | src/server.rs:36-70 | Non-GET gives 405 with no headers or body. A missing segment 1 or a decode failure gives no response (panic). An extra segment or an unknown name gives 404. Otherwise the response is 200 with `Content-Type: text/xml; charset=utf-8` and `Access-Control-Allow-Origin: *`, rendered from that feed as it stands. The store is not modified. |
| Server.BuildRss | src/server.rs:72-114 | Title `"<name> messages"`, description `"An RSS feed for <name> matrix channel messages"`, language `en-US`, generator, docs, ttl `"60"`, the single category `Matrix`, and pubDate equal to lastBuildDate equal to the render time. One item per message, in the feed's order. |
| Server.ItemRoundTrip | src/server.rs:87-102 | Each item carries its message. The author is the sender, the link is the link, description and content are the body, the source is the homeserver URL with itself as title, and pubDate is the capture time (to the second). The title is the page name, or the body when there is none. Hence the message is recovered unless its page name equals its body. |
| Server.TitleFallback | src/server.rs:88 | An untitled message renders exactly like one whose page name is its own body. |
| Scenario.HiTitle | src/bot.rs:170-177 | A page `<title>Hi</title>` yields the page name `Hi`. |
| Scenario.NewsPath | src/server.rs:43-52 | `GET /news` selects the feed `news` when it exists, else 404. |

## Left out

- Concurrency. The two `RwLock`s, tokio tasks and the hyper connection loop (src/server.rs:16-34) are not modelled. Each handler is one atomic step.
- Concurrency: a feed removed between the check and the write lock makes `get_mut(..).unwrap()` (src/bot.rs:154) panic. The model treats the check and the update as one step.
- Matrix client plumbing. This covers login, sync, event registration (src/bot.rs:13-27), the joined-room and text-message filters (src/bot.rs:55-61) and the invite check (src/bot.rs:30-33). These become method inputs. Actually sending a reply becomes the `Reply` value.
- Startup in src/main.rs (.env, environment variables, login, bind address). It is configuration and I/O. `Cargo.toml` is not part of this model; the generator string is taken to be the package name `matrix-to-rss`.
- The URL regex (src/bot.rs:156). Its character classes, `{1,256}` bound and `\b` are not modelled. HandleMessage takes the matched span as an input and only requires it to lie inside the body.
- The `captures.len() == 0` tests (src/bot.rs:159, 173). A capture set always holds the whole match, so these tests never fire. They are not modelled.
- The page fetch. `reqwest::get` and `text()` (src/bot.rs:167-168) become an optional page body. A non-2xx response is still a body. The panic of `text().unwrap()` is not modelled.
- Time and serialisation. `Utc::now()` becomes an `Instant` input. `to_rfc2822` becomes the `Rfc2822` constructor. The XML text the `rss` crate writes is not modelled. The channel record omits the elements `build_rss` never sets (copyright, editor, image and the like).
- HandleCommand, HandleMessage, OnRoomMessage: `room_name[1..]` panics on an empty name or one with a multi-byte first character. These inputs are excluded by a precondition, and only where the code slices the name.
- The panic of `room.send(response).await.unwrap()` (src/bot.rs:131) when sending fails is not modelled.
- AutoJoin: the `sleep` itself and logging are not modelled, only the delay values. The "Successfully joined" log line is printed even after giving up (src/bot.rs:50), and that is not captured.
- Message times are whole seconds. The sub-second part of `Utc::now()` is dropped, because the program shows a time only through `to_rfc2822` (src/server.rs:98, 109), which prints whole seconds.
- Message times are not proved to be non-decreasing along a feed. `Utc::now()` is a wall clock and the model takes the time as an arbitrary input.
- The order of the `list` entries is the HashMap's. It is an input, not a specification.
