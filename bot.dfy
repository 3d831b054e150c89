/**
 * The chat side (bot.rs): commands that change the subscriptions, messages
 * that add items to a feed, and the retry schedule for joining a room.
 * Each handler is one atomic step on the store.
 */
module Bot {
  import opened Wrappers
  import opened State
  import Text

  // ---------------------------------------------------------------------
  // Replies
  // ---------------------------------------------------------------------

  /**
   * What a handler does with its reply. `Sent` is a `room.send(..)` that is
   * awaited; `Discarded` is one whose future is built and dropped without
   * being awaited, so nothing reaches the room.
   */
  datatype Reply = Sent(text: string) | Discarded(text: string) | NoReply

  const Trigger := "!rss"
  const Usage := "Accepted commands are: subscribe, unsubscribe, list"
  const NoRoomName := "Please set a room name first"
  const ListHeader := "Subscribed to:\n"

  function Quoted(name: string): string { "\"" + name + "\"" }

  function AlreadySubscribedText(name: string): string { "Already subscribed to room " + Quoted(name) }

  /** Also the reply to a successful unsubscribe: the source reuses this wording there. */
  function SubscribedText(name: string): string { "Successfully subscribed to room " + Quoted(name) }

  function AlreadyUnsubscribedText(name: string): string { "Already unsubscribed from room " + Quoted(name) }

  // ---------------------------------------------------------------------
  // Room names
  // ---------------------------------------------------------------------

  /** `room_name[1..]` does not panic: the name is non-empty and starts with a one-byte (ASCII) character. */
  predicate HasSigil(displayName: string)
  {
    |displayName| >= 1 && displayName[0] as int < 0x80
  }

  /** The feed name of a room: its display name without the leading sigil. */
  function FeedName(displayName: string): (name: string)
    requires HasSigil(displayName)
    ensures |name| + 1 == |displayName|
    ensures [displayName[0]] + name == displayName
  {
    displayName[1..]
  }

  // ---------------------------------------------------------------------
  // The list command
  // ---------------------------------------------------------------------

  /** `order` is one iteration order of the map: each key exactly once. */
  predicate EnumeratesKeys(order: seq<string>, subs: map<string, string>)
  {
    (forall k :: 0 <= k < |order| ==> order[k] in subs)
    && (forall room :: room in subs ==> room in order)
    && (forall i, j :: 0 <= i < j < |order| ==> order[i] != order[j])
  }

  function ListEntry(roomId: string, name: string): string
  {
    "\t- " + name + " (" + roomId + ")"
  }

  /** The entries of the listing for `order`, one after the other with no separator. */
  function Entries(order: seq<string>, subs: map<string, string>): string
    requires forall k :: 0 <= k < |order| ==> order[k] in subs
  {
    if order == [] then ""
    else Entries(order[..|order| - 1], subs) + ListEntry(order[|order| - 1], subs[order[|order| - 1]])
  }

  /** The `list` reply, built by appending one entry per subscription in iteration order. */
  method ListSubscriptions(store: Store, order: seq<string>) returns (text: string)
    requires EnumeratesKeys(order, store.subs)
    ensures text == ListHeader + Entries(order, store.subs)
  {
    text := ListHeader;
    for i := 0 to |order|
      invariant text == ListHeader + Entries(order[..i], store.subs)
    {
      assert order[..i + 1][..i] == order[..i];
      text := text + ListEntry(order[i], store.subs[order[i]]);
    }
    assert order[..|order|] == order;
  }

  /** Entries of a prefix of the order come first in the listing. */
  lemma {:induction false} EntriesPrefix(order: seq<string>, subs: map<string, string>, n: nat)
    requires forall k :: 0 <= k < |order| ==> order[k] in subs
    requires n <= |order|
    ensures Entries(order[..n], subs) <= Entries(order, subs)
    decreases |order|
  {
    if n < |order| {
      var front := order[..|order| - 1];
      assert front[..n] == order[..n];
      EntriesPrefix(front, subs, n);
    } else {
      assert order[..n] == order;
    }
  }

  /** Every subscription appears in the listing, as `\t- name (room)`, at the place the order gives it. */
  lemma ListShowsSubscription(order: seq<string>, subs: map<string, string>, roomId: string)
    requires EnumeratesKeys(order, subs)
    requires roomId in subs
    ensures exists k :: 0 <= k < |order| && order[k] == roomId
              && Entries(order[..k], subs) + ListEntry(roomId, subs[roomId]) <= Entries(order, subs)
  {
    var k :| 0 <= k < |order| && order[k] == roomId;
    EntriesPrefix(order, subs, k + 1);
    assert order[..k + 1][..k] == order[..k];
  }

  // ---------------------------------------------------------------------
  // handle_command
  // ---------------------------------------------------------------------

  /** The whole store is as before. */
  twostate predicate Untouched(store: Store)
    reads store
  {
    store.subs == old(store.subs) && store.feeds == old(store.feeds)
  }

  /**
   * The effect of one command on the store, and its reply. Only the number
   * of tokens and the second token choose what happens; the first is never
   * looked at.
   */
  twostate predicate CommandDone(store: Store, roomId: string, roomName: Option<string>, command: seq<string>,
                                 order: seq<string>, reply: Reply)
    requires |command| == 2 && roomName.Some? ==> HasSigil(roomName.value)
    requires forall k :: 0 <= k < |order| ==> order[k] in old(store.subs)
    reads store
  {
    && (|command| != 2 ==> reply == Discarded(Usage) && Untouched(store))
    && (|command| == 2 && roomName.None? ==> reply == Discarded(NoRoomName) && Untouched(store))
    && (|command| == 2 && roomName.Some? && command[1] == "subscribe" ==>
          var name := FeedName(roomName.value);
          if roomId in old(store.subs) then
            reply == Sent(AlreadySubscribedText(name)) && Untouched(store)
          else
            reply == Sent(SubscribedText(name))
            && store.subs == old(store.subs)[roomId := name]
            && store.feeds == old(store.feeds)[name := []])
    && (|command| == 2 && roomName.Some? && command[1] == "unsubscribe" ==>
          var name := FeedName(roomName.value);
          if roomId in old(store.subs) then
            reply == Sent(SubscribedText(name))
            && store.subs == old(store.subs) - {roomId}
            && store.feeds == old(store.feeds) - {name}
          else
            reply == Sent(AlreadyUnsubscribedText(name)) && Untouched(store))
    && (|command| == 2 && roomName.Some? && command[1] == "list" ==>
          reply == Sent(ListHeader + Entries(order, old(store.subs))) && Untouched(store))
    && (|command| == 2 && roomName.Some? && command[1] !in {"subscribe", "unsubscribe", "list"} ==>
          reply == Sent(Usage) && Untouched(store))
    // Isolation: other rooms' subscriptions, and feeds under other names, are untouched.
    && (forall room :: room in old(store.subs) && room != roomId ==>
          room in store.subs && store.subs[room] == old(store.subs)[room])
    && (|command| == 2 && roomName.Some? ==>
          forall n :: n in old(store.feeds) && n != FeedName(roomName.value) ==>
            n in store.feeds && store.feeds[n] == old(store.feeds)[n])
  }

  /** One command, already split into tokens, carried out on the store. */
  method HandleCommand(store: Store, roomId: string, roomName: Option<string>, command: seq<string>,
                       order: seq<string>) returns (reply: Reply)
    requires store.Valid()
    requires |command| == 2 && roomName.Some? ==> HasSigil(roomName.value)
    requires EnumeratesKeys(order, store.subs)
    modifies store
    ensures store.Valid()
    ensures CommandDone(store, roomId, roomName, command, order, reply)
  {
    if |command| != 2 {
      return Discarded(Usage);
    }
    if roomName.None? {
      return Discarded(NoRoomName);
    }
    var name := FeedName(roomName.value);
    match command[1]
    case "subscribe" =>
      if roomId in store.subs {
        reply := Sent(AlreadySubscribedText(name));
      } else {
        reply := Sent(SubscribedText(name));
        store.subs := store.subs[roomId := name];
        store.feeds := store.feeds[name := []];
      }
    case "unsubscribe" =>
      if roomId in store.subs {
        reply := Sent(SubscribedText(name));
        store.subs := store.subs - {roomId};
        store.feeds := store.feeds - {name};
      } else {
        reply := Sent(AlreadyUnsubscribedText(name));
      }
    case "list" =>
      var text := ListSubscriptions(store, order);
      reply := Sent(text);
    case _ =>
      reply := Sent(Usage);
  }

  // ---------------------------------------------------------------------
  // The page title
  // ---------------------------------------------------------------------

  const OpenTag := "<title>"
  const CloseTag := "</title>"

  predicate OpensAt(text: string, i: nat)
  {
    i + |OpenTag| <= |text| && text[i..i + |OpenTag|] == OpenTag
  }

  predicate ClosesAt(text: string, j: nat)
  {
    j + |CloseTag| <= |text| && text[j..j + |CloseTag|] == CloseTag
  }

  /**
   * `<title>(.*)</title>` matches with the opening tag at `i` and the closing
   * tag at `j`: `.` matches anything but a newline, so the two tags are on
   * one line.
   */
  predicate TitleMatch(text: string, i: nat, j: nat)
  {
    OpensAt(text, i) && i + |OpenTag| <= j && ClosesAt(text, j) && '\n' !in text[i + |OpenTag|..j]
  }

  /** The end of the line that `from` is on: the next newline, or the end of the text. */
  function LineEnd(text: string, from: nat): (e: nat)
    requires from <= |text|
    ensures from <= e <= |text|
    ensures '\n' !in text[from..e]
    ensures e < |text| ==> text[e] == '\n'
    decreases |text| - from
  {
    if from == |text| || text[from] == '\n' then from
    else
      var e := LineEnd(text, from + 1);
      assert text[from..e] == [text[from]] + text[from + 1..e];
      e
  }

  /** The last closing tag that lies wholly in `text[lo..hi]`. */
  function LastClose(text: string, lo: nat, hi: nat): (r: Option<nat>)
    requires lo <= hi <= |text|
    ensures r.Some? ==> lo <= r.value && r.value + |CloseTag| <= hi && ClosesAt(text, r.value)
    ensures r.Some? ==> forall j: nat :: r.value < j && j + |CloseTag| <= hi ==> !ClosesAt(text, j)
    ensures r.None? ==> forall j: nat :: lo <= j && j + |CloseTag| <= hi ==> !ClosesAt(text, j)
    decreases hi
  {
    if hi < lo + |CloseTag| then None
    else if ClosesAt(text, hi - |CloseTag|) then Some(hi - |CloseTag|)
    else LastClose(text, lo, hi - 1)
  }

  /** For an opening tag at `i`, the matches from `i` are the closing tags that end by the end of its line. */
  lemma MatchOnLine(text: string, i: nat, j: nat)
    requires OpensAt(text, i)
    ensures TitleMatch(text, i, j) <==>
              i + |OpenTag| <= j && j + |CloseTag| <= LineEnd(text, i + |OpenTag|) && ClosesAt(text, j)
  {
    var start := i + |OpenTag|;
    var e := LineEnd(text, start);
    assert '\n' !in CloseTag;
    if TitleMatch(text, i, j) {
      assert forall k :: start <= k < j ==> text[k] == text[start..j][k - start];
      assert forall k :: j <= k < j + |CloseTag| ==> text[k] == CloseTag[k - j];
    }
    if start <= j <= e {
      assert forall k :: 0 <= k < j - start ==> text[start..j][k] == text[start..e][k];
    }
  }

  /**
   * Where the title regex matches when searching from `i` on: the leftmost
   * opening tag that has a match, with the closing tag as far right as it
   * can go (leftmost-first, greedy).
   */
  function FindTitle(text: string, i: nat): (r: Option<(nat, nat)>)
    requires i <= |text|
    ensures r.Some? ==> i <= r.value.0 && TitleMatch(text, r.value.0, r.value.1)
    ensures r.Some? ==> forall i': nat, j: nat :: i <= i' < r.value.0 ==> !TitleMatch(text, i', j)
    ensures r.Some? ==> forall j: nat :: TitleMatch(text, r.value.0, j) ==> j <= r.value.1
    ensures r.None? ==> forall i': nat, j: nat :: i <= i' ==> !TitleMatch(text, i', j)
    decreases |text| - i
  {
    if i + |OpenTag| > |text| then None
    else if OpensAt(text, i) then
      match LastClose(text, i + |OpenTag|, LineEnd(text, i + |OpenTag|))
      case Some(j) =>
        assert forall j': nat :: TitleMatch(text, i, j') ==> j' <= j by {
          forall j': nat | TitleMatch(text, i, j') ensures j' <= j { MatchOnLine(text, i, j'); }
        }
        MatchOnLine(text, i, j);
        Some((i, j))
      case None =>
        assert forall j': nat :: !TitleMatch(text, i, j') by {
          forall j': nat ensures !TitleMatch(text, i, j') { MatchOnLine(text, i, j'); }
        }
        FindTitle(text, i + 1)
    else FindTitle(text, i + 1)
  }

  /**
   * `page_name` from a fetched page: the text between the tags of the title
   * regex's match, or None when the regex does not match.
   */
  function PageTitle(page: string): (title: Option<string>)
    ensures title.None? <==> forall i: nat, j: nat :: !TitleMatch(page, i, j)
    ensures title.Some? ==> '\n' !in title.value
    ensures title.Some? ==>
              exists i: nat, j: nat :: TitleMatch(page, i, j) && title.value == page[i + |OpenTag|..j]
                && (forall i': nat, j': nat :: TitleMatch(page, i', j') ==> i <= i')
                && (forall j': nat :: TitleMatch(page, i, j') ==> j' <= j)
  {
    match FindTitle(page, 0)
    case None => None
    case Some((i, j)) => Some(page[i + |OpenTag|..j])
  }

  // ---------------------------------------------------------------------
  // handle_message
  // ---------------------------------------------------------------------

  /** Where the URL pattern matched in a message body: `body[start..end]`. */
  datatype Span = Span(start: nat, end: nat)

  /** A feed after one message is added: cut to 50, then the new message in front. */
  function Ingested(feed: seq<Message>, m: Message): seq<Message>
  {
    [m] + (if |feed| > TruncateLength then feed[..TruncateLength] else feed)
  }

  /**
   * The effect of one non-command message on the store, and its reply.
   * `url` is where the URL pattern matched in `body` (if it did),
   * `fetched` the body of the page at that link (None when the request
   * failed), `now` the current time.
   */
  twostate predicate MessageDone(store: Store, roomName: Option<string>, sender: string, body: string,
                                 url: Option<Span>, fetched: Option<string>, now: Instant, reply: Reply)
    requires roomName.Some? ==> HasSigil(roomName.value)
    requires url.Some? ==> url.value.start < url.value.end <= |body|
    reads store
  {
    && store.subs == old(store.subs)
    && (roomName.None? ==> reply == Discarded(NoRoomName) && store.feeds == old(store.feeds))
    && (roomName.Some? ==> reply == NoReply)
    && (roomName.Some? && (FeedName(roomName.value) !in old(store.feeds) || url.None?) ==>
          store.feeds == old(store.feeds))
    && (roomName.Some? && FeedName(roomName.value) in old(store.feeds) && url.Some? ==>
          var name := FeedName(roomName.value);
          var before := old(store.feeds)[name];
          var kept := if |before| > TruncateLength then TruncateLength else |before|;
          var m := Message(sender, body, if fetched.Some? then PageTitle(fetched.value) else None,
                           body[url.value.start..url.value.end], now);
          && store.feeds == old(store.feeds)[name := Ingested(before, m)]
          && |store.feeds[name]| == kept + 1 <= MaxFeedLength
          && store.feeds[name][0] == m
          && store.feeds[name][1..] == before[..kept])
  }

  /** One non-command message carried out on the store; the URL search and the page fetch are inputs. */
  method HandleMessage(store: Store, roomName: Option<string>, sender: string, body: string,
                       url: Option<Span>, fetched: Option<string>, now: Instant) returns (reply: Reply)
    requires store.Valid()
    requires roomName.Some? ==> HasSigil(roomName.value)
    requires url.Some? ==> url.value.start < url.value.end <= |body|
    modifies store
    ensures store.Valid()
    ensures MessageDone(store, roomName, sender, body, url, fetched, now, reply)
  {
    if roomName.None? {
      return Discarded(NoRoomName);
    }
    reply := NoReply;
    var name := FeedName(roomName.value);
    if name !in store.feeds {
      return;
    }
    var messages := store.feeds[name];
    if url.None? {
      return;
    }
    var link := body[url.value.start..url.value.end];
    var pageName: Option<string> := None;
    if fetched.Some? {
      pageName := PageTitle(fetched.value);
    }
    if |messages| > TruncateLength {
      messages := messages[..TruncateLength];
    }
    messages := [Message(sender, body, pageName, link, now)] + messages;
    store.feeds := store.feeds[name := messages];
  }

  /** A feed after the messages of `ms` were added one after the other. */
  function Replay(feed: seq<Message>, ms: seq<Message>): seq<Message>
    decreases |ms|
  {
    if ms == [] then feed else Ingested(Replay(feed, ms[..|ms| - 1]), ms[|ms| - 1])
  }

  function Reversed(ms: seq<Message>): (r: seq<Message>)
    ensures |r| == |ms|
    ensures forall k :: 0 <= k < |ms| ==> r[k] == ms[|ms| - 1 - k]
  {
    if ms == [] then [] else [ms[|ms| - 1]] + Reversed(ms[..|ms| - 1])
  }

  /**
   * However many messages arrive, a feed holds the newest ones first: the
   * same as the arrivals newest-first followed by the old contents, cut to 51.
   */
  lemma {:induction false} ReplayKeepsNewest(feed: seq<Message>, ms: seq<Message>)
    requires |feed| <= MaxFeedLength
    ensures var all := Reversed(ms) + feed;
            Replay(feed, ms) == all[..if |all| < MaxFeedLength then |all| else MaxFeedLength]
    decreases |ms|
  {
    if ms == [] {
      assert Reversed(ms) + feed == feed;
      assert feed[..|feed|] == feed;
    } else {
      var m := ms[|ms| - 1];
      var front := ms[..|ms| - 1];
      var cap := MaxFeedLength;
      assert Reversed(ms) == [m] + Reversed(front);
      ReplayKeepsNewest(feed, front);
      var prev := Reversed(front) + feed;
      var prevCut := prev[..if |prev| < cap then |prev| else cap];
      assert Replay(feed, ms) == Ingested(prevCut, m);
      var all := Reversed(ms) + feed;
      assert all == [m] + prev;
      var cut := if |all| < cap then |all| else cap;
      var kept := if |prevCut| > TruncateLength then TruncateLength else |prevCut|;
      assert Ingested(prevCut, m) == [m] + prevCut[..kept];
      assert |[m] + prevCut[..kept]| == cut;
      forall k | 0 <= k < cut ensures Ingested(prevCut, m)[k] == all[..cut][k] {
        if k > 0 {
          assert all[k] == prev[k - 1];
        }
      }
    }
  }

  // ---------------------------------------------------------------------
  // on_room_message
  // ---------------------------------------------------------------------

  predicate IsCommand(body: string) { Trigger <= body }

  /**
   * A text message in a joined room: a command when it starts with `!rss`
   * (split on single spaces), otherwise a candidate feed item.
   */
  method OnRoomMessage(store: Store, roomId: string, roomName: Option<string>, sender: string, body: string,
                       order: seq<string>, url: Option<Span>, fetched: Option<string>, now: Instant)
    returns (reply: Reply)
    requires store.Valid()
    requires roomName.Some? && (!IsCommand(body) || |Text.Split(body, ' ')| == 2) ==> HasSigil(roomName.value)
    requires EnumeratesKeys(order, store.subs)
    requires url.Some? ==> url.value.start < url.value.end <= |body|
    modifies store
    ensures store.Valid()
    // Dispatch: a command is carried out on its space-separated tokens, anything else is ingested.
    ensures IsCommand(body) ==> CommandDone(store, roomId, roomName, Text.Split(body, ' '), order, reply)
    ensures !IsCommand(body) ==> MessageDone(store, roomName, sender, body, url, fetched, now, reply)
    // A message that is not a command never changes the subscriptions.
    ensures !IsCommand(body) ==> store.subs == old(store.subs)
    // A command never adds a message to a feed: every feed it leaves is one it found, or new and empty.
    ensures IsCommand(body) ==>
              forall n :: n in store.feeds ==>
                store.feeds[n] == [] || (n in old(store.feeds) && store.feeds[n] == old(store.feeds)[n])
  {
    if IsCommand(body) {
      reply := HandleCommand(store, roomId, roomName, Text.Split(body, ' '), order);
    } else {
      reply := HandleMessage(store, roomName, sender, body, url, fetched, now);
    }
  }

  // ---------------------------------------------------------------------
  // The auto-join retry loop in on_stripped_state_member
  // ---------------------------------------------------------------------

  const InitialDelay: nat := 2
  const DelayCeiling: nat := 3600
  /** The most failed attempts before giving up: 2 doubled 11 times exceeds 3600, 10 times does not. */
  const MaxFailedAttempts: nat := 11

  function Pow2(k: nat): (p: nat)
    ensures p >= 1
  {
    if k == 0 then 1 else 2 * Pow2(k - 1)
  }

  function Sum(xs: seq<nat>): nat
  {
    if xs == [] then 0 else Sum(xs[..|xs| - 1]) + xs[|xs| - 1]
  }

  /** Delays that double from 2 add up to the next delay, less 2. */
  lemma {:induction false} SumSchedule(sleeps: seq<nat>)
    requires forall k :: 0 <= k < |sleeps| ==> sleeps[k] == Pow2(k + 1)
    ensures Sum(sleeps) + 2 == Pow2(|sleeps| + 1)
  {
    if sleeps != [] {
      var init := sleeps[..|sleeps| - 1];
      SumSchedule(init);
    }
  }

  lemma {:induction false} Pow2Monotone(a: nat, b: nat)
    requires a <= b
    ensures Pow2(a) <= Pow2(b)
    decreases b
  {
    if a < b {
      Pow2Monotone(a, b - 1);
    }
  }

  /** A delay of 2^n is still within the ceiling exactly when n is at most 11. */
  lemma Pow2WithinCeiling(n: nat)
    ensures Pow2(n) <= DelayCeiling <==> n <= MaxFailedAttempts
    ensures Pow2(MaxFailedAttempts + 1) == 4096
  {
    assert Pow2(11) == 2048 by {
      assert Pow2(1) == 2 && Pow2(2) == 4 && Pow2(3) == 8 && Pow2(4) == 16 && Pow2(5) == 32;
      assert Pow2(6) == 64 && Pow2(7) == 128 && Pow2(8) == 256 && Pow2(9) == 512 && Pow2(10) == 1024;
    }
    if n <= MaxFailedAttempts {
      Pow2Monotone(n, MaxFailedAttempts);
    } else {
      Pow2Monotone(MaxFailedAttempts + 1, n);
    }
  }

  /**
   * Where the loop stops, with the delays it slept, decides everything the
   * join loop promises: whether it joined and how long it slept in total.
   */
  lemma JoinOutcome(joinSucceeds: nat -> bool, sleeps: seq<nat>, joined: bool)
    requires forall k :: 0 <= k < |sleeps| ==> !joinSucceeds(k) && sleeps[k] == Pow2(k + 1)
    requires joined ==> joinSucceeds(|sleeps|) && |sleeps| < MaxFailedAttempts
    requires !joined ==> |sleeps| == MaxFailedAttempts
    ensures joined <==> exists k :: 0 <= k < MaxFailedAttempts && joinSucceeds(k)
    ensures Sum(sleeps) == Pow2(|sleeps| + 1) - 2 <= 4094
  {
    if joined {
      assert 0 <= |sleeps| < MaxFailedAttempts && joinSucceeds(|sleeps|);
    }
    SumSchedule(sleeps);
    Pow2WithinCeiling(0);
    Pow2Monotone(|sleeps| + 1, MaxFailedAttempts + 1);
  }

  /**
   * The join loop, driven by the outcome of each attempt (`joinSucceeds(k)`
   * for the attempt after k failures). Returns the delays slept, in order,
   * and whether a join succeeded.
   */
  method AutoJoin(joinSucceeds: nat -> bool) returns (sleeps: seq<nat>, joined: bool)
    ensures |sleeps| <= MaxFailedAttempts
    ensures forall k :: 0 <= k < |sleeps| ==> !joinSucceeds(k) && sleeps[k] == Pow2(k + 1)
    ensures joined ==> joinSucceeds(|sleeps|) && |sleeps| < MaxFailedAttempts
    ensures !joined ==> |sleeps| == MaxFailedAttempts
    ensures joined <==> exists k :: 0 <= k < MaxFailedAttempts && joinSucceeds(k)
    ensures Sum(sleeps) == Pow2(|sleeps| + 1) - 2 <= 4094
  {
    var delay: nat := InitialDelay;
    sleeps := [];
    joined := false;
    while true
      invariant |sleeps| < MaxFailedAttempts && delay == Pow2(|sleeps| + 1)
      invariant forall k :: 0 <= k < |sleeps| ==> !joinSucceeds(k)
      invariant forall k :: 0 <= k < |sleeps| ==> sleeps[k] == Pow2(k + 1)
      decreases MaxFailedAttempts - |sleeps|
    {
      if joinSucceeds(|sleeps|) {
        joined := true;
        break;
      }
      sleeps := sleeps + [delay];
      delay := delay * 2;
      Pow2WithinCeiling(|sleeps| + 1);
      if delay > DelayCeiling {
        break;
      }
    }
    JoinOutcome(joinSucceeds, sleeps, joined);
  }
}
