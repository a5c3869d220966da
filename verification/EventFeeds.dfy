/**
 * The event feed: bounded history, replay then live, and the browser's list
 * (apps/api/src/events/event-feed.service.ts, events.controller.ts, apps/web/lib/use-event-stream.ts).
 */
module EventFeeds {
  import opened Prelude
  import opened BoundedBuffers

  const FEED_BUFFER_CAPACITY: nat := 200
  const SSE_REPLAY_COUNT: nat := 20
  const MAX_FEED_ENTRIES: nat := 200

  /** How an entry is put on the wire and read back; reading fails on text that is not JSON. */
  datatype Codec<!E> = Codec(encode: E -> string, decode: string -> Option<E>)

  /** JavaScript's `s.slice(start)`. */
  function JsSlice<T>(s: seq<T>, start: int): seq<T> {
    if start < 0 then s[if |s| + start < 0 then 0 else |s| + start..]
    else s[if start < |s| then start else |s|..]
  }

  function Recent<E>(buffer: seq<E>, limit: int): seq<E> {
    JsSlice(buffer, -limit)
  }

  /** The last `limit` entries, none for a limit below 1. */
  function Newest<E>(s: seq<E>, limit: int): seq<E> {
    LastN(s, if limit < 0 then 0 else limit)
  }

  /**
   * `recent(limit)` is the last `limit` entries exactly when the limit is at least 1, or so far below that the slice
   * drops everything there is: a limit of 0 drops nothing, and a limit of `-n` only the `n` oldest.
   */
  lemma RecentIsLast<E>(buffer: seq<E>, limit: int)
    ensures Recent(buffer, limit) == Newest(buffer, limit) <==> limit >= 1 || |buffer| <= -limit
    ensures limit <= 0 ==> Recent(buffer, limit) == if |buffer| <= -limit then [] else buffer[-limit..]
  {
    if limit == 0 { assert buffer[0..] == buffer; }
  }

  /** A limit of 0 returns all of any buffer instead of nothing. */
  lemma RecentOfZero<E>(buffer: seq<E>)
    ensures Recent(buffer, 0) == buffer && LastN(buffer, 0) == []
  {
    DropNoneOrAll(buffer);
  }

  // ---- The browser's list ----

  function HandleMessage<E>(codec: Codec<E>, entries: seq<E>, raw: string): seq<E> {
    match codec.decode(raw)
    case None => entries
    case Some(entry) =>
      var longer := [entry] + entries;
      if |longer| <= MAX_FEED_ENTRIES then longer else longer[..MAX_FEED_ENTRIES]
  }

  /** The entries among the messages, in order; messages that do not decode are skipped. */
  function Decoded<E>(codec: Codec<E>, messages: seq<string>): seq<E> {
    if messages == [] then []
    else
      var before := Decoded(codec, messages[..|messages| - 1]);
      match codec.decode(messages[|messages| - 1])
      case None => before
      case Some(entry) => before + [entry]
  }

  /** What the list shows after `messages`: newest first, at most 200. */
  function Shown<E>(codec: Codec<E>, messages: seq<string>): seq<E> {
    Reverse(LastN(Decoded(codec, messages), MAX_FEED_ENTRIES))
  }

  lemma DecodedSnoc<E>(codec: Codec<E>, messages: seq<string>, raw: string, longer: seq<string>)
    requires longer == messages + [raw]
    ensures Decoded(codec, longer) ==
      if codec.decode(raw).None? then Decoded(codec, messages) else Decoded(codec, messages) + [codec.decode(raw).value]
  {
    assert longer[..|longer| - 1] == messages;
  }

  /** Putting an entry in front of a newest-first list and cutting it is pushing it onto the window. */
  lemma NewestFirst<E>(window: seq<E>, entry: E, n: nat)
    requires |window| <= n && n >= 1
    ensures var longer := [entry] + Reverse(window);
      Reverse(LastN(window + [entry], n)) == if |longer| <= n then longer else longer[..n]
  {
    if |window| == n { DropWithin(window, [entry], 1); }
  }

  lemma MessageMovesList<E>(codec: Codec<E>, messages: seq<string>, raw: string, longer: seq<string>)
    requires longer == messages + [raw]
    ensures HandleMessage(codec, Shown(codec, messages), raw) == Shown(codec, longer)
  {
    DecodedSnoc(codec, messages, raw, longer);
    var before := Decoded(codec, messages);
    if codec.decode(raw).Some? {
      LastNPush(before, codec.decode(raw).value, MAX_FEED_ENTRIES);
      NewestFirst(LastN(before, MAX_FEED_ENTRIES), codec.decode(raw).value, MAX_FEED_ENTRIES);
    }
  }

  lemma {:induction false} DecodedWire<E>(codec: Codec<E>, entries: seq<E>)
    requires forall e :: e in entries ==> codec.decode(codec.encode(e)) == Some(e)
    ensures Decoded(codec, Map(codec.encode, entries)) == entries
  {
    if entries != [] {
      var before, last := entries[..|entries| - 1], entries[|entries| - 1];
      DecodedWire(codec, before);
      assert last in entries && entries == before + [last];
      MapAppend(codec.encode, before, last);
      DecodedSnoc(codec, Map(codec.encode, before), codec.encode(last), Map(codec.encode, entries));
    }
  }

  lemma MapAppend<A, B>(f: A -> B, s: seq<A>, x: A)
    ensures Map(f, s + [x]) == Map(f, s) + [f(x)]
  {
  }

  lemma MapPrefix<A, B>(f: A -> B, s: seq<A>, n: nat)
    requires n <= |s|
    ensures Map(f, s)[..n] == Map(f, s[..n])
  {
  }

  lemma DecodedPrefix<E>(codec: Codec<E>, stream: seq<E>, n: nat)
    requires n <= |stream|
    requires forall e :: e in stream ==> codec.decode(codec.encode(e)) == Some(e)
    ensures Decoded(codec, Map(codec.encode, stream)[..n]) == stream[..n]
  {
    MapPrefix(codec.encode, stream, n);
    DecodedWire(codec, stream[..n]);
  }

  // ---- Server and connections as one state machine ----

  datatype Connection<E> =
    | Opened(openAt: nat, replay: seq<E>)
    | Live(openAt: nat, liveAt: nat, sent: seq<string>, delivered: nat, entries: seq<E>)

  datatype State<E> = State(history: seq<E>, buffer: seq<E>, connections: map<nat, Connection<E>>)

  datatype Step<E> =
    | Push(entry: E)
    | OpenStream(c: nat)
    | Subscribe(c: nat)
    | Receive(c: nat)
    | Disconnect(c: nat)

  /** A live connection is sent every pushed entry; one that is only opened is not. */
  function Broadcast<E>(codec: Codec<E>, conn: Connection<E>, entry: E): Connection<E> {
    if conn.Live? then conn.(sent := conn.sent + [codec.encode(entry)]) else conn
  }

  predicate Enabled<E>(s: State<E>, step: Step<E>) {
    match step
    case Push(_) => true
    case OpenStream(c) => c !in s.connections
    case Subscribe(c) => c in s.connections && s.connections[c].Opened?
    case Receive(c) =>
      c in s.connections && s.connections[c].Live? && s.connections[c].delivered < |s.connections[c].sent|
    case Disconnect(c) => c in s.connections
  }

  function Apply<E>(codec: Codec<E>, s: State<E>, step: Step<E>): State<E>
    requires Enabled(s, step)
  {
    match step
    case Push(entry) =>
      State(s.history + [entry], ShiftPush(s.buffer, FEED_BUFFER_CAPACITY, entry),
            map c | c in s.connections :: Broadcast(codec, s.connections[c], entry))
    case OpenStream(c) =>
      s.(connections := s.connections[c := Opened(|s.history|, Recent(s.buffer, SSE_REPLAY_COUNT))])
    case Subscribe(c) =>
      var conn := s.connections[c];
      s.(connections := s.connections[c := Live(conn.openAt, |s.history|, Map(codec.encode, conn.replay), 0, [])])
    case Receive(c) =>
      s.(connections := s.connections[c := Received(codec, s.connections[c])])
    case Disconnect(c) => s.(connections := s.connections - {c})
  }

  /** The state after a list of steps; `None` when some step was not possible. */
  function Exec<E>(codec: Codec<E>, steps: seq<Step<E>>): Option<State<E>> {
    if steps == [] then Some(State([], [], map[]))
    else
      match Exec(codec, steps[..|steps| - 1])
      case None => None
      case Some(s) =>
        var last := steps[|steps| - 1];
        if Enabled(s, last) then Some(Apply(codec, s, last)) else None
  }

  /** What a connection that called `stream` at `openAt` and subscribed at `liveAt` is sent. */
  function Stream<E>(history: seq<E>, openAt: nat, liveAt: nat): seq<E>
    requires openAt <= |history| && liveAt <= |history|
  {
    LastN(history[..openAt], 20) + history[liveAt..]
  }

  ghost predicate ConnectionOk<E>(codec: Codec<E>, history: seq<E>, conn: Connection<E>) {
    match conn
    case Opened(openAt, replay) =>
      openAt <= |history| && replay == LastN(history[..openAt], SSE_REPLAY_COUNT)
    case Live(openAt, liveAt, sent, delivered, entries) =>
      && openAt <= liveAt <= |history|
      && sent == Map(codec.encode, Stream(history, openAt, liveAt))
      && delivered <= |sent|
      && entries == Shown(codec, sent[..delivered])
  }

  ghost predicate FeedOk<E>(codec: Codec<E>, s: State<E>) {
    && s.buffer == LastN(s.history, FEED_BUFFER_CAPACITY)
    && forall c :: c in s.connections ==> ConnectionOk(codec, s.history, s.connections[c])
  }

  lemma StreamGrows<E>(history: seq<E>, openAt: nat, liveAt: nat, entry: E)
    requires openAt <= |history| && liveAt <= |history|
    ensures Stream(history + [entry], openAt, liveAt) == Stream(history, openAt, liveAt) + [entry]
    ensures (history + [entry])[..openAt] == history[..openAt]
  {
    DropWithin(history, [entry], openAt);
    DropWithin(history, [entry], liveAt);
    ConcatAssoc(LastN(history[..openAt], SSE_REPLAY_COUNT), history[liveAt..], [entry]);
  }

  lemma PushKeepsConnection<E>(codec: Codec<E>, history: seq<E>, conn: Connection<E>, entry: E)
    requires ConnectionOk(codec, history, conn)
    ensures ConnectionOk(codec, history + [entry], Broadcast(codec, conn, entry))
  {
    if conn.Live? {
      StreamGrows(history, conn.openAt, conn.liveAt, entry);
      MapAppend(codec.encode, Stream(history, conn.openAt, conn.liveAt), entry);
      DropWithin(conn.sent, [codec.encode(entry)], conn.delivered);
    } else {
      StreamGrows(history, conn.openAt, 0, entry);
    }
  }

  lemma OpenReplaysLast<E>(s: State<E>)
    requires s.buffer == LastN(s.history, FEED_BUFFER_CAPACITY)
    ensures Recent(s.buffer, SSE_REPLAY_COUNT) == LastN(s.history[..|s.history|], SSE_REPLAY_COUNT)
  {
    RecentIsLast(s.buffer, SSE_REPLAY_COUNT);
    LastNOfLastN(s.history, FEED_BUFFER_CAPACITY, SSE_REPLAY_COUNT);
    assert s.history[..|s.history|] == s.history;
  }

  function Received<E>(codec: Codec<E>, conn: Connection<E>): Connection<E>
    requires conn.Live? && conn.delivered < |conn.sent|
  {
    conn.(delivered := conn.delivered + 1, entries := HandleMessage(codec, conn.entries, conn.sent[conn.delivered]))
  }

  lemma ReceiveKeepsConnection<E>(codec: Codec<E>, history: seq<E>, conn: Connection<E>)
    requires ConnectionOk(codec, history, conn) && conn.Live? && conn.delivered < |conn.sent|
    ensures ConnectionOk(codec, history, Received(codec, conn))
  {
    ListFollowsDelivery(codec, conn.sent, conn.delivered);
  }

  lemma ListFollowsDelivery<E>(codec: Codec<E>, sent: seq<string>, d: nat)
    requires d < |sent|
    ensures HandleMessage(codec, Shown(codec, sent[..d]), sent[d]) == Shown(codec, sent[..d + 1])
  {
    MessageMovesList(codec, sent[..d], sent[d], sent[..d + 1]);
  }

  lemma SubscribeKeepsConnection<E>(codec: Codec<E>, history: seq<E>, conn: Connection<E>)
    requires ConnectionOk(codec, history, conn) && conn.Opened?
    ensures ConnectionOk(codec, history, Live(conn.openAt, |history|, Map(codec.encode, conn.replay), 0, []))
  {
    assert conn.replay + history[|history|..] == conn.replay;
    assert Map(codec.encode, conn.replay)[..0] == [];
  }

  lemma PushKeepsFeed<E>(codec: Codec<E>, s: State<E>, entry: E)
    requires FeedOk(codec, s)
    ensures FeedOk(codec, Apply(codec, s, Push(entry)))
  {
    LastNPush(s.history, entry, FEED_BUFFER_CAPACITY);
    forall c | c in s.connections
      ensures ConnectionOk(codec, s.history + [entry], Broadcast(codec, s.connections[c], entry))
    {
      PushKeepsConnection(codec, s.history, s.connections[c], entry);
    }
  }

  lemma OneConnectionChanges<E>(codec: Codec<E>, s: State<E>, c: nat, conn: Connection<E>)
    requires FeedOk(codec, s) && ConnectionOk(codec, s.history, conn)
    ensures FeedOk(codec, s.(connections := s.connections[c := conn]))
  {
  }

  lemma StepKeepsFeed<E>(codec: Codec<E>, s: State<E>, step: Step<E>)
    requires FeedOk(codec, s) && Enabled(s, step)
    ensures FeedOk(codec, Apply(codec, s, step))
  {
    match step
    case Push(entry) => PushKeepsFeed(codec, s, entry);
    case OpenStream(c) =>
      OpenReplaysLast(s);
      OneConnectionChanges(codec, s, c, Opened(|s.history|, Recent(s.buffer, SSE_REPLAY_COUNT)));
    case Subscribe(c) =>
      SubscribeKeepsConnection(codec, s.history, s.connections[c]);
      OneConnectionChanges(codec, s, c,
        Live(s.connections[c].openAt, |s.history|, Map(codec.encode, s.connections[c].replay), 0, []));
    case Receive(c) =>
      ReceiveKeepsConnection(codec, s.history, s.connections[c]);
      OneConnectionChanges(codec, s, c, Received(codec, s.connections[c]));
    case Disconnect(c) =>
  }

  lemma {:induction false} ReachableFeed<E>(codec: Codec<E>, steps: seq<Step<E>>)
    ensures Exec(codec, steps).Some? ==> FeedOk(codec, Exec(codec, steps).value)
  {
    if steps != [] && Exec(codec, steps).Some? {
      var before := steps[..|steps| - 1];
      ReachableFeed(codec, before);
      StepKeepsFeed(codec, Exec(codec, before).value, steps[|steps| - 1]);
    }
  }

  lemma LiveShows<E>(codec: Codec<E>, history: seq<E>, conn: Connection<E>)
    requires ConnectionOk(codec, history, conn) && conn.Live?
    requires forall e :: e in history ==> codec.decode(codec.encode(e)) == Some(e)
    ensures conn.delivered <= |Stream(history, conn.openAt, conn.liveAt)|
    ensures var received := Stream(history, conn.openAt, conn.liveAt)[..conn.delivered];
      conn.entries == Reverse(LastN(received, MAX_FEED_ENTRIES))
  {
    var stream := Stream(history, conn.openAt, conn.liveAt);
    assert forall e :: e in stream ==> e in history;
    DecodedPrefix(codec, stream, conn.delivered);
  }

  /**
   * Main result: in every reachable state, each live connection has been sent the last 20 entries before its call
   * followed by every push since its subscription, and its browser shows the reverse of the last 200 it received.
   */
  lemma ReplayThenLive<E>(codec: Codec<E>, steps: seq<Step<E>>, c: nat)
    requires Exec(codec, steps).Some? && c in Exec(codec, steps).value.connections
    requires Exec(codec, steps).value.connections[c].Live?
    requires forall e :: e in Exec(codec, steps).value.history ==> codec.decode(codec.encode(e)) == Some(e)
    ensures var s := Exec(codec, steps).value;
      var conn := s.connections[c];
      && conn.openAt <= conn.liveAt <= |s.history|
      && var stream := Stream(s.history, conn.openAt, conn.liveAt);
      && conn.sent == Map(codec.encode, stream)
      && conn.delivered <= |stream|
      && conn.entries == Reverse(LastN(stream[..conn.delivered], 200))
  {
    ReachableFeed(codec, steps);
    var s := Exec(codec, steps).value;
    LiveShows(codec, s.history, s.connections[c]);
  }

  // ---- The stream as a part of the history ----

  function ReplayStart(openAt: nat): nat {
    if openAt <= SSE_REPLAY_COUNT then 0 else openAt - SSE_REPLAY_COUNT
  }

  /** Position in the history of the `k`-th entry of the stream. */
  function Position(openAt: nat, liveAt: nat, k: nat): nat {
    if ReplayStart(openAt) + k < openAt then ReplayStart(openAt) + k else liveAt + (k - (openAt - ReplayStart(openAt)))
  }

  /** The history entry at `p` is part of the stream. */
  ghost predicate Carries<E>(history: seq<E>, openAt: nat, liveAt: nat, p: nat)
    requires openAt <= liveAt <= |history|
  {
    exists k: nat :: k < |Stream(history, openAt, liveAt)| && Position(openAt, liveAt, k) == p
  }

  /** The stream is an order-preserving, duplicate-free part of the history. */
  lemma StreamIsSubsequence<E>(history: seq<E>, openAt: nat, liveAt: nat, j: nat, k: nat)
    requires openAt <= liveAt <= |history| && j < k < |Stream(history, openAt, liveAt)|
    ensures Position(openAt, liveAt, j) < Position(openAt, liveAt, k) < |history|
    ensures Stream(history, openAt, liveAt)[k] == history[Position(openAt, liveAt, k)]
    ensures Stream(history, openAt, liveAt)[j] == history[Position(openAt, liveAt, j)]
  {
  }

  /** The stream carries exactly the entries from the replay on, less those pushed between call and subscription. */
  lemma StreamMisses<E>(history: seq<E>, openAt: nat, liveAt: nat, p: nat)
    requires openAt <= liveAt <= |history| && p < |history|
    ensures Carries(history, openAt, liveAt, p) <==> ReplayStart(openAt) <= p && !(openAt <= p < liveAt)
  {
    var start := ReplayStart(openAt);
    if start <= p && !(openAt <= p < liveAt) {
      var k: nat := if p < openAt then p - start else p - liveAt + (openAt - start);
      assert k < |Stream(history, openAt, liveAt)| && Position(openAt, liveAt, k) == p;
    }
  }

  /** So it has no gap exactly when no push fell between the call and the subscription. */
  lemma NoGapIffNoPushBetween<E>(history: seq<E>, openAt: nat, liveAt: nat)
    requires openAt <= liveAt <= |history|
    ensures (forall p: nat :: ReplayStart(openAt) <= p < |history| ==> Carries(history, openAt, liveAt, p))
      <==> openAt == liveAt
  {
    forall p: nat | p < |history|
      ensures Carries(history, openAt, liveAt, p) <==> ReplayStart(openAt) <= p && !(openAt <= p < liveAt)
    {
      StreamMisses(history, openAt, liveAt, p);
    }
    if openAt < liveAt { assert !Carries(history, openAt, liveAt, openAt); }
  }

  // ---- Opening, catching up and leaving ----

  lemma ExecSnoc<E>(codec: Codec<E>, steps: seq<Step<E>>, step: Step<E>)
    requires Exec(codec, steps).Some? && Enabled(Exec(codec, steps).value, step)
    ensures Exec(codec, steps + [step]) == Some(Apply(codec, Exec(codec, steps).value, step))
  {
    assert (steps + [step])[..|steps|] == steps;
  }

  /** At every point of every run a new connection can open and subscribe, and then nothing is missing. */
  lemma AnyoneCanJoin<E>(codec: Codec<E>, steps: seq<Step<E>>, c: nat)
    requires Exec(codec, steps).Some? && c !in Exec(codec, steps).value.connections
    ensures var joined, history := Exec(codec, steps + [OpenStream(c)] + [Subscribe(c)]),
                                   Exec(codec, steps).value.history;
      joined.Some? && c in joined.value.connections && joined.value.history == history
      && joined.value.connections[c] == Live(|history|, |history|, Map(codec.encode, LastN(history, 20)), 0, [])
  {
    ReachableFeed(codec, steps);
    OpenReplaysLast(Exec(codec, steps).value);
    DropNoneOrAll(Exec(codec, steps).value.history);
    ExecSnoc(codec, steps, OpenStream(c));
    ExecSnoc(codec, steps + [OpenStream(c)], Subscribe(c));
  }

  /** From every point of every run, deliveries alone bring a live connection up to date. */
  lemma {:induction false} CatchesUp<E>(codec: Codec<E>, steps: seq<Step<E>>, c: nat, behind: nat)
      returns (more: seq<Step<E>>)
    requires Exec(codec, steps).Some? && c in Exec(codec, steps).value.connections
    requires var conn := Exec(codec, steps).value.connections[c];
      conn.Live? && conn.delivered <= |conn.sent| && behind == |conn.sent| - conn.delivered
    ensures |more| == behind && forall step :: step in more ==> step == Receive(c)
    ensures Exec(codec, steps + more).Some? && c in Exec(codec, steps + more).value.connections
    ensures var now, later := Exec(codec, steps).value.connections[c], Exec(codec, steps + more).value.connections[c];
      later.Live? && later.sent == now.sent && later.delivered == |now.sent|
    decreases behind
  {
    if behind == 0 {
      more := [];
      ConcatEmpty(steps);
    } else {
      ExecSnoc(codec, steps, Receive(c));
      var rest := CatchesUp(codec, steps + [Receive(c)], c, behind - 1);
      more := [Receive(c)] + rest;
      ConcatAssoc(steps, [Receive(c)], rest);
    }
  }

  /** A connection that has left is sent nothing more, unless it opens again. */
  lemma {:induction false} LeftForGood<E>(codec: Codec<E>, steps: seq<Step<E>>, c: nat, k: nat)
    requires Exec(codec, steps).Some? && k < |steps| && steps[k] == Disconnect(c)
    requires forall j :: k < j < |steps| ==> steps[j] != OpenStream(c)
    ensures c !in Exec(codec, steps).value.connections
    decreases |steps|
  {
    var before := steps[..|steps| - 1];
    if k < |before| {
      assert before[k] == steps[k] && forall j :: k < j < |before| ==> before[j] == steps[j];
      LeftForGood(codec, before, c, k);
      assert steps[|before|] != OpenStream(c);
    }
  }

  // ---- The stateful ends ----

  class EventFeed<E> {
    var buffer: seq<E>
    /** Everything the live channel has emitted. */
    ghost var history: seq<E>

    ghost predicate Valid() reads this {
      buffer == LastN(history, 200)
    }

    constructor ()
      ensures Valid() && history == []
    {
      buffer, history := [], [];
    }

    method Push(entry: E)
      requires Valid()
      modifies this
      ensures Valid() && history == old(history) + [entry]
    {
      LastNPush(history, entry, FEED_BUFFER_CAPACITY);
      buffer := buffer + [entry];
      if |buffer| > FEED_BUFFER_CAPACITY {
        buffer := buffer[1..];
      }
      history := history + [entry];
    }

    /** In terms of everything pushed, for every limit: 1 and more, 0, and below. */
    method RecentEntries(limit: int) returns (entries: seq<E>)
      requires Valid()
      ensures limit >= 1 ==>
        entries == LastN(history, if limit <= 200 then limit else 200)
      ensures limit <= 0 ==>
        var kept := LastN(history, 200); entries == if |kept| <= -limit then [] else kept[-limit..]
    {
      RecentIsLast(buffer, limit);
      entries := Recent(buffer, limit);
    }
  }

  datatype StreamStatus = Connecting | Open | Error

  class EventStream<E> {
    const codec: Codec<E>
    var entries: seq<E>
    var status: StreamStatus
    ghost var messages: seq<string>

    ghost predicate Valid() reads this {
      entries == Shown(codec, messages)
    }

    constructor (codec: Codec<E>)
      ensures Valid() && this.codec == codec && messages == [] && status == Connecting
    {
      this.codec, entries, status, messages := codec, [], Connecting, [];
    }

    method OnMessage(data: string)
      requires Valid()
      modifies this
      ensures Valid() && messages == old(messages) + [data] && status == old(status)
    {
      MessageMovesList(codec, messages, data, messages + [data]);
      messages := messages + [data];
      var entry := codec.decode(data);
      if entry.None? {
        return;
      }
      entries := [entry.value] + entries;
      if |entries| > MAX_FEED_ENTRIES {
        entries := entries[..MAX_FEED_ENTRIES];
      }
    }
  }
}
