/**
 * What a downstream proxy receives (fteqtv/forward.c): a snapshot of the parsed state when it joins or
 * resynchronises, and the stream from there on.
 *
 * The snapshot is a function of the packets that have been parsed, in the order in which they were: the
 * messages and flushes of Net_SendConnectionMVD up to the point where it sends the part of the stream that was
 * forwarded but not yet due.  `Snapshot` builds it.
 */
module ProxyFeed {
  import opened Msg
  import opened ProxyBuffer
  import opened StreamInput
  import StreamParse

  // ---------- Operations ----------

  /** Net_SendConnectionMVD for a loaded map; `tail` is what was forwarded but not yet parsed. */
  function AfterConnection(p: Proxy, snapshot: seq<ProxyEvent>, tail: seq<Byte>): Proxy {
    var q := AfterSend(AfterEvents(p.(flushing := false), snapshot), tail);
    if q.flushing then q.(drop := true) else AfterFlush(q)
  }

  /** SV_ForwardStream for one connection that is kept; `able` when a snapshot can be taken. */
  function AfterForward(p: Proxy, block: seq<Byte>, able: bool, snapshot: seq<ProxyEvent>, tail: seq<Byte>): Proxy {
    if p.flushing && p.pending != [] then AfterFlush(p)
    else
      var q := if p.flushing && able then AfterConnection(p, snapshot, tail) else p;
      if q.drop then q else AfterFlush(AfterSend(q, block))
  }

  function EventBytes(e: ProxyEvent): seq<Byte> {
    match e
    case Flush => []
    case Send(data) => data
    case Message(header, body) => header + body
  }

  /** The bytes a sequence of sends is meant to queue. */
  function Bytes(events: seq<ProxyEvent>): seq<Byte> {
    if events == [] then [] else EventBytes(events[0]) + Bytes(events[1..])
  }

  // ---------- All or a lagged connection ----------

  predicate Lagged(p: Proxy) {
    p.flushing || p.drop
  }

  lemma FlushKeepsLag(p: Proxy)
    ensures Lagged(p) ==> Lagged(AfterFlush(p))
    ensures AfterFlush(p).flushing ==> p.flushing
    ensures p.drop ==> AfterFlush(p).drop
  {
  }

  /** One operation: lag stays, and a connection that does not lag has been given the bytes. */
  lemma EventComplete(p: Proxy, e: ProxyEvent)
    requires Sound(p)
    ensures var q := AfterEvent(p, e);
            && Sound(q) && (Lagged(p) ==> Lagged(q)) && (p.drop ==> q.drop)
            && (!Lagged(q) ==> q.accepted == p.accepted + EventBytes(e))
  {
    hide AfterFlush;
    FlushKeepsLag(p);
    FlushSound(p);
    match e
    case Flush => assert p.accepted + [] == p.accepted;
    case Send(data) => SendAllOrNothing(p, data);
    case Message(header, body) => MessageAllOrNothing(p, header, body);
  }

  /** A connection that does not lag afterwards has been given every byte. */
  lemma {:induction false} AllOrLagged(p: Proxy, events: seq<ProxyEvent>)
    requires Sound(p)
    ensures var q := AfterEvents(p, events);
            && Sound(q) && (Lagged(p) ==> Lagged(q)) && (p.drop ==> q.drop)
            && (!Lagged(q) ==> q.accepted == p.accepted + Bytes(events))
    decreases |events|
  {
    hide AfterEvent, EventBytes, Sound;
    if events == [] {
      assert p.accepted + [] == p.accepted;
    } else {
      var q := AfterEvent(p, events[0]);
      EventComplete(p, events[0]);
      AllOrLagged(q, events[1..]);
      assert p.accepted + EventBytes(events[0]) + Bytes(events[1..])
             == p.accepted + (EventBytes(events[0]) + Bytes(events[1..]));
    }
  }

  lemma ConnectionComplete(p: Proxy, snapshot: seq<ProxyEvent>, tail: seq<Byte>)
    requires Sound(p)
    ensures var q := AfterConnection(p, snapshot, tail);
            && Sound(q) && (!q.drop ==> !q.flushing && q.accepted == p.accepted + Bytes(snapshot) + tail)
  {
    hide AfterFlush, AfterSend, AfterEvents;
    var p0 := p.(flushing := false);
    AllOrLagged(p0, snapshot);
    var q := AfterEvents(p0, snapshot);
    SendAllOrNothing(q, tail);
    EventComplete(q, Send(tail));
    FlushSound(AfterSend(q, tail));
    FlushKeepsLag(AfterSend(q, tail));
  }

  /**
   * One forwarded block: a connection that is neither lagged nor dropped afterwards has received the
   * block, preceded by a whole snapshot and the unparsed part of the stream if it was being resynchronised.
   */
  lemma ForwardComplete(p: Proxy, block: seq<Byte>, able: bool, snapshot: seq<ProxyEvent>, tail: seq<Byte>)
    requires Sound(p)
    ensures var q := AfterForward(p, block, able, snapshot, tail);
            && Sound(q)
            && (!Lagged(q) ==>
                  q.accepted == (if p.flushing then p.accepted + Bytes(snapshot) + tail else p.accepted) + block)
            && (!Lagged(q) && p.flushing ==> able && p.pending == [])
  {
    hide AfterFlush, AfterSend, AfterConnection;
    FlushSound(p);
    FlushKeepsLag(p);
    ConnectionComplete(p, snapshot, tail);
    if !(p.flushing && p.pending != []) {
      var q := if p.flushing && able then AfterConnection(p, snapshot, tail) else p;
      SendAllOrNothing(q, block);
      EventComplete(q, Send(block));
      FlushSound(AfterSend(q, block));
      FlushKeepsLag(AfterSend(q, block));
    }
  }

  /** A dropped connection stays dropped, and a lagging one is not cured without a snapshot. */
  lemma ForwardCompleteLag(p: Proxy, block: seq<Byte>, able: bool, snapshot: seq<ProxyEvent>, tail: seq<Byte>)
    requires Sound(p)
    ensures p.drop && !p.flushing ==> Lagged(AfterForward(p, block, able, snapshot, tail))
  {
  }

  // ---------- Runs ----------

  /**
   * How a connection was last synchronised: when it joined, with the setting and the forward point of that
   * moment; by a block that was forwarded as it was read; or by a packet that was forwarded as it was parsed.
   */
  datatype Sync = AtJoin(late: bool, forwardpoint: nat) | AtRead | AtParse

  /**
   * A stream and one of its connections: `given` are the packets that have been given to ParseMessage, early
   * unless it is a demo that is played. When the connection was last synchronised, those were `at`, of the
   * packets that were due `base` were among them, packet `from` was the first to follow the snapshot, and
   * `before` had been queued.
   */
  datatype Feed = Feed(reading: Reading, given: seq<nat>, demo: bool, proxy: Proxy, joined: bool, base: nat, from: nat,
                       at: seq<nat>, before: seq<Byte>, sync: Sync)

  ghost function GivenAfter(packets: seq<seq<Byte>>, f: Feed, e: StreamInput.Event): seq<nat> {
    StreamParse.Next(packets, f.demo, StreamParse.Parsing(f.reading, f.given, {}), e).given
  }

  /** What a snapshot consists of, from the indices of the packets that have been given to ParseMessage. */
  type Snapshots = seq<nat> -> seq<ProxyEvent>

  /** `late` is the setting at that moment, `able` tells whether a snapshot can be taken. */
  datatype FeedEvent =
    | Arrive(n: nat, late: bool, able: bool)  // data arrives, and is forwarded early
    | ParsePacket(late: bool, able: bool)     // the packet at the front is parsed, forwarded late, and destroyed
    | Join(late: bool, script: seq<SockResult>, greeting: seq<ProxyEvent>)
    | FlushProxy

  /** Whether the next forwarded block makes a connection resynchronise. */
  predicate Resyncs(p: Proxy, able: bool) {
    p.flushing && p.pending == [] && able
  }

  /** The unparsed part of the stream that was already forwarded; left out under late forwarding. */
  function Unparsed(i: Input, late: bool): seq<Byte>
    requires i.forwardpoint <= |i.buffer|
  {
    if late then [] else i.buffer[..i.forwardpoint]
  }

  /** A connection is given a block; `base` and `from` are what a snapshot at this moment means. */
  ghost function Given(packets: seq<seq<Byte>>, snap: Snapshots, f: Feed, w: Reading, given: seq<nat>, able: bool,
                       late: bool, base: nat, from: nat, sync: Sync): Feed
    requires f.reading.input.forwardpoint <= |f.reading.input.buffer|
    requires f.reading.passed <= w.passed <= |packets|
  {
    var block := Flat(packets[f.reading.passed..w.passed]);
    var p := AfterForward(f.proxy, block, able, snap(given), Unparsed(f.reading.input, late));
    if Resyncs(f.proxy, able) then Feed(w, given, f.demo, p, true, base, from, given, f.proxy.accepted, sync)
    else f.(reading := w, given := given, proxy := p)
  }

  /** The snapshot of a packet that is forwarded as it is parsed already includes it. */
  ghost function Next(packets: seq<seq<Byte>>, snap: Snapshots, f: Feed, e: FeedEvent): Feed
    requires OnTrack(packets, f.reading)
  {
    match e
    case Arrive(n, late, able) =>
      var w, given := StreamInput.Happen(packets, f.reading, Read(n, late)), GivenAfter(packets, f, Read(n, late));
      if f.joined && f.reading.passed < w.passed <= |packets|
      then Given(packets, snap, f, w, given, able, false, f.reading.parsed, f.reading.parsed, AtRead)
      else f.(reading := w, given := given)
    case ParsePacket(late, able) =>
      var w, given := StreamInput.Happen(packets, f.reading, Parse), GivenAfter(packets, f, Parse);
      if f.joined && f.reading.passed < w.passed <= |packets|
      then Given(packets, snap, f, w, given, able, late, f.reading.parsed + 1, f.reading.parsed, AtParse)
      else f.(reading := w, given := given)
    case Join(late, script, greeting) =>
      if f.joined then f
      else
        var p := AfterEvents(NewProxy(script), greeting);
        f.(proxy := AfterConnection(p, snap(f.given), Unparsed(f.reading.input, late)), joined := true,
           base := f.reading.parsed, from := if late then f.reading.passed else f.reading.parsed, at := f.given,
           before := p.accepted, sync := AtJoin(late, f.reading.input.forwardpoint))
    case FlushProxy => if f.joined then f.(proxy := AfterFlush(f.proxy)) else f
  }

  /** Whether the stream goes on exactly where the snapshot ends. */
  predicate InStep(sync: Sync) {
    match sync
    case AtJoin(late, forwardpoint) => !late || forwardpoint == 0
    case AtRead => true
    case AtParse => false
  }

  ghost predicate SyncOk(f: Feed) {
    && (f.from == f.base <==> InStep(f.sync))
    && (f.sync.AtJoin? ==> f.base <= f.from) && (f.sync.AtParse? ==> f.base == f.from + 1)
  }

  /** Since it was last synchronised the connection has been given a snapshot and the stream from packet `from` on. */
  ghost predicate Followed(packets: seq<seq<Byte>>, snap: Snapshots, f: Feed) {
    && OnTrack(packets, f.reading)
    && (f.joined ==>
          && Sound(f.proxy) && SyncOk(f)
          && f.base <= f.reading.passed && f.from <= f.reading.passed
          && (!Lagged(f.proxy) ==>
                f.proxy.accepted == f.before + Bytes(snap(f.at)) + Flat(packets[f.from..f.reading.passed])))
  }

  /** A block keeps a connection in its step. */
  lemma GivenFollowed(packets: seq<seq<Byte>>, snap: Snapshots, f: Feed, w: Reading, given: seq<nat>, able: bool,
                      late: bool, base: nat, from: nat, sync: Sync)
    requires Followed(packets, snap, f) && f.joined && OnTrack(packets, w) && f.reading.passed <= w.passed
    requires f.reading.input.forwardpoint <= |f.reading.input.buffer| && w.passed <= |packets|
    requires from <= f.reading.passed && base <= w.passed
    requires Unparsed(f.reading.input, late) == Flat(packets[from..f.reading.passed])
    requires SyncOk(f.(base := base, from := from, sync := sync))
    ensures Followed(packets, snap, Given(packets, snap, f, w, given, able, late, base, from, sync))
  {
    hide Flat, AfterForward, Bytes, Sound, OnTrack;
    var b, c := f.reading.passed, w.passed;
    var block, tail := Flat(packets[b..c]), Unparsed(f.reading.input, late);
    ForwardComplete(f.proxy, block, able, snap(given), tail);
    ForwardCompleteLag(f.proxy, block, able, snap(given), tail);
    FlatJoin(packets, from, b, c);
    FlatJoin(packets, f.from, b, c);
    if f.proxy.flushing {
      assert f.proxy.accepted + Bytes(snap(given)) + tail + block
             == f.proxy.accepted + Bytes(snap(given)) + (tail + block);
    } else {
      var sofar := f.before + Bytes(snap(f.at));
      assert sofar + Flat(packets[f.from..b]) + block == sofar + (Flat(packets[f.from..b]) + block);
    }
  }

  lemma FlatJoin(packets: seq<seq<Byte>>, a: nat, b: nat, c: nat)
    requires a <= b <= c <= |packets|
    ensures Flat(packets[a..b]) + Flat(packets[b..c]) == Flat(packets[a..c])
  {
    assert packets[a..c] == packets[a..b] + packets[b..c];
    FlatAppend(packets[a..b], packets[b..c]);
  }

  /** The unparsed forwarded bytes are the packets between the parse point and the forward point. */
  lemma UnparsedPackets(packets: seq<seq<Byte>>, w: Reading)
    requires OnTrack(packets, w)
    ensures w.input.forwardpoint <= |w.input.buffer| && w.parsed <= w.passed <= |packets|
    ensures Unparsed(w.input, false) == Flat(packets[w.parsed..w.passed])
    ensures w.input.forwardpoint == 0 <==> w.parsed == w.passed
  {
    hide Flat, WellFormed, WholeRuns;
    FlatBetween(packets, w.parsed, w.passed);
    if w.parsed < w.passed {
      PassedLonger(packets, w.parsed, w.passed);
    }
  }

  lemma EmptyFlat(packets: seq<seq<Byte>>, a: nat)
    requires a <= |packets|
    ensures Flat(packets[a..a]) == []
  {
  }

  /** Reading and parsing never take back what was handed on. */
  lemma ReadPasses(packets: seq<seq<Byte>>, w: Reading, n: nat, late: bool)
    requires OnTrack(packets, w)
    ensures var x := StreamInput.Happen(packets, w, Read(n, late));
            && OnTrack(packets, x) && x.parsed == w.parsed && w.passed <= x.passed <= |packets|
            && (late ==> x.passed == w.passed)
  {
    hide Flat, Whole, WellFormed, Complete, WholeRuns;
    ReadOnTrack(packets, w, n, late);
    var x := StreamInput.Happen(packets, w, Read(n, late));
    EarlyReading(packets, w.passed, x.arrived);
  }

  lemma ParsePasses(packets: seq<seq<Byte>>, w: Reading)
    requires OnTrack(packets, w)
    ensures var x := StreamInput.Happen(packets, w, Parse);
            && OnTrack(packets, x) && w.passed <= x.passed <= |packets|
            && (w.passed < x.passed ==> w.passed == w.parsed && x.passed == w.parsed + 1)
            && (x.parsed == w.parsed + 1 || x.parsed == w.parsed)
  {
    hide Flat, WellFormed, WholeRuns, RunLength;
    ParseOnTrack(packets, w);
    PointInBuffer(packets, w);
    RunFindsPacket(packets, w.parsed, w.arrived);
  }

  lemma ArriveFollowed(packets: seq<seq<Byte>>, snap: Snapshots, f: Feed, n: nat, late: bool, able: bool)
    requires Followed(packets, snap, f)
    ensures Followed(packets, snap, Next(packets, snap, f, Arrive(n, late, able)))
  {
    hide Flat, Bytes, Sound, OnTrack, Given, GivenAfter, StreamInput.Happen, Unparsed;
    ReadPasses(packets, f.reading, n, late);
    UnparsedPackets(packets, f.reading);
    var w := StreamInput.Happen(packets, f.reading, Read(n, late));
    if f.joined && f.reading.passed < w.passed {
      var given := GivenAfter(packets, f, Read(n, late));
      GivenFollowed(packets, snap, f, w, given, able, false, f.reading.parsed, f.reading.parsed, AtRead);
    }
  }

  lemma ParseFollowed(packets: seq<seq<Byte>>, snap: Snapshots, f: Feed, late: bool, able: bool)
    requires Followed(packets, snap, f)
    ensures Followed(packets, snap, Next(packets, snap, f, ParsePacket(late, able)))
  {
    hide Flat, Bytes, Sound, OnTrack, Given, GivenAfter, StreamInput.Happen;
    ParsePasses(packets, f.reading);
    UnparsedPackets(packets, f.reading);
    var w := StreamInput.Happen(packets, f.reading, Parse);
    if f.joined && f.reading.passed < w.passed {
      EmptyFlat(packets, f.reading.parsed);
      var given := GivenAfter(packets, f, Parse);
      GivenFollowed(packets, snap, f, w, given, able, late, f.reading.parsed + 1, f.reading.parsed, AtParse);
    }
  }

  lemma JoinFollowed(packets: seq<seq<Byte>>, snap: Snapshots, f: Feed, late: bool,
                     script: seq<SockResult>, greeting: seq<ProxyEvent>)
    requires Followed(packets, snap, f)
    ensures Followed(packets, snap, Next(packets, snap, f, Join(late, script, greeting)))
  {
    hide Flat, AfterEvents, AfterConnection, Bytes, OnTrack;
    UnparsedPackets(packets, f.reading);
    if !f.joined {
      var p := AfterEvents(NewProxy(script), greeting);
      EventsSound(NewProxy(script), greeting);
      ConnectionComplete(p, snap(f.given), Unparsed(f.reading.input, late));
      EmptyFlat(packets, f.reading.passed);
    }
  }

  lemma NextFollowed(packets: seq<seq<Byte>>, snap: Snapshots, f: Feed, e: FeedEvent)
    requires Followed(packets, snap, f)
    ensures Followed(packets, snap, Next(packets, snap, f, e))
  {
    hide Flat, AfterFlush, Bytes, OnTrack, Sound;
    PointInBuffer(packets, f.reading);
    match e
    case Arrive(n, late, able) => ArriveFollowed(packets, snap, f, n, late, able);
    case ParsePacket(late, able) => ParseFollowed(packets, snap, f, late, able);
    case Join(late, script, greeting) => JoinFollowed(packets, snap, f, late, script, greeting);
    case FlushProxy =>
      if f.joined {
        FlushSound(f.proxy);
        FlushKeepsLag(f.proxy);
      }
  }

  ghost function Feeds(packets: seq<seq<Byte>>, snap: Snapshots, f: Feed, events: seq<FeedEvent>)
    : (g: Feed)
    requires Followed(packets, snap, f)
    ensures Followed(packets, snap, g)
    decreases |events|
  {
    if events == [] then f
    else
      NextFollowed(packets, snap, f, events[0]);
      Feeds(packets, snap, Next(packets, snap, f, events[0]), events[1..])
  }

  // ---------- Main results ----------

  function NoFeed(demo: bool): Feed {
    Feed(Start(), [], demo, NewProxy([]), false, 0, 0, [], [], AtRead)
  }

  lemma NoFeedFollowed(packets: seq<seq<Byte>>, snap: Snapshots, demo: bool)
    requires forall p :: p in packets ==> WellFormed(p)
    ensures Followed(packets, snap, NoFeed(demo))
  {
    StartOnTrack(packets);
  }

  /** What happens to the stream itself. */
  function StreamEvent(e: FeedEvent): seq<StreamInput.Event> {
    match e
    case Arrive(n, late, _) => [Read(n, late)]
    case ParsePacket(_, _) => [Parse]
    case Join(_, _, _) => []
    case FlushProxy => []
  }

  function StreamEvents(events: seq<FeedEvent>): seq<StreamInput.Event> {
    if events == [] then [] else StreamEvent(events[0]) + StreamEvents(events[1..])
  }

  /** The stream is read and parsed as it is without the connection. */
  lemma {:induction false} FeedIsParsing(packets: seq<seq<Byte>>, snap: Snapshots, f: Feed, p: StreamParse.Parsing,
                                         events: seq<FeedEvent>)
    requires Followed(packets, snap, f) && f.reading == p.reading && f.given == p.given
    ensures var g := Feeds(packets, snap, f, events);
            var q := StreamParse.Runs(packets, f.demo, p, StreamEvents(events));
            g.reading == q.reading && g.given == q.given
    decreases |events|
  {
    hide Followed, OnTrack, Next, StreamEvent, StreamParse.Next;
    if events != [] {
      var e, rest := StreamEvent(events[0]), StreamEvents(events[1..]);
      NextFollowed(packets, snap, f, events[0]);
      FollowedOnTrack(packets, snap, f);
      NextParsing(packets, snap, f, p, events[0]);
      var g := Next(packets, snap, f, events[0]);
      if e == [] {
        assert e + rest == rest;
        FeedIsParsing(packets, snap, g, p, events[1..]);
      } else {
        assert e == [e[0]];
        OneParsing(packets, f.demo, p, e[0], rest);
        FeedIsParsing(packets, snap, g, StreamParse.Next(packets, f.demo, p, e[0]), events[1..]);
      }
    }
  }

  lemma NextParsing(packets: seq<seq<Byte>>, snap: Snapshots, f: Feed, p: StreamParse.Parsing, event: FeedEvent)
    requires OnTrack(packets, f.reading) && f.reading == p.reading && f.given == p.given
    ensures var g, e := Next(packets, snap, f, event), StreamEvent(event);
            && g.demo == f.demo && |e| <= 1
            && (e == [] ==> g.reading == p.reading && g.given == p.given)
            && (e != [] ==> var q := StreamParse.Next(packets, f.demo, p, e[0]);
                            g.reading == q.reading && g.given == q.given)
  {
    hide AfterForward, AfterConnection, AfterFlush, AfterEvents, OnTrack, Flat, StreamInput.Happen,
         StreamParse.DataIn, StreamParse.TypeAt;
    PointInBuffer(packets, f.reading);
  }

  lemma FollowedOnTrack(packets: seq<seq<Byte>>, snap: Snapshots, f: Feed)
    requires Followed(packets, snap, f)
    ensures OnTrack(packets, f.reading)
  {
  }

  lemma OneParsing(packets: seq<seq<Byte>>, demo: bool, p: StreamParse.Parsing, e: StreamInput.Event,
                   more: seq<StreamInput.Event>)
    ensures StreamParse.Runs(packets, demo, p, [e] + more)
            == StreamParse.Runs(packets, demo, StreamParse.Next(packets, demo, p, e), more)
  {
    hide StreamParse.Next;
    assert ([e] + more)[1..] == more;
  }

  /** What a connection ought to have been given: the snapshot it got and the stream from there on. */
  ghost predicate Gapless(packets: seq<seq<Byte>>, snap: Snapshots, f: Feed) {
    && f.base <= f.reading.passed <= |packets|
    && f.proxy.accepted == f.before + Bytes(snap(f.at)) + Flat(packets[f.base..f.reading.passed])
  }

  /**
   * In every run, with the setting changed at will: a connection that is neither lagging nor dropped has
   * been given the whole snapshot and then every byte of the stream from the parse point on, with no gap
   * and no repeat, if and only if it was last synchronised by a read, or when it joined, and then either
   * under early forwarding or with nothing forwarded that was not parsed.
   */
  lemma GaplessExactlyWhen(packets: seq<seq<Byte>>, snap: Snapshots, demo: bool, events: seq<FeedEvent>)
    requires forall p :: p in packets ==> WellFormed(p)
    ensures Followed(packets, snap, NoFeed(demo))
    ensures var f := Feeds(packets, snap, NoFeed(demo), events);
            f.joined && !Lagged(f.proxy) ==>
              && f.proxy.sent <= f.proxy.accepted
              && (Gapless(packets, snap, f) <==> InStep(f.sync))
  {
    hide Flat, Bytes, WellFormed, WholeRuns, Next;
    NoFeedFollowed(packets, snap, demo);
    var f := Feeds(packets, snap, NoFeed(demo), events);
    if f.joined && !Lagged(f.proxy) && f.from != f.base {
      var head, passed := f.before + Bytes(snap(f.at)), f.reading.passed;
      if f.from < f.base {
        LongerRun(packets, f.from, f.base, passed);
      } else {
        LongerRun(packets, f.base, f.from, passed);
      }
      assert |head + Flat(packets[f.from..passed])| != |head + Flat(packets[f.base..passed])|;
    }
  }

  /** An earlier start makes a longer run of packets, as no packet is empty. */
  lemma LongerRun(packets: seq<seq<Byte>>, a: nat, b: nat, c: nat)
    requires a < b <= c <= |packets| && forall p :: p in packets ==> WellFormed(p)
    ensures |Flat(packets[a..c])| > |Flat(packets[b..c])|
  {
    hide Flat, WellFormed;
    FlatJoin(packets, a, b, c);
    PassedLonger(packets, a, b);
    FlatBetween(packets, a, b);
  }

  ghost predicate AlwaysEarly(events: seq<FeedEvent>) {
    forall i :: 0 <= i < |events| ==>
      match events[i]
      case Arrive(_, late, _) => !late
      case ParsePacket(late, _) => !late
      case Join(late, _, _) => !late
      case FlushProxy => true
  }

  lemma {:induction false} EarlyStaysInStep(packets: seq<seq<Byte>>, snap: Snapshots, f: Feed,
                                            events: seq<FeedEvent>)
    requires Followed(packets, snap, f) && CaughtUp(packets, f.reading) && InStep(f.sync) && AlwaysEarly(events)
    ensures InStep(Feeds(packets, snap, f, events).sync)
    decreases |events|
  {
    hide Flat, Bytes, OnTrack, Sound, AfterForward, AfterConnection, AfterFlush, StreamInput.Happen, Passed;
    PointInBuffer(packets, f.reading);
    if events != [] {
      NextFollowed(packets, snap, f, events[0]);
      match events[0] {
        case Arrive(n, late, _) => StaysCaughtUp(packets, f.reading, Read(n, late));
        case ParsePacket(_, _) => StaysCaughtUp(packets, f.reading, Parse);
        case Join(_, _, _) =>
        case FlushProxy =>
      }
      EarlyStaysInStep(packets, snap, Next(packets, snap, f, events[0]), events[1..]);
    }
  }

  /**
   * With early forwarding on, in every run: a connection that is neither lagging nor dropped has been
   * given, since it last joined or resynchronised, the whole snapshot of the state after `base` packets
   * and then every byte of the stream from packet `base` up to the forward point, with no gap and no
   * repeat; and what the socket has taken is a prefix of what it was given.
   */
  lemma SnapshotThenStream(packets: seq<seq<Byte>>, snap: Snapshots, demo: bool, events: seq<FeedEvent>)
    requires (forall p :: p in packets ==> WellFormed(p)) && AlwaysEarly(events)
    ensures Followed(packets, snap, NoFeed(demo))
    ensures var f := Feeds(packets, snap, NoFeed(demo), events);
            f.joined && !Lagged(f.proxy) ==> Gapless(packets, snap, f) && f.proxy.sent <= f.proxy.accepted
  {
    hide Flat, Bytes, WellFormed, WholeRuns, Next, Followed, CaughtUp, Gapless, OnTrack, Lagged, AlwaysEarly;
    NoFeedFollowed(packets, snap, demo);
    StartCaughtUp(packets);
    GaplessExactlyWhen(packets, snap, demo, events);
    EarlyStaysInStep(packets, snap, NoFeed(demo), events);
  }

  // ---------- A connection with room ----------

  /** The socket blocks or takes something, and does not fail. */
  predicate Willing(p: Proxy) {
    !Lagged(p) && forall r :: r in p.script ==> r.WouldBlock? || (r.Accepted? && r.n > 0)
  }

  lemma FlushWilling(p: Proxy)
    requires Sound(p) && Willing(p)
    ensures var q := AfterFlush(p);
            Sound(q) && Willing(q) && q.accepted == p.accepted && |q.pending| <= |p.pending|
  {
    FlushSound(p);
    hide Wrap;
  }

  /** Data for which the queue has room is queued without a lag. */
  lemma SendWilling(p: Proxy, data: seq<Byte>)
    requires Sound(p) && Willing(p) && |p.pending| + |data| <= MAX_PROXY_BUFFER
    ensures var q := AfterSend(p, data);
            Sound(q) && Willing(q) && q.accepted == p.accepted + data && q.pending == p.pending + data
  {
    hide AfterFlush;
    SendAllOrNothing(p, data);
    assert p.accepted + [] == p.accepted && p.pending + [] == p.pending;
    if data != [] {
      QueuedIfRoom(p, data);
    }
  }

  lemma EventWilling(p: Proxy, e: ProxyEvent)
    requires Sound(p) && Willing(p) && |p.pending| + |EventBytes(e)| <= MAX_PROXY_BUFFER
    ensures var q := AfterEvent(p, e);
            && Sound(q) && Willing(q) && q.accepted == p.accepted + EventBytes(e)
            && |q.pending| <= |p.pending| + |EventBytes(e)|
  {
    hide AfterFlush, AfterSend, Sound, Willing;
    match e
    case Flush =>
      FlushWilling(p);
      assert p.accepted + [] == p.accepted;
    case Send(data) => SendWilling(p, data);
    case Message(header, body) =>
      SendWilling(p, header);
      SendWilling(AfterSend(p, header), body);
      assert p.accepted + header + body == p.accepted + (header + body);
  }

  lemma {:induction false} EventsWilling(p: Proxy, events: seq<ProxyEvent>)
    requires Sound(p) && Willing(p) && |p.pending| + |Bytes(events)| <= MAX_PROXY_BUFFER
    ensures var q := AfterEvents(p, events);
            && Sound(q) && Willing(q) && q.accepted == p.accepted + Bytes(events)
            && |q.pending| <= |p.pending| + |Bytes(events)|
    decreases |events|
  {
    hide AfterEvent, EventBytes, Sound, Willing;
    if events == [] {
      assert p.accepted + [] == p.accepted;
    } else {
      EventWilling(p, events[0]);
      EventsWilling(AfterEvent(p, events[0]), events[1..]);
      assert p.accepted + EventBytes(events[0]) + Bytes(events[1..])
             == p.accepted + (EventBytes(events[0]) + Bytes(events[1..]));
    }
  }

  /** A snapshot for which there is room is taken whole. */
  lemma ConnectionWilling(p: Proxy, snapshot: seq<ProxyEvent>, tail: seq<Byte>)
    requires Sound(p) && Willing(p.(flushing := false))
    requires |p.pending| + |Bytes(snapshot)| + |tail| <= MAX_PROXY_BUFFER
    ensures var q := AfterConnection(p, snapshot, tail);
            && Sound(q) && Willing(q) && q.accepted == p.accepted + Bytes(snapshot) + tail
            && |q.pending| <= |p.pending| + |Bytes(snapshot)| + |tail|
  {
    hide AfterFlush, AfterSend, AfterEvents, Bytes;
    var q := AfterEvents(p.(flushing := false), snapshot);
    EventsWilling(p.(flushing := false), snapshot);
    SendWilling(q, tail);
    FlushWilling(AfterSend(q, tail));
  }

  /** Whatever is queued is offered to the socket at once. */
  lemma OfferedAtOnce(p: Proxy)
    requires Sound(p) && p.pending != [] && p.script != [] && p.script[0].Accepted? && p.script[0].n > 0
    ensures |AfterFlush(p).sent| > |p.sent|
  {
    hide AfterFlush;
    FlushTakes(p);
  }

  /**
   * A block for which there is room is forwarded, and offered to the socket at once; and a connection that lags with
   * an empty queue is cured by a snapshot for which there is room.
   */
  lemma ForwardWilling(p: Proxy, block: seq<Byte>, able: bool, snapshot: seq<ProxyEvent>, tail: seq<Byte>)
    requires Sound(p) && Willing(p.(flushing := false)) && (p.flushing ==> p.pending == [] && able)
    requires |p.pending| + (if p.flushing then |Bytes(snapshot)| + |tail| else 0) + |block| <= MAX_PROXY_BUFFER
    ensures var q := AfterForward(p, block, able, snapshot, tail);
            && Sound(q) && Willing(q)
            && q.accepted == (if p.flushing then p.accepted + Bytes(snapshot) + tail else p.accepted) + block
            && (!p.flushing && block != [] && p.script != [] && p.script[0].Accepted? ==> |q.sent| > |p.sent|)
  {
    hide AfterFlush, AfterSend, AfterConnection, Bytes;
    if p.flushing {
      ConnectionWilling(p, snapshot, tail);
    }
    var q := if p.flushing then AfterConnection(p, snapshot, tail) else p;
    SendWilling(q, block);
    FlushWilling(AfterSend(q, block));
    if !p.flushing && block != [] && p.script != [] && p.script[0].Accepted? {
      assert p.script[0] in p.script;
      QueuedIfRoom(p, block);
      OfferedAtOnce(AfterSend(p, block));
    }
  }

  /** Greetings of at most `room` bytes, and sockets that do not fail. */
  ghost predicate Welcoming(events: seq<FeedEvent>, room: nat) {
    forall i :: 0 <= i < |events| && events[i].Join? ==>
      Willing(NewProxy(events[i].script)) && |Bytes(events[i].greeting)| <= room
  }

  ghost predicate KeepsUp(f: Feed, room: nat) {
    f.joined ==> Willing(f.proxy) && |f.before| <= room
  }

  /** What a connection holds is bounded by its greeting, its snapshot and the stream. */
  lemma HoldsAtMost(packets: seq<seq<Byte>>, snap: Snapshots, f: Feed, room: nat, size: nat, passed: nat)
    requires Followed(packets, snap, f) && f.joined && KeepsUp(f, room)
    requires |Bytes(snap(f.at))| <= size && f.reading.passed <= passed <= |packets|
    ensures |f.proxy.pending| + |Flat(packets[f.reading.passed..passed])| <= room + size + |Flat(packets)|
  {
    hide Flat, Bytes, OnTrack;
    FlatJoin(packets, f.from, f.reading.passed, passed);
    FlatBetween(packets, f.from, passed);
  }

  lemma StreamFits(packets: seq<seq<Byte>>, f: Feed, late: bool)
    requires OnTrack(packets, f.reading)
    ensures f.reading.input.forwardpoint <= |f.reading.input.buffer|
    ensures |Unparsed(f.reading.input, late)| <= |Flat(packets)|
  {
    hide Flat, WellFormed, WholeRuns;
    UnparsedPackets(packets, f.reading);
    FlatBetween(packets, f.reading.parsed, f.reading.passed);
  }

  lemma NextKeepsUp(packets: seq<seq<Byte>>, snap: Snapshots, f: Feed, e: FeedEvent, room: nat, size: nat)
    requires Followed(packets, snap, f) && KeepsUp(f, room) && Welcoming([e], room)
    requires room + size + |Flat(packets)| <= MAX_PROXY_BUFFER && forall given :: |Bytes(snap(given))| <= size
    ensures KeepsUp(Next(packets, snap, f, e), room)
  {
    hide Flat, Bytes, OnTrack, AfterForward, AfterConnection, AfterFlush, AfterEvents, StreamInput.Happen, GivenAfter,
         Willing, Sound;
    FollowedOnTrack(packets, snap, f);
    PointInBuffer(packets, f.reading);
    assert e in [e] && [e][0] == e;
    match e
    case Arrive(n, late, able) =>
      ReadPasses(packets, f.reading, n, late);
      BlockKeepsUp(packets, snap, f, StreamInput.Happen(packets, f.reading, Read(n, late)), able, false, room, size);
    case ParsePacket(late, able) =>
      ParsePasses(packets, f.reading);
      BlockKeepsUp(packets, snap, f, StreamInput.Happen(packets, f.reading, Parse), able, late, room, size);
    case Join(late, script, greeting) =>
      if !f.joined {
        JoinKeepsUp(packets, snap, f, late, script, greeting, room, size);
      }
    case FlushProxy =>
      if f.joined {
        FlushWilling(f.proxy);
      }
  }

  lemma BlockKeepsUp(packets: seq<seq<Byte>>, snap: Snapshots, f: Feed, w: Reading, able: bool, late: bool,
                     room: nat, size: nat)
    requires Followed(packets, snap, f) && KeepsUp(f, room) && f.reading.passed <= w.passed <= |packets|
    requires f.reading.input.forwardpoint <= |f.reading.input.buffer|
    requires room + size + |Flat(packets)| <= MAX_PROXY_BUFFER && forall given :: |Bytes(snap(given))| <= size
    ensures f.joined ==>
              && !Resyncs(f.proxy, able)
              && forall given :: Willing(AfterForward(f.proxy, Flat(packets[f.reading.passed..w.passed]), able,
                                                      snap(given), Unparsed(f.reading.input, late)))
  {
    hide Flat, Bytes, OnTrack, AfterForward;
    if f.joined {
      HoldsAtMost(packets, snap, f, room, size, w.passed);
      assert f.proxy.(flushing := false) == f.proxy;
      forall given
        ensures Willing(AfterForward(f.proxy, Flat(packets[f.reading.passed..w.passed]), able, snap(given),
                                     Unparsed(f.reading.input, late)))
      {
        ForwardWilling(f.proxy, Flat(packets[f.reading.passed..w.passed]), able, snap(given),
                       Unparsed(f.reading.input, late));
      }
    }
  }

  lemma JoinKeepsUp(packets: seq<seq<Byte>>, snap: Snapshots, f: Feed, late: bool, script: seq<SockResult>,
                    greeting: seq<ProxyEvent>, room: nat, size: nat)
    requires Followed(packets, snap, f) && Willing(NewProxy(script)) && |Bytes(greeting)| <= room
    requires f.reading.input.forwardpoint <= |f.reading.input.buffer|
    requires room + size + |Flat(packets)| <= MAX_PROXY_BUFFER && forall given :: |Bytes(snap(given))| <= size
    ensures var p := AfterEvents(NewProxy(script), greeting);
            && Willing(AfterConnection(p, snap(f.given), Unparsed(f.reading.input, late)))
            && |p.accepted| <= room
  {
    hide Flat, Bytes, OnTrack, AfterConnection, AfterEvents, Willing;
    FollowedOnTrack(packets, snap, f);
    StreamFits(packets, f, late);
    EventsWilling(NewProxy(script), greeting);
    var p := AfterEvents(NewProxy(script), greeting);
    NotLagging(p);
    ConnectionWilling(p, snap(f.given), Unparsed(f.reading.input, late));
    assert [] + Bytes(greeting) == Bytes(greeting);
  }

  lemma NotLagging(p: Proxy)
    requires Willing(p)
    ensures p.(flushing := false) == p
  {
  }

  lemma {:induction false} FeedsKeepUp(packets: seq<seq<Byte>>, snap: Snapshots, f: Feed, events: seq<FeedEvent>,
                                       room: nat, size: nat)
    requires Followed(packets, snap, f) && KeepsUp(f, room) && Welcoming(events, room)
    requires room + size + |Flat(packets)| <= MAX_PROXY_BUFFER && forall given :: |Bytes(snap(given))| <= size
    ensures KeepsUp(Feeds(packets, snap, f, events), room)
    decreases |events|
  {
    hide Flat, Bytes, Next, Followed, KeepsUp, Willing;
    if events != [] {
      NextFollowed(packets, snap, f, events[0]);
      assert Welcoming([events[0]], room);
      FollowedOnTrack(packets, snap, f);
      NextKeepsUp(packets, snap, f, events[0], room, size);
      FeedsKeepUp(packets, snap, Next(packets, snap, f, events[0]), events[1..], room, size);
    }
  }

  /**
   * In every run, with the setting changed at will: a connection whose socket does not fail never lags and is never
   * dropped, however slow it is, as long as greeting, snapshot and stream together fit its buffer; so it has been
   * given the snapshot and the stream from the packet where it joined.
   */
  lemma RoomForAll(packets: seq<seq<Byte>>, snap: Snapshots, demo: bool, events: seq<FeedEvent>, room: nat, size: nat)
    requires (forall p :: p in packets ==> WellFormed(p)) && Welcoming(events, room)
    requires room + size + |Flat(packets)| <= 0x2_0000 && forall given :: |Bytes(snap(given))| <= size
    ensures Followed(packets, snap, NoFeed(demo))
    ensures var f := Feeds(packets, snap, NoFeed(demo), events);
            f.joined ==>
              && !Lagged(f.proxy) && f.from <= f.reading.passed <= |packets|
              && f.proxy.accepted == f.before + Bytes(snap(f.at)) + Flat(packets[f.from..f.reading.passed])
  {
    hide Flat, Bytes, Next, WellFormed, WholeRuns;
    NoFeedFollowed(packets, snap, demo);
    FeedsKeepUp(packets, snap, NoFeed(demo), events, room, size);
  }

  // ---------- The two ways to go wrong ----------

  lemma FeedsOne(packets: seq<seq<Byte>>, snap: Snapshots, f: Feed, events: seq<FeedEvent>, i: nat)
    requires Followed(packets, snap, f) && i < |events|
    ensures Followed(packets, snap, Next(packets, snap, f, events[i]))
    ensures Feeds(packets, snap, f, events[i..])
            == Feeds(packets, snap, Next(packets, snap, f, events[i]), events[i + 1..])
  {
    hide Next, Followed;
    NextFollowed(packets, snap, f, events[i]);
    assert events[i..][1..] == events[i + 1..];
  }

  /**
   * A connection that joins under late forwarding, when part of the stream was forwarded before, never gets
   * that part: the snapshot does not include it, and it is not forwarded again.
   */
  lemma LateJoinSkips(p: seq<Byte>, demo: bool)
    requires WellFormed(p) && |p| <= MAX_PROXY_BUFFER
    ensures var packets, snap := [p], (given: seq<nat>) => [];
            && Followed(packets, snap, NoFeed(demo))
            && var f := Feeds(packets, snap, NoFeed(demo), [Arrive(|p|, false, true), Join(true, [], [])]);
               && f.joined && !Lagged(f.proxy) && f.reading.parsed == 0 && f.reading.passed == 1
               && f.proxy.accepted == f.before + Bytes(snap(f.at)) && !Gapless(packets, snap, f)
  {
    hide Flat, WellFormed, OnTrack;
    var packets, snap := [p], (given: seq<nat>) => [];
    var events := [Arrive(|p|, false, true), Join(true, [], [])];
    NoFeedFollowed(packets, snap, demo);
    FlatOne(p);
    AllArrive(packets, false);
    Nonempty(p);
    FeedsOne(packets, snap, NoFeed(demo), events, 0);
    var f1 := Next(packets, snap, NoFeed(demo), events[0]);
    FeedsOne(packets, snap, f1, events, 1);
    assert events[0..] == events && events[2..] == [];
    GaplessExactlyWhen(packets, snap, demo, events);
  }

  function Full(): (d: seq<Byte>)
    ensures |d| == MAX_PROXY_BUFFER
  {
    seq(MAX_PROXY_BUFFER, _ => 0)
  }

  /** A socket that blocks twice and then takes the whole buffer twice. */
  const SLOW: seq<SockResult> := [WouldBlock, WouldBlock, Accepted(MAX_PROXY_BUFFER), Accepted(MAX_PROXY_BUFFER)]

  /** The connection whose buffer the snapshot has filled. */
  function Filled(): Proxy {
    Proxy(0, Full(), false, false, SLOW[1..], Full(), [])
  }

  lemma JoinsFilled()
    ensures AfterConnection(NewProxy(SLOW), [Send(Full())], []) == Filled()
  {
    hide Full;
    var p := NewProxy(SLOW);
    assert [Send(Full())][1..] == [];
    var q := Queued(p, Full());
    assert [] + Full() == Full();
    assert AfterSend(p, Full()) == q;
    assert AfterEvents(p, [Send(Full())]) == q;
    assert AfterFlush(q) == Filled();
  }

  /** The first block finds no room, and the connection starts to lag; then the socket takes everything. */
  lemma BlockMakesItLag(block: seq<Byte>, able: bool, snapshot: seq<ProxyEvent>)
    requires block != []
    ensures AfterForward(Filled(), block, able, snapshot, [])
            == Proxy(MAX_PROXY_BUFFER, [], true, false, SLOW[3..], Full(), Full())
  {
    hide Full;
    var p := Filled();
    var q := p.(script := SLOW[2..]);
    assert SLOW[1..][1..] == SLOW[2..] && SLOW[2..][1..] == SLOW[3..];
    assert AfterFlush(p) == q;
    assert AfterSend(p, block) == q.(flushing := true);
    TakesAll(q.(flushing := true));
    assert [] + Full() == Full();
  }

  lemma TakesAll(p: Proxy)
    requires p.pos == 0 && |p.pending| == MAX_PROXY_BUFFER && p.script != []
    requires p.script[0] == Accepted(MAX_PROXY_BUFFER)
    ensures AfterFlush(p)
            == p.(pos := MAX_PROXY_BUFFER, pending := [], script := p.script[1..], sent := p.sent + p.pending)
  {
  }

  /** The next block finds it ready for a new snapshot, which the socket takes at once. */
  lemma BlockAfterSnapshot(block: seq<Byte>)
    requires 0 < |block| <= MAX_PROXY_BUFFER
    ensures var p := Proxy(MAX_PROXY_BUFFER, [], true, false, SLOW[3..], Full(), Full());
            var q := AfterForward(p, block, true, [Send(Full())], []);
            !Lagged(q) && q.accepted == Full() + Full() + block
  {
    hide Full;
    var p := Proxy(MAX_PROXY_BUFFER, [], true, false, SLOW[3..], Full(), Full());
    var r := p.(flushing := false);
    assert [Send(Full())][1..] == [];
    var q := Queued(r, Full());
    assert [] + Full() == Full();
    assert AfterEvents(r, [Send(Full())]) == q;
    var t := q.(pos := 0);
    TakesAll(t);
    assert AfterFlush(q) == AfterFlush(t);
    assert AfterConnection(p, [Send(Full())], []) == AfterFlush(q);
    assert AfterFlush(q).pending == [] && !AfterFlush(q).flushing && AfterFlush(q).script == [];
  }

  /**
   * A connection that resynchronises when a packet is forwarded as it is parsed gets the packet twice: the
   * snapshot includes it, and then it follows.
   */
  lemma LateResyncRepeats(p: seq<Byte>, demo: bool)
    requires WellFormed(p) && 2 * |p| <= MAX_PROXY_BUFFER
    ensures var packets, snap := [p, p], (given: seq<nat>) => [Send(Full())];
            var events := [Arrive(2 * |p|, true, true), Join(true, SLOW, []), ParsePacket(true, true),
                           ParsePacket(true, true)];
            && Followed(packets, snap, NoFeed(demo))
            && var f := Feeds(packets, snap, NoFeed(demo), events);
               && f.joined && !Lagged(f.proxy) && f.base == f.reading.parsed == f.reading.passed == 2
               && f.proxy.accepted == f.before + Bytes(snap(f.at)) + p && !Gapless(packets, snap, f)
  {
    hide Flat, WellFormed, OnTrack, AfterForward, AfterConnection, Full, StreamInput.Happen, GivenAfter, Bytes;
    var packets, snap := [p, p], (given: seq<nat>) => [Send(Full())];
    var events := [Arrive(2 * |p|, true, true), Join(true, SLOW, []), ParsePacket(true, true), ParsePacket(true, true)];
    NoFeedFollowed(packets, snap, demo);
    TwoFlat(p);
    Nonempty(p);
    AllArrive(packets, true);
    assert events[0..] == events && events[4..] == [];
    FeedsOne(packets, snap, NoFeed(demo), events, 0);
    var f1 := Next(packets, snap, NoFeed(demo), events[0]);
    FeedsOne(packets, snap, f1, events, 1);
    JoinsFilled();
    var f2 := Next(packets, snap, f1, events[1]);
    assert f2.proxy == Filled();
    ParsesOne(packets, f2.reading);
    BlockMakesItLag(p, true, snap(f2.given));
    FeedsOne(packets, snap, f2, events, 2);
    var f3 := Next(packets, snap, f2, events[2]);
    ParsesOne(packets, f3.reading);
    BlockAfterSnapshot(p);
    FeedsOne(packets, snap, f3, events, 3);
    var f4 := Next(packets, snap, f3, events[3]);
    GaplessExactlyWhen(packets, snap, demo, events);
    OneSend(Full());
  }

  lemma OneSend(d: seq<Byte>)
    ensures Bytes([Send(d)]) == d
  {
    assert [Send(d)][1..] == [] && d + [] == d;
  }

  lemma TwoFlat(p: seq<Byte>)
    ensures Flat([p, p]) == p + p
  {
    assert [p, p][1..] == [p];
    FlatOne(p);
  }

  /** When everything has arrived and nothing is ahead of the parser, it forwards the packet it parses. */
  lemma ParsesOne(packets: seq<seq<Byte>>, w: Reading)
    requires OnTrack(packets, w) && w.arrived == |Flat(packets)| && w.passed == w.parsed < |packets|
    ensures var x := StreamInput.Happen(packets, w, Parse);
            && OnTrack(packets, x) && x.arrived == w.arrived && x.passed == x.parsed == w.parsed + 1
            && w.input.forwardpoint == 0 && Flat(packets[w.passed..x.passed]) == packets[w.parsed]
  {
    hide Flat, WellFormed, WholeRuns, RunLength;
    ParseOnTrack(packets, w);
    RunFindsPacket(packets, w.parsed, w.arrived);
    OffsetsGrow(packets, w.parsed + 1);
    assert packets[w.parsed..w.parsed + 1] == [packets[w.parsed]];
    FlatOne(packets[w.parsed]);
  }
}
