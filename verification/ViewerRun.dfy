/**
 * A viewer and its client over the lossy network: end-to-end delivery of the reliable bytes.
 *
 * The viewer side is driven exactly as the proxy drives it: data is queued, packets go out when the
 * viewer may send, and every accepted packet resets the outgoing sequence number to the client's.
 * The client side is an arbitrary user of its own channel end.
 */
module ViewerRun {
  import opened Msg
  import opened Netchan
  import opened NetchanRun
  import opened ViewerQueue

  datatype World = World(
    v: Viewer,
    out: set<Sent>,
    queued: seq<seq<Byte>>,
    accepted: seq<seq<Byte>>,
    client: End,
    given: seq<Byte>)            // every byte handed to SendBufferToViewer, in order

  datatype Event =
    | Give(buffer: seq<Byte>)
    | Poll(timedOut: bool, canPacket: bool, data: seq<Byte>)
    | FromClient(datagram: Sent, hasServer: bool, choke: bool)
    | Client(action: Action)

  /** The viewer's channel end. */
  function ViewerEnd(w: World): End {
    End(w.v.chan, w.out, w.queued, w.accepted)
  }

  /** The world after the viewer's channel end has become `e` and the rest of the viewer `v`. */
  function WithEnd(w: World, v: Viewer, e: End): World {
    w.(v := v.(chan := e.chan), out := e.out, queued := e.queued, accepted := e.accepted)
  }

  function Happen(w: World, event: Event): World {
    match event
    case Give(buffer) => w.(v := Queue(w.v, buffer), given := w.given + buffer)
    case Poll(timedOut, canPacket, data) =>
      var after := AfterPoll(w.v, timedOut, canPacket);
      if !Ready(w.v, canPacket) then w.(v := after)
      else var e := SendFrom(ViewerEnd(w), data); WithEnd(w, after, e.(chan := after.chan))
    case FromClient(x, hasServer, choke) =>
      if x !in w.client.out || !Accepts(w.v.chan, x.packet) then w
      else
        var e := ReceiveAt(ViewerEnd(w), x.packet);
        var after := AfterAccept(w.v.(chan := e.chan), hasServer, choke);
        WithEnd(w, after, e.(chan := after.chan))
    case Client(action) => w.(client := Act(w.client, w.out, action))
  }

  function Events(w: World, events: seq<Event>): World
    decreases |events|
  {
    if events == [] then w else Events(Happen(w, events[0]), events[1..])
  }

  function Connect(port: nat): World {
    World(Viewer(Fresh(false, port), [], false, false, false), {}, [], [],
          End(Fresh(true, port), {}, [], []), [])
  }

  /** Every buffer is small enough for an empty back buffer. */
  ghost predicate SmallBuffers(events: seq<Event>) {
    forall i :: 0 <= i < |events| && events[i].Give? ==> |events[i].buffer| <= MAX_BACKBUF_SIZE
  }

  // ---------- The queue as one byte sequence ----------

  function Queued(v: Viewer): seq<Byte> {
    v.chan.message + Flat(v.backbuf)
  }

  /** The reliable bytes that were sent but not yet accepted. */
  function Pending(w: World): seq<Byte> {
    if |w.client.accepted| < |w.queued| then w.v.chan.reliable else []
  }

  /**
   * A buffer joins the end of the queue, or the viewer is dropped; the only other outcome is that it
   * is too large for the back buffer opened for it, and then nothing is queued.
   */
  lemma QueueKeepsBytes(v: Viewer, buffer: seq<Byte>)
    ensures var u := Queue(v, buffer);
            var inMessage := v.backbuf == [] && |v.chan.message| + |buffer| < 1450;
            var inBuffer := v.backbuf != [] && |Last(v.backbuf)| + |buffer| < 1000;
            && (u.drop == (v.drop || (|v.backbuf| == 16 && !inBuffer)))
            && (inMessage ==> u.chan.message == v.chan.message + buffer && u.backbuf == [])
            && (!inMessage && !u.drop ==> u.chan == v.chan)
            && (!u.drop ==> (Queued(u) == Queued(v) + buffer <==> inMessage || inBuffer || |buffer| <= 1000))
            && (!u.drop && Queued(u) != Queued(v) + buffer ==> Queued(u) == Queued(v))
            && |u.backbuf| == |v.backbuf| + if inMessage || inBuffer || |v.backbuf| == 16 then 0 else 1
  {
    hide Flat, OverflowNotice;
    var u := Queue(v, buffer);
    if FitsMessage(v, buffer) {
      assert v.backbuf == [] ==> Flat(v.backbuf) == [] by { FlatNone(); }
      assert Queued(u) == Queued(v) + buffer;
    } else if FitsBackbuf(v, buffer) {
      LastGrows(v.backbuf, buffer);
      assert Queued(u) == Queued(v) + buffer;
    } else if |v.backbuf| != MAX_BACK_BUFFERS {
      var b := if |buffer| <= MAX_BACKBUF_SIZE then buffer else [];
      FlatMore(v.backbuf, b);
      assert Queued(u) == Queued(v) + b;
      assert |buffer| > MAX_BACKBUF_SIZE ==> |Queued(v) + b| < |Queued(v) + buffer|;
    }
  }

  lemma LastGrows(s: seq<seq<Byte>>, b: seq<Byte>)
    requires s != []
    ensures Flat(s[..|s| - 1] + [Last(s) + b]) == Flat(s) + b
  {
    hide Flat, Last;
    FlatMore(s[..|s| - 1], Last(s) + b);
    FrontAndLast(s);
    JoinThree(Flat(s[..|s| - 1]), Last(s), b);
  }

  lemma FrontAndLast(s: seq<seq<Byte>>)
    requires s != []
    ensures Flat(s) == Flat(s[..|s| - 1]) + Last(s)
  {
    hide Flat;
    FlatMore(s[..|s| - 1], Last(s));
    assert s == s[..|s| - 1] + [Last(s)];
  }

  lemma JoinThree(a: seq<Byte>, b: seq<Byte>, c: seq<Byte>)
    ensures a + (b + c) == a + b + c
  {
  }

  lemma ShiftKeepsBytes(v: Viewer)
    ensures Queued(Shift(v)) == Queued(v)
  {
    if v.chan.message == [] && v.backbuf != [] {
      FlatAppend([v.backbuf[0]], v.backbuf[1..]);
      FlatOne(v.backbuf[0]);
      assert [v.backbuf[0]] + v.backbuf[1..] == v.backbuf;
    }
  }

  // ---------- The invariant ----------

  /** At most one transmit follows each accepted packet, so the reset never reuses a number. */
  ghost predicate Disciplined(v: Viewer) {
    && v.chan.outgoingSequence <= v.chan.incomingSequence + (if v.maysend then 0 else 1)
    && !v.chan.isclient
    && |v.chan.message| <= MAX_QWMSGLEN && |v.chan.reliable| <= MAX_QWMSGLEN
    && forall k :: 0 <= k < |v.backbuf| ==> |v.backbuf[k]| <= MAX_BACKBUF_SIZE
  }

  ghost predicate Sound(w: World) {
    && Linked(ViewerEnd(w), w.client) && Linked(w.client, ViewerEnd(w))
    && Disciplined(w.v)
    && (forall i :: 0 <= i < |w.queued| ==> |w.queued[i]| <= MAX_QWMSGLEN)
    && (!w.v.drop ==> w.given == Flat(w.queued) + Queued(w.v))
  }

  lemma GiveIsSound(w: World, buffer: seq<Byte>)
    requires Sound(w) && |buffer| <= MAX_BACKBUF_SIZE
    ensures Sound(Happen(w, Give(buffer)))
  {
    hide Linked, Flat, OverflowNotice;
    var x := Happen(w, Give(buffer));
    QueueKeepsBytes(w.v, buffer);
    assert Disciplined(x.v);
    HonestUnchanged(ViewerEnd(w), ViewerEnd(x), w.client);
    assert !x.v.drop ==> Queued(x.v) == Queued(w.v) + buffer;
  }

  /** Loading the message moves it from the queue to the payloads under way. */
  lemma TransmitKeepsBytes(e: End, v: Viewer, data: seq<Byte>)
    requires v.chan == e.chan
    ensures var f := SendFrom(e, data);
            Flat(f.queued) + Queued(v.(chan := f.chan)) == Flat(e.queued) + Queued(v)
  {
    if Loads(e.chan) {
      FlatAppend(e.queued, [e.chan.message]);
      FlatOne(e.chan.message);
    }
  }

  /** The viewer after the packet has left and before the back buffers move. */
  function Transmitted(w: World, timedOut: bool): Viewer {
    w.v.(drop := w.v.drop || timedOut, chan := AfterTransmit(w.v.chan), maysend := false)
  }

  lemma PollIsSound(w: World, timedOut: bool, canPacket: bool, data: seq<Byte>)
    requires Sound(w)
    ensures Sound(Happen(w, Poll(timedOut, canPacket, data)))
  {
    hide Linked, Flat, Shift, Disciplined, AfterTransmit, TransmitPacket;
    if Ready(w.v, canPacket) {
      var e := ViewerEnd(w);
      var f := SendFrom(e, data);
      SenderSends(e, w.client, data);
      ReceiverSends(w.client, e, data);
      var sent := Transmitted(w, timedOut);
      var x := Happen(w, Poll(timedOut, canPacket, data));
      PollDiscipline(w, timedOut);
      PollKeepsBytes(w, timedOut, data);
      HonestUnchanged(f, ViewerEnd(x), w.client);
    } else {
      SameDiscipline(w.v, w.v.drop || timedOut);
    }
  }

  lemma SameDiscipline(v: Viewer, drop: bool)
    requires Disciplined(v)
    ensures Disciplined(v.(drop := drop)) && |v.chan.message| <= MAX_QWMSGLEN
  {
  }

  lemma PollDiscipline(w: World, timedOut: bool)
    requires Disciplined(w.v) && w.v.maysend
    ensures var sent := Transmitted(w, timedOut);
            && Disciplined(Shift(sent)) && |w.v.chan.message| <= MAX_QWMSGLEN
            && Shift(sent).chan == sent.chan.(message := Shift(sent).chan.message) && Shift(sent).drop == sent.drop
  {
  }

  lemma PollKeepsBytes(w: World, timedOut: bool, data: seq<Byte>)
    ensures var f := SendFrom(ViewerEnd(w), data);
            Flat(f.queued) + Queued(Shift(Transmitted(w, timedOut))) == Flat(w.queued) + Queued(w.v)
  {
    hide Flat;
    var sent := Transmitted(w, timedOut);
    ShiftKeepsBytes(sent);
    TransmitKeepsBytes(ViewerEnd(w), w.v, data);
    assert Queued(sent) == Queued(w.v.(chan := sent.chan));
  }

  lemma AcceptIsSound(w: World, x: Sent, hasServer: bool, choke: bool)
    requires Sound(w) && x in w.client.out && Accepts(w.v.chan, x.packet)
    ensures Sound(Happen(w, FromClient(x, hasServer, choke)))
    ensures x.packet.sequence >= w.v.chan.outgoingSequence
  {
    hide Linked, Flat;
    var e := ViewerEnd(w);
    var f := ReceiveAt(e, x.packet);
    SenderReceives(e, w.client, x);
    ReceiverReceives(w.client, e, x);
    var y := Happen(w, FromClient(x, hasServer, choke));
    HonestUnchanged(f, ViewerEnd(y), w.client);
  }

  lemma {:induction false} EventsAreSound(w: World, events: seq<Event>)
    requires Sound(w) && SmallBuffers(events)
    ensures Sound(Events(w, events))
    decreases |events|
  {
    if events != [] {
      var x := Happen(w, events[0]);
      match events[0] {
        case Give(buffer) => GiveIsSound(w, buffer);
        case Poll(timedOut, canPacket, data) => PollIsSound(w, timedOut, canPacket, data);
        case FromClient(s, hasServer, choke) =>
          if x != w {
            AcceptIsSound(w, s, hasServer, choke);
          }
        case Client(action) => ActKeepsInv(w.client, ViewerEnd(w), action);
      }
      EventsAreSound(x, events[1..]);
    }
  }

  // ---------- Main result ----------

  /**
   * In every run of a viewer that is not dropped, what the client has accepted, the payload under
   * way, the collected message and the back buffers, in this order, are exactly the bytes given; and
   * no two datagrams of the viewer share a sequence number although the numbers are reset.
   */
  lemma EndToEndDelivery(port: nat, events: seq<Event>)
    requires SmallBuffers(events)
    ensures var w := Events(Connect(port), events);
            && (!w.v.drop ==> Flat(w.client.accepted) + Pending(w) + Queued(w.v) == w.given)
            && Distinct(ViewerEnd(w))
  {
    hide Flat;
    var w0 := Connect(port);
    FlatNone();
    assert Sound(w0);
    EventsAreSound(w0, events);
    var w := Events(w0, events);
    var k := |w.queued|;
    LinkedDelivers(ViewerEnd(w), w.client);
    if |w.client.accepted| < k {
      assert w.queued == w.client.accepted + [w.queued[k - 1]];
      FlatMore(w.client.accepted, w.queued[k - 1]);
      assert w.v.chan.reliable == w.queued[k - 1];
    } else {
      assert w.client.accepted == w.queued;
    }
  }
}
