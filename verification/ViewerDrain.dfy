/**
 * The queue of a viewer drains: whatever was lost before, a few round trips that arrive deliver everything.
 */
module ViewerDrain {
  import opened Msg
  import opened Netchan
  import opened NetchanRun
  import opened ViewerQueue
  import opened ViewerRun

  /** The second of two datagrams that the client sends, and the viewer's answer to it. */
  function Asked(w: World): Sent {
    Next(SendFrom(w.client, []))
  }

  function AfterAsked(w: World, hasServer: bool): World {
    Happen(Happen(Happen(w, Client(Send([]))), Client(Send([]))), FromClient(Asked(w), hasServer, false))
  }

  function Answered(w: World, data: seq<Byte>): Sent {
    Sent(TransmitPacket(w.v.chan, data), |w.accepted|)
  }

  /** A round trip without loss: the client sends, the viewer answers, and both datagrams arrive. */
  function RoundTrip(w: World, hasServer: bool, data: seq<Byte>): seq<Event> {
    [Client(Send([])), Client(Send([])), FromClient(Asked(w), hasServer, false), Poll(false, true, data),
     Client(Receive(Answered(AfterAsked(w, hasServer), data)))]
  }

  function AfterRound(w: World, hasServer: bool, data: seq<Byte>): World {
    var x := AfterAsked(w, hasServer);
    Happen(Happen(x, Poll(false, true, data)), Client(Receive(Answered(x, data))))
  }

  lemma RoundIsRun(w: World, hasServer: bool, data: seq<Byte>)
    ensures Events(w, RoundTrip(w, hasServer, data)) == AfterRound(w, hasServer, data)
  {
    hide Happen, Asked, Answered;
    var es := RoundTrip(w, hasServer, data);
    var w1 := Happen(w, es[0]);
    var w2 := Happen(w1, es[1]);
    var w3 := Happen(w2, es[2]);
    var w4 := Happen(w3, es[3]);
    assert es[1..][1..] == es[2..] && es[2..][1..] == es[3..] && es[3..][1..] == es[4..] && es[4..][1..] == [];
    assert Events(w, es) == Events(w1, es[1..]) == Events(w2, es[2..]) == Events(w3, es[3..]);
    assert Events(w3, es[3..]) == Events(w4, es[4..]) == Happen(w4, es[4]);
  }

  /** Everything that was sent has been accepted. */
  predicate Settled(w: World) {
    |w.client.accepted| >= |w.queued|
  }

  /** The client has accepted the viewer's last datagram. */
  predicate Current(w: World) {
    w.client.chan.incomingSequence + 1 == w.v.chan.outgoingSequence
  }

  /** How many round trips the queue takes at most. */
  function Waiting(v: Viewer): nat {
    2 * |v.backbuf| + if v.chan.message != [] then 1 else 0
  }

  /** What the viewer knows when its datagram is due. */
  lemma AskedArrives(w: World, hasServer: bool)
    requires Sound(w)
    ensures var x := AfterAsked(w, hasServer);
            && Sound(x) && x.v.maysend && x.given == w.given && x.queued == w.queued && x.v.drop == w.v.drop
            && x.client.accepted == w.client.accepted && x.v.backbuf == w.v.backbuf
            && x.v.chan.message == w.v.chan.message
            && x.v.chan.lastReliableSequence == w.v.chan.lastReliableSequence
            && x.v.chan.reliableSequence == w.v.chan.reliableSequence
            && x.v.chan.outgoingSequence >= w.v.chan.outgoingSequence && x.v.chan.outgoingSequence > 0
            && x.v.chan.incomingAcknowledged == w.client.chan.incomingSequence
            && x.client.chan.incomingSequence == w.client.chan.incomingSequence
            && x.v.chan.incomingReliableAcknowledged == w.client.chan.incomingReliableSequence
            && x.v.chan.reliable == if w.client.chan.incomingReliableSequence == w.v.chan.reliableSequence then []
                                    else w.v.chan.reliable
  {
    hide Linked, Disciplined, Flat;
    var e := Client(Send([]));
    ActKeepsInv(w.client, ViewerEnd(w), Send([]));
    var w1 := Happen(w, e);
    ActKeepsInv(w1.client, ViewerEnd(w1), Send([]));
    var w2 := Happen(w1, e);
    TwoSends(w.client, ViewerEnd(w));
    assert Sound(w2) && w2.client == SendTwice(w.client);
    AcceptIsSound(w2, Asked(w), hasServer, false);
  }

  /** The viewer's answer reaches a client that has not seen its number. */
  lemma AnswerArrives(w: World, x: World, data: seq<Byte>)
    requires Sound(x) && x.v.maysend && x.v.chan.outgoingSequence > 0
    ensures var y := Happen(x, Poll(false, true, data));
            var z := Happen(y, Client(Receive(Answered(x, data))));
            && Sound(z) && z.given == x.given && z.v == y.v == Shift(Transmitted(x, false)) && z.queued == y.queued
            && y.queued == (if Loads(x.v.chan) then x.queued + [x.v.chan.message] else x.queued)
            && z.client == ReceiveAt(x.client, TransmitPacket(x.v.chan, data))
            && Accepts(x.client.chan, TransmitPacket(x.v.chan, data))
            && z.client.chan.incomingSequence == x.v.chan.outgoingSequence
  {
    hide Linked, Disciplined, Flat, Shift, AfterTransmit, TransmitPacket;
    var y := Happen(x, Poll(false, true, data));
    PollIsSound(x, false, true, data);
    assert Answered(x, data) in y.out;
    ActKeepsInv(y.client, ViewerEnd(y), Receive(Answered(x, data)));
    NumberIsNew(x, data);
  }

  lemma NumberIsNew(x: World, data: seq<Byte>)
    requires Sound(x) && x.v.chan.outgoingSequence > 0
    ensures Accepts(x.client.chan, TransmitPacket(x.v.chan, data))
    ensures TransmitPacket(x.v.chan, data).sequence == x.v.chan.outgoingSequence
  {
  }

  // ---------- The progress of a round trip ----------

  /** Less than everything has been accepted: the payload under way is the one that is missing. */
  lemma Unsettled(w: World)
    requires Sound(w)
    ensures |w.client.accepted| <= |w.queued| <= |w.client.accepted| + 1
    ensures Settled(w) <==> w.client.chan.incomingReliableSequence == w.v.chan.reliableSequence
    ensures !Settled(w) ==> w.v.chan.reliable != []
    ensures w.v.chan.lastReliableSequence <= w.v.chan.outgoingSequence
  {
  }

  lemma ShiftWaits(v: Viewer)
    ensures var u := Shift(v);
            && u.chan == v.chan.(message := u.chan.message) && u.drop == v.drop && u.maysend == v.maysend
            && Waiting(u) <= Waiting(v)
            && (v.chan.message == [] && v.backbuf != [] ==> Waiting(u) < Waiting(v))
  {
  }

  /** What a round trip does to the payloads. */
  lemma RoundProgress(w: World, hasServer: bool, data: seq<Byte>)
    requires Sound(w) && !w.v.drop
    ensures var z := AfterRound(w, hasServer, data);
            && Sound(z) && !z.v.drop && z.given == w.given && Current(z)
            && z.v.chan.outgoingSequence > w.v.chan.outgoingSequence
            && Waiting(z.v) <= Waiting(w.v)
            && (Settled(w) ==> Settled(z) && (Waiting(z.v) < Waiting(w.v) || Waiting(w.v) == 0))
            && (!Settled(w) && w.client.chan.incomingSequence > w.v.chan.lastReliableSequence ==> Settled(z))
            && (Settled(z) || z.v.chan.lastReliableSequence == w.v.chan.lastReliableSequence)
  {
    hide Sound, Shift, AfterAsked;
    var x := AfterAsked(w, hasServer);
    AskedArrives(w, hasServer);
    AnswerArrives(w, x, data);
    Unsettled(w);
    Unsettled(x);
    ShiftWaits(Transmitted(x, false));
  }

  /** How far the sender is from knowing that it has to repeat what was lost. */
  predicate Stage(w: World, k: nat) {
    || Settled(w) || k == 0
    || (k <= 2 && Current(w) && w.v.chan.lastReliableSequence + k <= w.v.chan.outgoingSequence)
  }

  lemma NextStage(w: World, k: nat, hasServer: bool, data: seq<Byte>)
    requires Sound(w) && !w.v.drop && Stage(w, k) && k <= 3
    ensures var z := AfterRound(w, hasServer, data);
            && Sound(z) && !z.v.drop && z.given == w.given && Stage(z, if k < 3 then k + 1 else 3)
            && Waiting(z.v) <= Waiting(w.v) && (k == 3 ==> Waiting(z.v) < Waiting(w.v) || Waiting(w.v) == 0)
  {
    hide Sound, AfterRound, Waiting;
    RoundProgress(w, hasServer, data);
    Unsettled(w);
  }

  datatype Round = Round(hasServer: bool, data: seq<Byte>)

  /** A run of round trips. */
  function RoundTrips(w: World, rounds: seq<Round>): seq<Event>
    decreases |rounds|
  {
    if rounds == [] then []
    else
      var r := rounds[0];
      RoundTrip(w, r.hasServer, r.data) + RoundTrips(AfterRound(w, r.hasServer, r.data), rounds[1..])
  }

  lemma {:induction false} EventsOnwards(w: World, a: seq<Event>, b: seq<Event>)
    ensures Events(w, a + b) == Events(Events(w, a), b)
    decreases |a|
  {
    hide Happen;
    if a == [] {
      assert a + b == b;
    } else {
      assert (a + b)[1..] == a[1..] + b;
      EventsOnwards(Happen(w, a[0]), a[1..], b);
    }
  }

  lemma {:induction false} RoundsDrain(w: World, k: nat, rounds: seq<Round>)
    requires Sound(w) && !w.v.drop && Stage(w, k) && k <= 3 && |rounds| >= 3 - k + Waiting(w.v)
    ensures var z := Events(w, RoundTrips(w, rounds));
            Sound(z) && !z.v.drop && z.given == w.given && Settled(z) && Waiting(z.v) == 0
    decreases |rounds|
  {
    hide Sound, AfterRound, Waiting, Events, RoundTrip, Stage;
    if rounds == [] {
      NoEvents(w);
      LastStage(w, k);
    } else {
      var r := rounds[0];
      NextStage(w, k, r.hasServer, r.data);
      RoundsDrain(AfterRound(w, r.hasServer, r.data), if k < 3 then k + 1 else 3, rounds[1..]);
      RoundIsRun(w, r.hasServer, r.data);
      EventsOnwards(w, RoundTrip(w, r.hasServer, r.data), RoundTrips(AfterRound(w, r.hasServer, r.data), rounds[1..]));
    }
  }

  lemma NoEvents(w: World)
    ensures Events(w, []) == w
  {
  }

  lemma LastStage(w: World, k: nat)
    requires Stage(w, k) && k == 3
    ensures Settled(w)
  {
  }

  // ---------- Main result ----------

  /**
   * After every run, whatever was lost before, a few round trips that arrive empty the queue of a viewer that is
   * not dropped: the client then has accepted exactly the bytes given. It takes three to find out what was lost,
   * one for the message and at most two for each back buffer.
   */
  lemma QueueDrains(port: nat, events: seq<Event>, rounds: seq<Round>)
    requires SmallBuffers(events)
    ensures var w := Events(Connect(port), events);
            var z := Events(w, RoundTrips(w, rounds));
            !w.v.drop && |rounds| >= 4 + 2 * |w.v.backbuf| ==>
              !z.v.drop && z.given == w.given && Flat(z.client.accepted) == w.given
  {
    hide Flat, RoundTrips, Events;
    StartIsSound(port);
    EventsAreSound(Connect(port), events);
    var w := Events(Connect(port), events);
    if !w.v.drop && |rounds| >= 4 + 2 * |w.v.backbuf| {
      RoundsDrain(w, 0, rounds);
      EverythingAccepted(Events(w, RoundTrips(w, rounds)));
    }
  }

  lemma StartIsSound(port: nat)
    ensures Sound(Connect(port))
  {
    FlatNone();
  }

  lemma EverythingAccepted(z: World)
    requires Sound(z) && !z.v.drop && Settled(z) && Waiting(z.v) == 0
    ensures Flat(z.client.accepted) == z.given
  {
    hide Flat;
    LinkedDelivers(ViewerEnd(z), z.client);
    FlatNone();
    assert z.client.accepted == z.queued;
    assert Flat(z.queued) + ([] + []) == Flat(z.queued);
  }

  /**
   * In every run a datagram for a viewer is whole: its body, as read from the bytes, is the payload under way or
   * the message collected, if one of them is sent, and then all of the unreliable data.
   */
  lemma DatagramIsWhole(port: nat, events: seq<Event>, data: seq<Byte>)
    requires SmallBuffers(events) && |data| <= MAX_QWMSGLEN
    ensures var c := Events(Connect(port), events).v.chan;
            c.outgoingSequence < 0x8000_0000 && c.incomingSequence < 0x8000_0000 ==>
              var body := Parse(Wire(TransmitPacket(c, data), c.isclient, c.qport), false).unreliable;
              body == (if !SendsReliable(c) then [] else if c.reliable == [] then c.message else c.reliable) + data
  {
    hide Events, Linked, Wire, Parse, TransmitPacket, SendsReliable, Flat;
    StartIsSound(port);
    EventsAreSound(Connect(port), events);
    var c := Events(Connect(port), events).v.chan;
    if c.outgoingSequence < 0x8000_0000 && c.incomingSequence < 0x8000_0000 {
      DatagramArrives(c, data);
    }
  }
}
