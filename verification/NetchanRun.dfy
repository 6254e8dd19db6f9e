/**
 * Two channel ends joined by a network that loses, duplicates and reorders datagrams.
 *
 * The network keeps every datagram ever sent and may deliver any of them, any number of times, in
 * any order, or never.  The theorem of this module holds after every finite sequence of steps: the
 * reliable payloads one end has accepted are a prefix of those the other end has put on the wire,
 * except that a payload with no room in a datagram arrives empty; and a payload is repeated only
 * while it provably was not, and can no longer be, accepted.
 */
module NetchanRun {
  import opened Msg
  import opened Netchan

  /** A datagram, with the number of reliable payloads its sender had accepted when sending it. */
  datatype Sent = Sent(packet: Packet, accepted: nat)

  datatype End = End(
    chan: Chan,
    out: set<Sent>,             // datagrams this end has sent
    queued: seq<seq<Byte>>,     // reliable payloads this end has moved to its reliable buffer
    accepted: seq<seq<Byte>>)   // reliable payloads this end has accepted

  datatype Net = Net(a: End, b: End)

  datatype Action =
    | Write(data: seq<Byte>)      // collect more reliable data
    | Send(data: seq<Byte>)       // Netchan_Transmit with unreliable data
    | Receive(datagram: Sent)     // the network delivers a datagram to Netchan_Process
    | Skip(sequence: nat)         // the owner moves outgoing_sequence forward

  datatype Step = Step(atA: bool, action: Action)

  /** The largest payload that a datagram has room for; the message buffer takes up to MAX_MSGLEN. */
  function MaxReliable(isclient: bool): nat {
    SEND_BUFFER - HeaderSize(isclient)
  }

  /** What arrives of a payload. */
  function Arriving(isclient: bool, payload: seq<Byte>): seq<Byte> {
    Fitting(HeaderSize(isclient), payload)
  }

  // ---------- Steps ----------

  function SendFrom(e: End, data: seq<Byte>): End {
    End(AfterTransmit(e.chan),
        e.out + {Sent(TransmitPacket(e.chan, data), |e.accepted|)},
        if Loads(e.chan) then e.queued + [e.chan.message] else e.queued,
        e.accepted)
  }

  function ReceiveAt(e: End, p: Packet): End {
    e.(chan := AfterProcess(e.chan, p),
       accepted := if Accepts(e.chan, p) && p.hasReliable then e.accepted + [p.reliable] else e.accepted)
  }

  /** What an action of one end does to it, given the datagrams the other end has sent. */
  function Act(e: End, incoming: set<Sent>, action: Action): End {
    match action
    case Write(data) =>
      if |e.chan.message| + |data| <= MAX_MSGLEN
      then e.(chan := e.chan.(message := e.chan.message + data)) else e
    case Send(data) => SendFrom(e, data)
    case Receive(x) => if x in incoming then ReceiveAt(e, x.packet) else e
    case Skip(n) =>
      if n >= e.chan.outgoingSequence then e.(chan := e.chan.(outgoingSequence := n)) else e
  }

  function Apply(net: Net, step: Step): Net {
    if step.atA then Net(Act(net.a, net.b.out, step.action), net.b)
    else Net(net.a, Act(net.b, net.a.out, step.action))
  }

  function Run(net: Net, steps: seq<Step>): Net
    decreases |steps|
  {
    if steps == [] then net else Run(Apply(net, steps[0]), steps[1..])
  }

  function Start(portA: nat, aIsClient: bool, portB: nat, bIsClient: bool): Net {
    Net(End(Fresh(aIsClient, portA), {}, [], []), End(Fresh(bIsClient, portB), {}, [], []))
  }

  // ---------- The invariant of one direction ----------

  predicate Odd(n: nat) {
    n % 2 == 1
  }

  /** How many payloads the sender knows to have been accepted. */
  function Known(s: End): nat {
    if s.chan.reliable == [] || s.queued == [] then |s.queued| else |s.queued| - 1
  }

  /** What the two ends agree on. */
  ghost predicate Agreement(s: End, r: End) {
    && |r.accepted| <= |s.queued| <= |r.accepted| + 1
    && (forall i :: 0 <= i < |r.accepted| ==> r.accepted[i] == Arriving(s.chan.isclient, s.queued[i]))
    && (forall i :: 0 <= i < |s.queued| ==> s.queued[i] != [])
    && s.chan.reliableSequence == Odd(|s.queued|)
    && r.chan.incomingReliableSequence == Odd(|r.accepted|)
    && (s.chan.reliable == [] ==> |r.accepted| == |s.queued|)
    && (s.chan.reliable != [] ==> s.queued != [] && s.chan.reliable == s.queued[|s.queued| - 1])
  }

  /** Only the latest copy of an unaccepted payload can still be accepted. */
  ghost predicate Copies(s: End, r: End) {
    && s.chan.lastReliableSequence <= s.chan.outgoingSequence
    && (r.chan.incomingSequence == 0 || r.chan.incomingSequence < s.chan.outgoingSequence)
    && forall x :: x in s.out ==>
         && x.packet.sequence < s.chan.outgoingSequence
         && (x.packet.hasReliable && x.packet.sequence > r.chan.incomingSequence ==>
               && x.packet.sequence + 1 == s.chan.lastReliableSequence
               && |r.accepted| < |s.queued|
               && x.packet.reliable == Arriving(s.chan.isclient, s.queued[|s.queued| - 1]))
  }

  /** No sequence number is used for two datagrams. */
  ghost predicate Distinct(s: End) {
    forall x, y :: x in s.out && y in s.out && x.packet.sequence == y.packet.sequence ==> x == y
  }

  /** What an acknowledgement of the receiver says about it. */
  ghost predicate Honest(s: End, r: End, x: Sent) {
    && x.packet.acknowledged <= r.chan.incomingSequence
    && x.packet.reliableAcknowledged == Odd(x.accepted)
    && x.accepted <= |r.accepted|
    && x.packet.sequence < r.chan.outgoingSequence
    && (x.packet.sequence > s.chan.incomingSequence ==> Known(s) <= x.accepted)
    && (x.packet.acknowledged + 1 >= s.chan.lastReliableSequence && x.accepted < |s.queued|
        ==> |r.accepted| < |s.queued|)
  }

  ghost predicate Acknowledgements(s: End, r: End) {
    && (forall x :: x in r.out ==> Honest(s, r, x))
    && (forall x, y :: x in r.out && y in r.out && x.packet.sequence < y.packet.sequence
          ==> x.accepted <= y.accepted)
    && s.chan.incomingAcknowledged <= r.chan.incomingSequence
    && s.chan.incomingReliableAcknowledged == Odd(Known(s))
    && Known(s) <= |r.accepted|
    && (s.chan.incomingAcknowledged + 1 >= s.chan.lastReliableSequence && Known(s) < |s.queued|
        ==> |r.accepted| < |s.queued|)
  }

  ghost predicate Linked(s: End, r: End) {
    Agreement(s, r) && Copies(s, r) && Distinct(s) && Acknowledgements(s, r)
  }

  ghost predicate Inv(net: Net) {
    Linked(net.a, net.b) && Linked(net.b, net.a)
  }

  // ---------- Each step keeps it ----------

  /**
   * The heart of the protocol: when the sender decides to repeat a payload, the receiver has not
   * accepted it and no copy already on the wire can be accepted any more.
   */
  lemma ResendIsSafe(s: End, r: End)
    requires Linked(s, r) && Resends(s.chan)
    ensures s.chan.reliable != [] && |r.accepted| == |s.queued| - 1
    ensures forall x :: x in s.out && x.packet.hasReliable ==> !Accepts(r.chan, x.packet)
  {
  }

  lemma SenderSends(s: End, r: End, data: seq<Byte>)
    requires Linked(s, r)
    ensures Linked(SendFrom(s, data), r)
  {
    if Resends(s.chan) {
      ResendIsSafe(s, r);
    }
    var t := SendFrom(s, data);
    assert Agreement(t, r);
    assert Copies(t, r);
    assert Known(t) == Known(s);
    forall x | x in r.out
      ensures Honest(t, r, x)
    {
      assert Honest(s, r, x);
    }
  }

  lemma ReceiverSends(s: End, r: End, data: seq<Byte>)
    requires Linked(s, r)
    ensures Linked(s, SendFrom(r, data))
  {
    var q := SendFrom(r, data);
    assert Agreement(s, q) && Copies(s, q);
    forall x | x in q.out
      ensures Honest(s, q, x)
    {
      if x in r.out {
        assert Honest(s, r, x);
      }
    }
    forall x, y | x in q.out && y in q.out && x.packet.sequence < y.packet.sequence
      ensures x.accepted <= y.accepted
    {
      assert x in r.out;
      assert Honest(s, r, x);
      if y in r.out {
        assert Honest(s, r, y);
      }
    }
  }

  lemma ReceiverReceives(s: End, r: End, x: Sent)
    requires Linked(s, r) && x in s.out
    ensures Linked(s, ReceiveAt(r, x.packet))
  {
    var q := ReceiveAt(r, x.packet);
    assert Agreement(s, q) && Copies(s, q);
    forall y | y in r.out
      ensures Honest(s, q, y)
    {
      assert Honest(s, r, y);
    }
  }

  lemma SenderReceives(s: End, r: End, x: Sent)
    requires Linked(s, r) && x in r.out
    ensures Linked(ReceiveAt(s, x.packet), r)
  {
    var t := ReceiveAt(s, x.packet);
    assert Honest(s, r, x);
    assert Agreement(t, r) && Copies(t, r);
    forall y | y in r.out
      ensures Honest(t, r, y)
    {
      assert Honest(s, r, y);
    }
  }

  /** What an acknowledgement says does not depend on the data collected or the next sequence number. */
  lemma HonestUnchanged(e: End, f: End, peer: End)
    requires Linked(e, peer) && Linked(peer, e)
    requires f == e.(chan := e.chan.(message := f.chan.message, outgoingSequence := f.chan.outgoingSequence))
    requires f.chan.outgoingSequence >= e.chan.outgoingSequence
    ensures Linked(f, peer) && Linked(peer, f)
  {
    assert Known(f) == Known(e);
    forall x | x in peer.out
      ensures Honest(f, peer, x)
    {
      assert Honest(e, peer, x);
    }
    forall x | x in e.out
      ensures Honest(peer, f, x)
    {
      assert Honest(peer, e, x);
    }
  }

  lemma ActKeepsInv(e: End, peer: End, action: Action)
    requires Linked(e, peer) && Linked(peer, e)
    ensures Linked(Act(e, peer.out, action), peer) && Linked(peer, Act(e, peer.out, action))
  {
    var f := Act(e, peer.out, action);
    match action
    case Write(_) =>
      HonestUnchanged(e, f, peer);
    case Send(data) =>
      SenderSends(e, peer, data);
      ReceiverSends(peer, e, data);
    case Receive(x) =>
      if x in peer.out {
        SenderReceives(e, peer, x);
        ReceiverReceives(peer, e, x);
      }
    case Skip(_) =>
      HonestUnchanged(e, f, peer);
  }

  lemma {:induction false} RunKeepsInv(net: Net, steps: seq<Step>)
    requires Inv(net)
    ensures Inv(Run(net, steps))
    decreases |steps|
  {
    if steps != [] {
      if steps[0].atA {
        ActKeepsInv(net.a, net.b, steps[0].action);
      } else {
        ActKeepsInv(net.b, net.a, steps[0].action);
      }
      RunKeepsInv(Apply(net, steps[0]), steps[1..]);
    }
  }

  // ---------- Main results ----------

  /**
   * What the receiver has of the sender's payloads: the first ones, in order, none twice, none skipped,
   * with at most one outstanding.  The buffer is clear only when all were accepted, and a payload is
   * about to be repeated only when it was not accepted and no earlier copy can be accepted any more.
   */
  ghost predicate Delivers(s: End, r: End) {
    && |r.accepted| <= |s.queued| <= |r.accepted| + 1
    && (forall i :: 0 <= i < |r.accepted| ==> r.accepted[i] == Arriving(s.chan.isclient, s.queued[i]))
    && (s.chan.reliable == [] ==> |r.accepted| == |s.queued|)
    && (Resends(s.chan) ==>
          && s.chan.reliable != [] && |r.accepted| < |s.queued|
          && forall x :: x in s.out && x.packet.hasReliable ==> !Accepts(r.chan, x.packet))
  }

  /** Every payload that was accepted had room in a datagram. */
  ghost predicate AllFit(s: End, r: End)
    requires |r.accepted| <= |s.queued|
  {
    forall i :: 0 <= i < |r.accepted| ==> |s.queued[i]| <= MaxReliable(s.chan.isclient)
  }

  lemma LinkedDelivers(s: End, r: End)
    requires Linked(s, r)
    ensures Delivers(s, r)
    ensures r.accepted <= s.queued <==> AllFit(s, r)
  {
    if Resends(s.chan) {
      ResendIsSafe(s, r);
    }
    if AllFit(s, r) {
      assert r.accepted == s.queued[..|r.accepted|];
    } else {
      var i :| 0 <= i < |r.accepted| && |s.queued[i]| > MaxReliable(s.chan.isclient);
      assert r.accepted[i] == [] != s.queued[i];
    }
  }

  /**
   * Over every run, each end accepts the payloads of the other in order, none twice, none skipped; they
   * are exactly a prefix of those sent if and only if each of them had room in a datagram.
   */
  lemma ReliableDelivery(portA: nat, aIsClient: bool, portB: nat, bIsClient: bool, steps: seq<Step>)
    ensures var net := Run(Start(portA, aIsClient, portB, bIsClient), steps);
            && Delivers(net.a, net.b) && (net.b.accepted <= net.a.queued <==> AllFit(net.a, net.b))
            && Delivers(net.b, net.a) && (net.a.accepted <= net.b.queued <==> AllFit(net.b, net.a))
  {
    var start := Start(portA, aIsClient, portB, bIsClient);
    assert Inv(start);
    RunKeepsInv(start, steps);
    var net := Run(start, steps);
    LinkedDelivers(net.a, net.b);
    LinkedDelivers(net.b, net.a);
  }

  /**
   * A run without loss: the first datagram of each end, which always has number 0 and is discarded, then
   * one payload, and its acknowledgement.
   */
  function Exchange(aIsClient: bool, payload: seq<Byte>): seq<Step> {
    [Step(true, Send([])), Step(true, Write(payload)), Step(true, Send([])),
     Step(false, Receive(Sent(Packet(1, true, 0, false, Arriving(aIsClient, payload), []), 0))),
     Step(false, Send([])), Step(false, Send([])),
     Step(true, Receive(Sent(Packet(1, false, 1, true, [], []), 1)))]
  }

  /**
   * The message buffer takes up to 8192 bytes, a datagram less: a payload arrives if and only if the
   * datagram has room for it.  A larger one is accepted as nothing, acknowledged and cleared.
   */
  lemma PayloadArrivesIfItFits(portA: nat, aIsClient: bool, portB: nat, payload: seq<Byte>)
    requires 0 < |payload| <= MAX_MSGLEN
    ensures var net := Run(Start(portA, aIsClient, portB, !aIsClient), Exchange(aIsClient, payload));
            && net.a.queued == [payload] && net.a.chan.reliable == [] && |net.b.accepted| == 1
            && (net.b.accepted == [payload] <==> |payload| <= MaxReliable(aIsClient))
            && (|payload| > MaxReliable(aIsClient) ==> net.b.accepted == [[]])
  {
    var steps := Exchange(aIsClient, payload);
    var n0 := Start(portA, aIsClient, portB, !aIsClient);
    var n3 := Apply(Apply(Apply(n0, steps[0]), steps[1]), steps[2]);
    assert [] + payload == payload;
    assert n3.a.queued == [payload] && n3.a.chan.reliable == payload && n3.b == n0.b;
    assert steps[3].action.datagram in n3.a.out;
    var n5 := Apply(Apply(n3, steps[3]), steps[4]);
    assert n5.b.accepted == [Arriving(aIsClient, payload)] && n5.a == n3.a;
    var n6 := Apply(n5, steps[5]);
    assert steps[6].action.datagram in n6.b.out;
    SevenSteps(n0, steps);
  }

  lemma SevenSteps(net: Net, steps: seq<Step>)
    requires |steps| == 7
    ensures Run(net, steps)
            == Apply(Apply(Apply(Apply(Apply(Apply(Apply(net, steps[0]), steps[1]), steps[2]), steps[3]), steps[4]),
                           steps[5]), steps[6])
  {
    hide Apply;
    var n1 := Apply(net, steps[0]);
    var n2 := Apply(n1, steps[1]);
    var n3 := Apply(n2, steps[2]);
    var n4 := Apply(n3, steps[3]);
    var n5 := Apply(n4, steps[4]);
    var n6 := Apply(n5, steps[5]);
    RunFrom(net, steps, 0);
    RunFrom(n1, steps, 1);
    RunFrom(n2, steps, 2);
    RunFrom(n3, steps, 3);
    RunFrom(n4, steps, 4);
    RunFrom(n5, steps, 5);
    RunFrom(n6, steps, 6);
    assert steps[0..] == steps && steps[7..] == [];
  }

  lemma RunFrom(net: Net, steps: seq<Step>, i: nat)
    requires i < |steps|
    ensures Run(net, steps[i..]) == Run(Apply(net, steps[i]), steps[i + 1..])
  {
    assert steps[i..][1..] == steps[i + 1..];
  }

  /**
   * The receiver acts on the bytes of a datagram exactly as on the packet they encode, as long as
   * sequence numbers fit their 31 bits.
   */
  lemma BytesActLikePackets(c: Chan, p: Packet, fromClient: bool, qport: nat)
    requires p.sequence < 0x8000_0000 && p.acknowledged < 0x8000_0000
    ensures AfterProcess(c, Parse(Wire(p, fromClient, qport), fromClient)) == AfterProcess(c, p)
    ensures Body(Wire(p, fromClient, qport), fromClient) == p.reliable + p.unreliable
  {
    WireRoundTrip(p, fromClient, qport);
  }

  /** The datagram that leaves when an end transmits without unreliable data. */
  function Next(e: End): Sent {
    Sent(TransmitPacket(e.chan, []), |e.accepted|)
  }

  function SendTwice(e: End): End {
    SendFrom(SendFrom(e, []), [])
  }

  /** The recovery exchange: the sender's third datagram, the receiver's second, and the repeat arrive. */
  function Recovery(s: End, r: End): (End, End) {
    var s3, r1 := SendFrom(SendTwice(s), []), ReceiveAt(r, Next(SendTwice(s)).packet);
    var r3, s4 := SendTwice(r1), ReceiveAt(s3, Next(SendFrom(r1, [])).packet);
    (SendFrom(s4, []), ReceiveAt(r3, Next(s4).packet))
  }

  /** After three datagrams the third is newer than any acknowledgement a repeat would wait for. */
  lemma ThreeSends(s: End, r: End)
    requires Linked(s, r) && s.chan.reliable != []
    ensures var s2 := SendTwice(s); var s3 := SendFrom(s2, []);
            && Linked(s2, r) && Linked(s3, r)
            && s3.queued == s.queued && s3.chan.reliable == s.chan.reliable
            && s3.chan.incomingSequence == s.chan.incomingSequence
            && Next(s2) in s3.out && Accepts(r.chan, Next(s2).packet)
            && Next(s2).packet.sequence > s3.chan.lastReliableSequence
  {
    hide Linked, SendFrom, AfterTransmit, TransmitPacket;
    SenderSends(s, r, []);
    SenderSends(SendFrom(s, []), r, []);
    SenderSends(SendTwice(s), r, []);
    SequencesOrdered(s, r);
    SendsInTurn(s);
  }

  lemma SequencesOrdered(s: End, r: End)
    requires Linked(s, r)
    ensures s.chan.lastReliableSequence <= s.chan.outgoingSequence
    ensures s.chan.incomingAcknowledged <= s.chan.outgoingSequence
    ensures r.chan.incomingSequence == 0 || r.chan.incomingSequence < s.chan.outgoingSequence
  {
  }

  /** Of three datagrams in turn only the first can repeat the payload. */
  lemma SendsInTurn(s: End)
    requires s.chan.reliable != [] && s.chan.lastReliableSequence <= s.chan.outgoingSequence
    requires s.chan.incomingAcknowledged <= s.chan.outgoingSequence
    ensures var s2 := SendTwice(s); var s3 := SendFrom(s2, []);
            && s3.queued == s.queued && s3.chan.reliable == s.chan.reliable
            && s3.chan.incomingSequence == s.chan.incomingSequence
            && Next(s2) in s3.out && Next(s2).packet.sequence == s.chan.outgoingSequence + 2
            && s3.chan.lastReliableSequence <= s.chan.outgoingSequence + 1
  {
    hide SendFrom;
    var s1 := SendFrom(s, []);
    OneSend(s);
    OneSend(s1);
    OneSend(SendTwice(s));
    assert !Resends(s1.chan);
  }

  /** A datagram while a payload is under way. */
  lemma OneSend(s: End)
    requires s.chan.reliable != []
    ensures var e := SendFrom(s, []);
            && e.queued == s.queued && e.chan.reliable == s.chan.reliable
            && e.chan == s.chan.(outgoingSequence := s.chan.outgoingSequence + 1,
                                 lastReliableSequence := e.chan.lastReliableSequence)
            && e.chan.lastReliableSequence == (if Resends(s.chan) then s.chan.outgoingSequence + 1
                                               else s.chan.lastReliableSequence)
            && Next(s) in e.out && Next(s).packet.sequence == s.chan.outgoingSequence
  {
  }

  lemma TwoSends(r: End, s: End)
    requires Linked(s, r) && Linked(r, s)
    ensures var r2 := SendFrom(r, []); var r3 := SendTwice(r);
            && Linked(s, r3) && r3.accepted == r.accepted
            && r3.chan.incomingSequence == r.chan.incomingSequence
            && r3.chan.incomingReliableSequence == r.chan.incomingReliableSequence
            && Next(r2) in r3.out && Accepts(s.chan, Next(r2).packet)
            && Next(r2).packet.acknowledged == r.chan.incomingSequence
            && Next(r2).packet.reliableAcknowledged == r.chan.incomingReliableSequence
  {
    ReceiverSends(s, r, []);
    ReceiverSends(s, SendFrom(r, []), []);
  }

  /** One send completes the payload once the sender knows that it has to repeat it. */
  lemma RepeatArrives(s: End, r: End)
    requires Linked(s, r)
    requires Resends(s.chan) || s.chan.reliable == []
    ensures |s.queued| <= |ReceiveAt(r, Next(s).packet).accepted|
  {
    SenderSends(s, r, []);
    ReceiverReceives(SendFrom(s, []), r, Next(s));
    if Resends(s.chan) {
      ResendIsSafe(s, r);
      assert Accepts(r.chan, Next(s).packet);
    }
  }

  lemma LinkedRecovers(s: End, r: End)
    requires Linked(s, r) && Linked(r, s)
    requires s.chan.reliable != []
    ensures |s.queued| <= |Recovery(s, r).1.accepted|
  {
    ThreeSends(s, r);
    ReceiverSends(r, s, []);
    ReceiverSends(r, SendFrom(s, []), []);
    ReceiverSends(r, SendTwice(s), []);
    var s2 := SendTwice(s);
    var s3 := SendFrom(s2, []);
    var r1 := ReceiveAt(r, Next(s2).packet);
    ReceiverReceives(s3, r, Next(s2));
    SenderReceives(r, s3, Next(s2));
    TwoSends(r1, s3);
    var r2, r3 := SendFrom(r1, []), SendTwice(r1);
    SenderReceives(s3, r3, Next(r2));
    var s4 := ReceiveAt(s3, Next(r2).packet);
    assert r1.chan.incomingSequence > s3.chan.lastReliableSequence;
    assert Resends(s4.chan) || s4.chan.reliable == [];
    RepeatArrives(s4, r3);
  }

  /**
   * The channel never gets stuck: after every run, whatever was lost before, one exchange in which a
   * datagram gets through each way and the repeat arrives completes the pending payload of either end.
   */
  lemma RecoveryCompletes(portA: nat, aIsClient: bool, portB: nat, bIsClient: bool, steps: seq<Step>)
    ensures var net := Run(Start(portA, aIsClient, portB, bIsClient), steps);
            && (net.a.chan.reliable != [] ==> |net.a.queued| <= |Recovery(net.a, net.b).1.accepted|)
            && (net.b.chan.reliable != [] ==> |net.b.queued| <= |Recovery(net.b, net.a).1.accepted|)
  {
    hide Recovery;
    var start := Start(portA, aIsClient, portB, bIsClient);
    assert Inv(start);
    RunKeepsInv(start, steps);
    var net := Run(start, steps);
    if net.a.chan.reliable != [] {
      LinkedRecovers(net.a, net.b);
    }
    if net.b.chan.reliable != [] {
      LinkedRecovers(net.b, net.a);
    }
  }
}
